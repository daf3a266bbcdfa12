/** Knuth's Algorithm D (The Art of Computer Programming, volume 2, section 4.3.1) in base
    2^16, on digit arrays updated in place.  A C pointer into a digit array is an array
    together with an offset. */
module AlgorithmD {
  import opened Bits
  import opened Digits

  // ---------------------------------------------------------------- D3

  /** Knuth's theorem B for the two-digit test, in any base b and for any number of
      digits: p is b^(n-2), so u has n+1 digits and v has n.  A trial digit that is the
      quotient of the leading three digits by the leading two, capped at b-1, is the true
      digit or one more. */
  lemma TrialDigitIsCloseAbove(b: int, p: int, u3: int, urest: int, v2: int, vrest: int, qhat: int, q: int)
    requires b >= 2 && p >= 1
    requires u3 >= 0 && 0 <= urest < p && v2 >= b && 0 <= vrest < p
    requires 0 <= qhat < b && qhat * v2 <= u3 && ((qhat + 1) * v2 > u3 || qhat == b - 1)
    requires 0 <= q < b && q * (v2 * p + vrest) <= u3 * p + urest < (q + 1) * (v2 * p + vrest)
    ensures q <= qhat <= q + 1
  {
    TrialDigitNotBelow(p, u3, urest, v2, vrest, qhat, q);
    TrialDigitNotAbove(b, p, u3, urest, v2, vrest, qhat, q);
  }

  lemma TrialDigitNotBelow(p: int, u3: int, urest: int, v2: int, vrest: int, qhat: int, q: int)
    requires p >= 1 && 0 <= urest < p && v2 >= 0 && 0 <= vrest && q >= 0
    requires (qhat + 1) * v2 > u3 || q <= qhat
    requires q * (v2 * p + vrest) <= u3 * p + urest
    ensures q <= qhat
  {
    if q > qhat {
      MulMono(qhat + 1, q, v2);
      var x := q * v2;
      SplitProduct(q, v2, p, vrest);
      MulMono(0, q, vrest);
      MulMono(u3 + 1, x, p);
    }
  }

  lemma TrialDigitNotAbove(b: int, p: int, u3: int, urest: int, v2: int, vrest: int, qhat: int, q: int)
    requires p >= 1 && 0 <= urest && v2 >= b && 0 <= vrest < p && 0 <= qhat < b
    requires qhat * v2 <= u3
    requires u3 * p + urest < (q + 1) * (v2 * p + vrest)
    ensures qhat <= q + 1
  {
    if qhat > q + 1 {
      var v := v2 * p + vrest;
      MulMono(q + 1, qhat - 1, v);        // u < (qhat - 1) * v
      SplitProduct(qhat, v2, p, vrest);   // qhat * v == (qhat * v2) * p + qhat * vrest
      MulMono(qhat * v2, u3, p);
      MulMono(vrest, p, qhat);
      MulMono(qhat, v2, p);               // qhat * vrest <= v2 * p <= v
    }
  }

  lemma SplitProduct(q: int, x: int, p: int, r: int)
    ensures q * (x * p + r) == (q * x) * p + q * r
  {
  }

  /** Step D3.  The jump into the loop body for u[j] == v[1] is the first branch. */
  method EstimateDigit(uj0: u32, uj1: u32, uj2: u32, v1: u32, v2: u32)
    returns (qhat: u32, ghost corrections: nat)
    requires uj0 <= v1 < B && uj1 < B && uj2 < B && v2 < B && v1 >= B / 2
    ensures qhat < B
    ensures qhat * (v1 * B + v2) <= (uj0 * B + uj1) * B + uj2
    ensures (qhat + 1) * (v1 * B + v2) > (uj0 * B + uj1) * B + uj2 || qhat == B - 1
    ensures corrections <= 2
  {
    ghost var u2 := uj0 * B + uj1;
    ghost var uTop, vTop := u2 * B + uj2, v1 * B + v2;
    var rhat: u32;
    corrections := 0;
    if uj0 == v1 {
      qhat, rhat := StepDown(B, uj1, v1);
      corrections := 1;
    } else {
      qhat, rhat := DivideTwoByOne(Combine(uj0, uj1), v1);
      TrialDigitTooSmallFails(qhat, rhat, v1, v2, u2, uj2);
    }
    var rhatBig := rhat >= B;
    while !rhatBig && Mul32(v2, qhat) > Combine(rhat, uj2)
      invariant qhat < B && (rhat < B <==> !rhatBig)
      invariant v1 * qhat + rhat == u2
      invariant (qhat + 1) * vTop > uTop || qhat == B - 1
      invariant corrections <= 2 && (corrections > 0 ==> rhat >= B / 2) && (corrections == 2 ==> rhatBig)
      decreases qhat
    {
      ProductOfDigits(v2, qhat);
      TrialDigitTest(qhat, rhat, v1, v2, u2, uj2);
      qhat, rhat := StepDown(qhat, rhat, v1);
      corrections := corrections + 1;
      if rhat >= B { rhatBig := true; }
    }
    ProductOfDigits(v2, qhat);
    TrialDigitTest(qhat, rhat, v1, v2, u2, uj2);
  }

  method DivideTwoByOne(nn: u32, v1: u32) returns (qhat: u32, rhat: u32)
    requires 0 < v1 < B && nn < v1 * B
    ensures v1 * qhat + rhat == nn && rhat < v1 && qhat < B
  {
    QuotientBelow(nn, v1, B);
    qhat, rhat := nn / v1, nn % v1;
  }

  /** The body of the D3 loop: no 32-bit operation wraps. */
  method StepDown(qhat: u32, rhat: u32, v1: u32) returns (q: u32, r: u32)
    requires 0 < qhat && rhat < B && v1 < B
    ensures q == qhat - 1 && r == rhat + v1
    ensures v1 * q + r == v1 * qhat + rhat
  {
    q := Sub32(qhat, 1);
    r := Add32(rhat, v1);
    assert v1 * q == v1 * qhat - v1;
  }

  lemma ProductOfDigits(x: int, y: int)
    requires 0 <= x < B && 0 <= y < B
    ensures 0 <= x * y <= (B - 1) * (B - 1)
  {
    ProductBelow(x, y, B, B);
  }

  lemma QuotientBelow(x: int, v: int, b: int)
    requires v > 0 && x >= 0 && x < v * b
    ensures 0 <= x / v < b
  {
    var c := x / v;
    assert c * v <= x;
    if c >= b { MulMono(b, c, v); }
  }

  /** The comparison in the D3 loop says exactly whether the trial digit is too large
      for the leading digits. */
  lemma TrialDigitTest(qhat: int, rhat: int, v1: int, v2: int, u2: int, uj2: int)
    requires v1 * qhat + rhat == u2
    ensures v2 * qhat > rhat * B + uj2 <==> qhat * (v1 * B + v2) > u2 * B + uj2
  {
    assert qhat * (v1 * B + v2) == (v1 * qhat) * B + v2 * qhat;
  }

  lemma TrialDigitTooSmallFails(qhat: int, rhat: int, v1: int, v2: int, u2: int, uj2: int)
    requires v1 * qhat + rhat == u2 && 0 <= rhat < v1 && v2 >= 0 && 0 <= uj2 < B && qhat >= 0
    ensures (qhat + 1) * (v1 * B + v2) > u2 * B + uj2
  {
    assert (qhat + 1) * (v1 * B + v2) == (v1 * qhat) * B + v1 * B + (qhat + 1) * v2;
    assert (qhat + 1) * v2 >= 0;
  }

  // ---------------------------------------------------------------- D4

  /** The borrow out of a digit, from the high half of the wrapped difference. */
  function BorrowOf(t: u32): u32 {
    (B - HHalf(t)) % B
  }

  lemma BorrowOfIsMask(t: u32)
    ensures BorrowOf(t) == And(B - HHalf(t), B - 1)
  {
    Pow2Values();
    AndMask(B - HHalf(t), 16);
  }

  /** The product of two digits, which fits in 32 bits. */
  function MulDigits(x: u32, y: u32): (r: u32)
    requires x < B && y < B
    ensures r <= (B - 1) * (B - 1)
  {
    MulDigitsExact(x, y);
    Times(x, y)
  }

  lemma MulDigitsExact(x: u32, y: u32)
    requires x < B && y < B
    ensures Times(x, y) == x * y == Mul32(x, y) && 0 <= Times(x, y) <= (B - 1) * (B - 1)
  {
    TimesIsProduct(x, y);
    ProductOfDigits(x, y);
  }

  /** One digit of the multiply-and-subtract: the new digit and the borrow out. */
  function SubtractDigit(ud: u32, product: u32, borrow: u32): (r: (u32, u32))
    requires ud < B && product <= (B - 1) * (B - 1) && borrow < B
    ensures r.0 < B && r.1 < B
    ensures r.0 - r.1 * B == ud - product - borrow
  {
    BorrowSplit(ud - product - borrow);
    SubtractTwice(ud, product, borrow);
    var t := Sub32(Sub32(ud, product), borrow);
    (LHalf(t), BorrowOf(t))
  }

  lemma SubtractTwice(x: int, y: int, z: int)
    ensures Sub32(Sub32(x, y), z) == (x - y - z) % W
  {
  }

  /** The low half of a wrapped difference and the complement of its high half are the
      base-B digit and borrow of the exact difference. */
  lemma BorrowSplit(x: int)
    requires -(B - 1) * B <= x < B
    ensures LHalf(x % W) - BorrowOf(x % W) * B == x
  {
    assert x % W == if x >= 0 then x else x + W;
  }

  /** What the loop of step D4 computes on the digits u, least significant first. */
  function SubtractDigits(u: seq<u32>, v: seq<u32>, qhat: u32, borrow: u32): (r: (seq<u32>, u32))
    requires |u| == |v| && AllDigits(u) && AllDigits(v) && qhat < B && borrow < B
    ensures |r.0| == |u| && AllDigits(r.0) && r.1 < B
  {
    if |u| == 0 then ([], borrow) else
    var k := |u| - 1;
    var (digit, t) := SubtractDigit(u[k], MulDigits(v[k], qhat), borrow);
    var (ds, out) := SubtractDigits(u[..k], v[..k], qhat, t);
    (ds + [digit], out)
  }

  lemma {:induction false} SubtractDigitsValue(u: seq<u32>, v: seq<u32>, qhat: u32, borrow: u32)
    requires |u| == |v| && AllDigits(u) && AllDigits(v) && qhat < B && borrow < B
    ensures var (ds, out) := SubtractDigits(u, v, qhat, borrow);
            Val(ds) - Times(out, PowB(|u|)) == Val(u) - Times(qhat, Val(v)) - borrow
  {
    if |u| == 0 {
      TimesIsProduct(borrow, PowB(0));
      TimesIsProduct(qhat, 0);
    } else {
      var k := |u| - 1;
      var (digit, t) := SubtractDigit(u[k], MulDigits(v[k], qhat), borrow);
      var (ds, out) := SubtractDigits(u[..k], v[..k], qhat, t);
      SubtractDigitsValue(u[..k], v[..k], qhat, t);
      ValAppend(ds, digit);
      assert SubtractDigits(u, v, qhat, borrow) == (ds + [digit], out);
      OneDigitDown(Val(ds + [digit]), Val(ds), digit, out, PowB(|u|), PowB(k), Val(u), Val(u[..k]), u[k],
                   qhat, Val(v), Val(v[..k]), v[k], t, borrow);
    }
  }

  lemma ValAppend(ds: seq<int>, d: int)
    ensures Val(ds + [d]) == Val(ds) * B + d
  {
    assert (ds + [d])[..|ds|] == ds;
  }

  lemma OneDigitDown(ds': int, ds: int, digit: nat, out: nat, p': int, p: int, u': int, u: int, ud: nat,
                     qhat: nat, v': int, v: int, vd: nat, t: nat, borrow: nat)
    requires ds' == ds * B + digit && p' == B * p && u' == u * B + ud && v' == v * B + vd
    requires ds - Times(out, p) == u - Times(qhat, v) - t && digit - t * B == ud - Times(vd, qhat) - borrow
    ensures ds' - Times(out, p') == u' - Times(qhat, v') - borrow
  {
    ScaleBorrow(out, p, qhat, v, vd);
  }

  lemma ScaleBorrow(out: nat, p: int, qhat: nat, x: int, d: nat)
    ensures Times(out, B * p) == B * Times(out, p)
    ensures Times(qhat, x * B + d) == B * Times(qhat, x) + Times(d, qhat)
  {
    TimesIsProduct(out, p);
    TimesIsProduct(out, B * p);
    TimesIsProduct(qhat, x);
    TimesIsProduct(qhat, x * B + d);
    TimesIsProduct(d, qhat);
    assert out * (B * p) == B * (out * p);
    assert qhat * (x * B + d) == B * (qhat * x) + d * qhat;
  }

  lemma SubtractDigitsPrefix(us: seq<u32>, vs: seq<u32>, qhat: u32, t: u32, i: nat, final: seq<u32>)
    requires i < |us| == |vs| == |final| && AllDigits(us) && AllDigits(vs) && qhat < B && t < B
    requires final[..i + 1] == SubtractDigits(us[..i + 1], vs[..i + 1], qhat, t).0
    ensures var (digit, t') := SubtractDigit(us[i], MulDigits(vs[i], qhat), t);
            && final[i] == digit
            && final[..i] == SubtractDigits(us[..i], vs[..i], qhat, t').0
            && SubtractDigits(us[..i + 1], vs[..i + 1], qhat, t).1 == SubtractDigits(us[..i], vs[..i], qhat, t').1
  {
    assert us[..i + 1][..i] == us[..i] && vs[..i + 1][..i] == vs[..i];
    assert final[..i] == final[..i + 1][..i] && final[i] == final[..i + 1][i];
  }

  /** The array u differs from its old contents w at most in the n entries from at. */
  ghost predicate OnlyChanged(w: seq<u32>, u: seq<u32>, at: nat, n: nat) {
    |u| == |w| && forall k :: 0 <= k < |u| && !(at <= k < at + n) ==> u[k] == w[k]
  }

  /** Of the n entries from at, those from i on are final, and the rest is as in w. */
  ghost predicate Finished(w: seq<u32>, u: seq<u32>, final: seq<u32>, at: nat, i: nat, n: nat) {
    && i <= n == |final| && at + n <= |u| && OnlyChanged(w, u, at + i, n - i)
    && forall k :: at + i <= k < at + n ==> u[k] == final[k - at]
  }

  lemma FinishOne(w: seq<u32>, u: seq<u32>, final: seq<u32>, at: nat, i: nat, n: nat)
    requires i < n && Finished(w, u, final, at, i + 1, n)
    ensures u[at + i] == w[at + i] && Finished(w, u[at + i := final[i]], final, at, i, n)
  {
  }

  lemma FinishedAll(w: seq<u32>, u: seq<u32>, final: seq<u32>, at: nat, n: nat)
    requires Finished(w, u, final, at, 0, n)
    ensures u[at..at + n] == final && OnlyChanged(w, u, at, n)
  {
  }

  /** Step D4, the loop, in place on the n digits at u[at..]. */
  method SubtractMultiple(u: array<u32>, at: nat, v: array<u32>, vat: nat, n: nat, qhat: u32) returns (t: u32)
    requires u != v && at + n <= u.Length && vat + n <= v.Length && qhat < B
    requires AllDigits(u[at..at + n]) && AllDigits(v[vat..vat + n])
    modifies u
    ensures u[at..at + n] == SubtractDigits(old(u[at..at + n]), v[vat..vat + n], qhat, 0).0
    ensures t == SubtractDigits(old(u[at..at + n]), v[vat..vat + n], qhat, 0).1
    ensures OnlyChanged(old(u[..]), u[..], at, n)
  {
    ghost var w, us, vs := u[..], u[at..at + n], v[vat..vat + n];
    ghost var final, now := SubtractDigits(us, vs, qhat, 0), w;
    assert us[..n] == us && vs[..n] == vs && final.0[..n] == final.0;
    t := 0;
    var i := n;
    while i > 0
      invariant 0 <= i <= n && t < B && u[..] == now && Finished(w, now, final.0, at, i, n)
      invariant final.0[..i] == SubtractDigits(us[..i], vs[..i], qhat, t).0
      invariant final.1 == SubtractDigits(us[..i], vs[..i], qhat, t).1
    {
      i := i - 1;
      SubtractDigitsPrefix(us, vs, qhat, t, i, final.0);
      FinishOne(w, now, final.0, at, i, n);
      assert now[at + i] == us[i] && v[vat + i] == vs[i];
      var r := SubtractDigit(u[at + i], MulDigits(v[vat + i], qhat), t);
      now := now[at + i := r.0];
      u[at + i] := r.0;
      t := r.1;
    }
    FinishedAll(w, now, final.0, at, n);
    assert u[at..at + n] == now[at..at + n];
  }

  /** Step D4 on n+1 digits: the digits left, and whether the subtraction borrowed. */
  function SubtractTop(u: seq<u32>, v: seq<u32>, qhat: u32): (r: (seq<u32>, bool))
    requires |u| == |v| + 1 && AllDigits(u) && AllDigits(v) && qhat < B
    ensures |r.0| == |u| && AllDigits(r.0)
  {
    var (ds, t) := SubtractDigits(u[1..], v, qhat, 0);
    var t' := Sub32(u[0], t);
    ([LHalf(t')] + ds, HHalf(t') != 0)
  }

  /** The digits left are the difference when it is not negative, and its complement
      when the subtraction borrowed. */
  lemma SubtractTopValue(u: seq<u32>, v: seq<u32>, qhat: u32)
    requires |u| == |v| + 1 && AllDigits(u) && AllDigits(v) && qhat < B
    ensures var (ds, borrowed) := SubtractTop(u, v, qhat);
            Val(ds) == Val(u) - Times(qhat, Val(v)) + (if borrowed then PowB(|u|) else 0)
  {
    var (low, t) := SubtractDigits(u[1..], v, qhat, 0);
    var (ds, borrowed) := SubtractTop(u, v, qhat);
    SubtractDigitsValue(u[1..], v, qhat, 0);
    ValPush(ds[0], low);
    ValPush(u[0], u[1..]);
    assert u == [u[0]] + u[1..];
    TopBorrow(u[0], t);
    TopDigit(ds[0], u[0], t, borrowed, PowB(|v|));
  }

  lemma TopBorrow(top: u32, t: u32)
    requires top < B && t < B
    ensures var t' := Sub32(top, t);
            LHalf(t') == top - t + (if HHalf(t') != 0 then B else 0)
  {
    assert Sub32(top, t) == if top >= t then top - t else top - t + W;
  }

  method MultiplySubtract(u: array<u32>, at: nat, v: array<u32>, vat: nat, n: nat, qhat: u32) returns (borrowed: bool)
    requires u != v && at + n < u.Length && vat + n <= v.Length && qhat < B
    requires AllDigits(u[at..at + n + 1]) && AllDigits(v[vat..vat + n])
    modifies u
    ensures OnlyChanged(old(u[..]), u[..], at, n + 1)
    ensures u[at..at + n + 1] == SubtractTop(old(u[at..at + n + 1]), v[vat..vat + n], qhat).0
    ensures borrowed == SubtractTop(old(u[at..at + n + 1]), v[vat..vat + n], qhat).1
  {
    ghost var us := u[at..at + n + 1];
    assert us[1..] == u[at + 1..at + 1 + n];
    var t := SubtractMultiple(u, at + 1, v, vat, n, qhat);
    assert u[at] == u[..][at] == us[0];
    ghost var low := u[at + 1..at + 1 + n];
    var t' := Sub32(u[at], t);
    u[at] := LHalf(t');
    borrowed := HHalf(t') != 0;
    assert u[at..at + n + 1] == [LHalf(t')] + low;
  }

  /** A difference of digits, borrowing if it has to, scaled by their place value. */
  lemma TopDigit(d: nat, top: nat, t: nat, borrowed: bool, p: nat)
    requires d == top - t + (if borrowed then B else 0)
    ensures Times(d, p) == Times(top, p) - Times(t, p) + (if borrowed then B * p else 0)
  {
    TimesIsProduct(d, p);
    TimesIsProduct(top, p);
    TimesIsProduct(t, p);
    if borrowed { assert (top - t + B) * p == top * p - t * p + B * p; }
    else { assert (top - t) * p == top * p - t * p; }
  }

  // ---------------------------------------------------------------- D6

  /** One digit of the addition: the new digit and the carry out. */
  function AddDigit(ud: u32, vd: u32, carry: u32): (r: (u32, u32))
    requires ud < B && vd < B && carry <= 1
    ensures r.0 < B && r.1 <= 1 && r.0 + r.1 * B == ud + vd + carry
  {
    var t := Add32(carry, Add32(ud, vd));
    assert t == carry + ud + vd;
    (LHalf(t), HHalf(t))
  }

  /** What the loop of step D6 computes on the digits u, least significant first. */
  function AddDigits(u: seq<u32>, v: seq<u32>, carry: u32): (r: (seq<u32>, u32))
    requires |u| == |v| && AllDigits(u) && AllDigits(v) && carry <= 1
    ensures |r.0| == |u| && AllDigits(r.0) && r.1 <= 1
  {
    if |u| == 0 then ([], carry) else
    var k := |u| - 1;
    var (digit, t) := AddDigit(u[k], v[k], carry);
    var (ds, out) := AddDigits(u[..k], v[..k], t);
    (ds + [digit], out)
  }

  lemma {:induction false} AddDigitsValue(u: seq<u32>, v: seq<u32>, carry: u32)
    requires |u| == |v| && AllDigits(u) && AllDigits(v) && carry <= 1
    ensures var (ds, out) := AddDigits(u, v, carry);
            Val(ds) + Times(out, PowB(|u|)) == Val(u) + Val(v) + carry
  {
    if |u| == 0 {
    } else {
      var k := |u| - 1;
      var (digit, t) := AddDigit(u[k], v[k], carry);
      var (ds, out) := AddDigits(u[..k], v[..k], t);
      AddDigitsValue(u[..k], v[..k], t);
      ValAppend(ds, digit);
      assert AddDigits(u, v, carry) == (ds + [digit], out);
      ScaleBorrow(out, PowB(k), 0, 0, 0);
    }
  }

  lemma AddDigitsPrefix(us: seq<u32>, vs: seq<u32>, t: u32, i: nat, final: seq<u32>)
    requires i < |us| == |vs| == |final| && AllDigits(us) && AllDigits(vs) && t <= 1
    requires final[..i + 1] == AddDigits(us[..i + 1], vs[..i + 1], t).0
    ensures var (digit, t') := AddDigit(us[i], vs[i], t);
            && final[i] == digit
            && final[..i] == AddDigits(us[..i], vs[..i], t').0
            && AddDigits(us[..i + 1], vs[..i + 1], t).1 == AddDigits(us[..i], vs[..i], t').1
  {
    assert us[..i + 1][..i] == us[..i] && vs[..i + 1][..i] == vs[..i];
    assert final[..i] == final[..i + 1][..i] && final[i] == final[..i + 1][i];
  }

  /** Step D6, the loop, in place on the n digits at u[at..]. */
  method AddDivisor(u: array<u32>, at: nat, v: array<u32>, vat: nat, n: nat) returns (t: u32)
    requires u != v && at + n <= u.Length && vat + n <= v.Length
    requires AllDigits(u[at..at + n]) && AllDigits(v[vat..vat + n])
    modifies u
    ensures u[at..at + n] == AddDigits(old(u[at..at + n]), v[vat..vat + n], 0).0
    ensures t == AddDigits(old(u[at..at + n]), v[vat..vat + n], 0).1
    ensures OnlyChanged(old(u[..]), u[..], at, n)
  {
    ghost var w, us, vs := u[..], u[at..at + n], v[vat..vat + n];
    ghost var final, now := AddDigits(us, vs, 0), w;
    assert us[..n] == us && vs[..n] == vs && final.0[..n] == final.0;
    t := 0;
    var i := n;
    while i > 0
      invariant 0 <= i <= n && t <= 1 && u[..] == now && Finished(w, now, final.0, at, i, n)
      invariant final.0[..i] == AddDigits(us[..i], vs[..i], t).0
      invariant final.1 == AddDigits(us[..i], vs[..i], t).1
    {
      i := i - 1;
      AddDigitsPrefix(us, vs, t, i, final.0);
      FinishOne(w, now, final.0, at, i, n);
      assert now[at + i] == us[i] && v[vat + i] == vs[i];
      var r := AddDigit(u[at + i], v[vat + i], t);
      now := now[at + i := r.0];
      u[at + i] := r.0;
      t := r.1;
    }
    FinishedAll(w, now, final.0, at, n);
    assert u[at..at + n] == now[at..at + n];
  }

  /** Step D6 on n+1 digits: the carry out of the top digit is dropped. */
  function AddTop(u: seq<u32>, v: seq<u32>): (r: seq<u32>)
    requires |u| == |v| + 1 && AllDigits(u) && AllDigits(v)
    ensures |r| == |u| && AllDigits(r)
  {
    var (ds, t) := AddDigits(u[1..], v, 0);
    [LHalf(Add32(u[0], t))] + ds
  }

  lemma AddTopValue(u: seq<u32>, v: seq<u32>)
    requires |u| == |v| + 1 && AllDigits(u) && AllDigits(v)
    ensures var sum := Val(u) + Val(v);
            Val(AddTop(u, v)) == if sum < PowB(|u|) then sum else sum - PowB(|u|)
  {
    var ds := AddTop(u, v);
    var carry := AddTopCarry(u, v);
    ValBound(ds);
  }

  /** The carry that is dropped. */
  lemma AddTopCarry(u: seq<u32>, v: seq<u32>) returns (carry: bool)
    requires |u| == |v| + 1 && AllDigits(u) && AllDigits(v)
    ensures Val(u) + Val(v) == Val(AddTop(u, v)) + (if carry then PowB(|u|) else 0)
  {
    var (low, t) := AddDigits(u[1..], v, 0);
    var top := LHalf(Add32(u[0], t));
    AddDigitsValue(u[1..], v, 0);
    ValPush(top, low);
    ValPush(u[0], u[1..]);
    assert u == [u[0]] + u[1..];
    TopCarry(u[0], t);
    carry := u[0] + t >= B;
    TopDigit(u[0], top, t, carry, PowB(|v|));
  }

  lemma TopCarry(top: u32, t: u32)
    requires top < B && t <= 1
    ensures LHalf(Add32(top, t)) == top + t - (if top + t >= B then B else 0)
  {
  }

  method AddBack(u: array<u32>, at: nat, v: array<u32>, vat: nat, n: nat)
    requires u != v && at + n < u.Length && vat + n <= v.Length
    requires AllDigits(u[at..at + n + 1]) && AllDigits(v[vat..vat + n])
    modifies u
    ensures OnlyChanged(old(u[..]), u[..], at, n + 1)
    ensures u[at..at + n + 1] == AddTop(old(u[at..at + n + 1]), v[vat..vat + n])
  {
    ghost var us := u[at..at + n + 1];
    assert us[1..] == u[at + 1..at + 1 + n];
    var t := AddDivisor(u, at + 1, v, vat, n);
    assert u[at] == u[..][at] == us[0];
    ghost var low := u[at + 1..at + 1 + n];
    u[at] := LHalf(Add32(u[at], t));
    assert u[at..at + n + 1] == [LHalf(Add32(us[0], t))] + low;
  }

  // ---------------------------------------------------------------- one quotient digit

  /** Steps D5 and D6: on a borrow, lower the digit and add the divisor back. */
  function CorrectDigit(ds: seq<u32>, borrowed: bool, v: seq<u32>, qhat: u32): (r: (seq<u32>, u32))
    requires |ds| == |v| + 1 && AllDigits(ds) && AllDigits(v)
    ensures |r.0| == |ds| && AllDigits(r.0)
  {
    if borrowed then (AddTop(ds, v), Sub32(qhat, 1)) else (ds, qhat)
  }

  /** Steps D4 to D6 on n+1 digits u: the digits left and the corrected quotient digit. */
  function ReduceDigit(u: seq<u32>, v: seq<u32>, qhat: u32): (r: (seq<u32>, u32))
    requires |u| == |v| + 1 && AllDigits(u) && AllDigits(v) && qhat < B
    ensures |r.0| == |u| && AllDigits(r.0)
  {
    var (ds, borrowed) := SubtractTop(u, v, qhat);
    CorrectDigit(ds, borrowed, v, qhat)
  }

  lemma CorrectDigitIs(u: int, ds: seq<u32>, borrowed: bool, v: seq<u32>, qhat: u32, q: nat)
    requires |ds| == |v| + 1 && AllDigits(ds) && AllDigits(v) && qhat < B
    requires q <= qhat <= q + 1 && 0 <= u - Times(q, Val(v)) < Val(v)
    requires Val(ds) == u - Times(qhat, Val(v)) + (if borrowed then PowB(|ds|) else 0)
    ensures borrowed <==> qhat == q + 1
    ensures u - Times(q, Val(v)) == if borrowed then Val(ds) + Val(v) - PowB(|ds|) else Val(ds)
  {
    ValBound(ds);
    ValBound(v);
    PowBMono(|v|, |ds|);
    BorrowTells(u, Val(v), qhat, q, Val(ds), borrowed, PowB(|ds|));
  }

  lemma CorrectDigitValue(ds: seq<u32>, borrowed: bool, v: seq<u32>, qhat: u32, r: int)
    requires |ds| == |v| + 1 && AllDigits(ds) && AllDigits(v) && r >= 0
    requires r == if borrowed then Val(ds) + Val(v) - PowB(|ds|) else Val(ds)
    requires borrowed ==> qhat > 0
    ensures Val(CorrectDigit(ds, borrowed, v, qhat).0) == r
    ensures CorrectDigit(ds, borrowed, v, qhat).1 == if borrowed then qhat - 1 else qhat
  {
    if borrowed { AddTopValue(ds, v); }
  }

  /** If the trial digit is the true quotient digit or one more, the borrow of step D4
      tells which, and one add-back leaves the remainder. */
  lemma ReduceDigitExact(u: seq<u32>, v: seq<u32>, qhat: u32, q: int)
    requires |u| == |v| + 1 && AllDigits(u) && AllDigits(v) && qhat < B
    requires 0 <= q <= qhat <= q + 1 && 0 <= Val(u) - Times(q, Val(v)) < Val(v)
    ensures SubtractTop(u, v, qhat).1 <==> qhat == q + 1
    ensures ReduceDigit(u, v, qhat).1 == q
    ensures Val(ReduceDigit(u, v, qhat).0) == Val(u) - Times(q, Val(v))
  {
    var (ds, borrowed) := SubtractTop(u, v, qhat);
    SubtractTopValue(u, v, qhat);
    CorrectDigitIs(Val(u), ds, borrowed, v, qhat, q);
    CorrectDigitValue(ds, borrowed, v, qhat, Val(u) - Times(q, Val(v)));
    assert ReduceDigit(u, v, qhat) == CorrectDigit(ds, borrowed, v, qhat);
  }

  lemma BorrowTells(u: int, v: int, qhat: nat, q: nat, x: int, borrowed: bool, p: int)
    requires q <= qhat <= q + 1 && 0 <= u - Times(q, v) < v <= p && 0 <= x < p
    requires x == u - Times(qhat, v) + (if borrowed then p else 0)
    ensures borrowed <==> qhat == q + 1
    ensures u - Times(q, v) == if borrowed then x + v - p else x
  {
    assert Times(q + 1, v) == Times(q, v) + v;
  }

  lemma LeadingTwo(s: seq<int>)
    requires |s| >= 2
    ensures Val(s) == (s[0] * B + s[1]) * PowB(|s| - 2) + Val(s[2..])
  {
    assert s == s[..2] + s[2..];
    ValConcat(s[..2], s[2..]);
    assert s[..2][..1] == [s[0]];
    assert Val([s[0]]) == Val([]) * B + s[0];
  }

  lemma LeadingThree(s: seq<int>)
    requires |s| >= 3
    ensures Val(s) == ((s[0] * B + s[1]) * B + s[2]) * PowB(|s| - 3) + Val(s[3..])
  {
    assert s == s[..3] + s[3..];
    ValConcat(s[..3], s[3..]);
    assert s[..3][..2] == s[..2];
    LeadingTwo(s[..2]);
    assert s[..2][2..] == [];
  }

  ghost predicate Normalised(v: seq<int>) {
    |v| >= 2 && AllDigits(v) && v[0] >= B / 2
  }

  /** qhat is the quotient of the three leading digits of u by the two of v, at most B-1. */
  ghost predicate IsTrialDigit(u: seq<int>, v: seq<int>, qhat: int)
    requires |u| >= 3 && |v| >= 2
  {
    var u3, v2 := (u[0] * B + u[1]) * B + u[2], v[0] * B + v[1];
    0 <= qhat < B && qhat * v2 <= u3 && ((qhat + 1) * v2 > u3 || qhat == B - 1)
  }

  lemma LeadingDigitBound(u: seq<u32>, v: seq<u32>)
    requires |u| == |v| + 1 && AllDigits(u) && Normalised(v) && Val(u[..|v|]) < Val(v)
    ensures u[0] <= v[0] && 0 <= Val(u) < B * Val(v)
  {
    ValBound(u[..|v|]);
    assert u[..|u| - 1] == u[..|v|];
    LeadingDigitOrder(u[..|v|], v);
  }

  lemma LeadingDigitOrder(a: seq<int>, b: seq<int>)
    requires |a| == |b| > 0 && AllDigits(a) && AllDigits(b) && Val(a) < Val(b)
    ensures a[0] <= b[0]
  {
    assert a == [a[0]] + a[1..] && b == [b[0]] + b[1..];
    ValPrepend(a[0], a[1..]);
    ValPrepend(b[0], b[1..]);
    ValBound(a[1..]);
    ValBound(b[1..]);
    CompareLeading(a[0], b[0], PowB(|b| - 1), Val(a[1..]), Val(b[1..]));
  }

  lemma CompareLeading(a: int, b: int, p: int, ra: int, rb: int)
    requires p > 0 && 0 <= ra && rb < p && a * p + ra < b * p + rb
    ensures a <= b
  {
    if a > b { MulMono(b + 1, a, p); }
  }

  /** The trial digit is the true quotient digit of u by v, or one more. */
  lemma TrialDigitClose(u: seq<u32>, v: seq<u32>, qhat: u32) returns (q: int)
    requires |u| == |v| + 1 && AllDigits(u) && Normalised(v) && Val(u[..|v|]) < Val(v)
    requires IsTrialDigit(u, v, qhat)
    ensures 0 <= q <= qhat <= q + 1 && 0 <= Val(u) - Times(q, Val(v)) < Val(v)
  {
    LeadingDigitBound(u, v);
    LeadingThree(u);
    LeadingTwo(v);
    ValBound(u[3..]);
    ValBound(v[2..]);
    q := EuclideanDigit(Val(u), Val(v));
    TimesIsProduct(q, Val(v));
    TrialDigitIsCloseAbove(B, PowB(|v| - 2), (u[0] * B + u[1]) * B + u[2], Val(u[3..]),
                           v[0] * B + v[1], Val(v[2..]), qhat, q);
  }

  lemma EuclideanDigit(x: int, v: int) returns (q: int)
    requires 0 <= x < B * v
    ensures 0 <= q < B && q * v <= x < (q + 1) * v && 0 <= x - q * v < v
  {
    QuotientBelow(x, v, B);
    q := x / v;
    assert q * v == v * (x / v);
    assert (q + 1) * v == q * v + v;
  }

  /** Steps D3 to D6: one quotient digit q, leaving the remainder of those n+1 digits. */
  ghost predicate DigitDivided(us: seq<int>, us': seq<int>, vs: seq<int>, q: int) {
    && 0 <= q < B && |us'| == |us| && AllDigits(us')
    && Val(us') == Val(us) - Times(q, Val(vs))
    && 0 <= Val(us') < Val(vs)
  }

  method QuotientDigit(u: array<u32>, at: nat, v: array<u32>, vat: nat, n: nat) returns (qhat: u32)
    requires u != v && n >= 2 && at + n < u.Length && vat + n <= v.Length
    requires AllDigits(u[at..at + n + 1]) && Normalised(v[vat..vat + n])
    requires Val(u[at..at + n]) < Val(v[vat..vat + n])
    modifies u
    ensures OnlyChanged(old(u[..]), u[..], at, n + 1)
    ensures DigitDivided(old(u[at..at + n + 1]), u[at..at + n + 1], v[vat..vat + n], qhat)
  {
    ghost var us, vs := u[at..at + n + 1], v[vat..vat + n];
    assert us[..n] == u[at..at + n];
    qhat := TrialDigit(u, at, v, vat, us, vs);
    EstimateExact(us, vs, qhat);
    var borrowed := MultiplySubtract(u, at, v, vat, n, qhat);
    if borrowed {
      qhat := Sub32(qhat, 1);
      AddBack(u, at, v, vat, n);
    }
  }

  /** Step D3 on the leading digits. */
  method TrialDigit(u: array<u32>, at: nat, v: array<u32>, vat: nat, ghost us: seq<u32>, ghost vs: seq<u32>) returns (qhat: u32)
    requires |us| == |vs| + 1 && at + |us| <= u.Length && vat + |vs| <= v.Length && us == u[at..at + |us|] && vs == v[vat..vat + |vs|]
    requires AllDigits(us) && Normalised(vs) && Val(us[..|vs|]) < Val(vs)
    ensures IsTrialDigit(us, vs, qhat)
  {
    LeadingDigitBound(us, vs);
    assert u[at] == us[0] && u[at + 1] == us[1] && u[at + 2] == us[2] && v[vat] == vs[0] && v[vat + 1] == vs[1];
    ghost var corrections;
    qhat, corrections := EstimateDigit(u[at], u[at + 1], u[at + 2], v[vat], v[vat + 1]);
  }

  lemma EstimateExact(us: seq<u32>, vs: seq<u32>, qhat: u32)
    requires |us| == |vs| + 1 && AllDigits(us) && Normalised(vs) && Val(us[..|vs|]) < Val(vs)
    requires IsTrialDigit(us, vs, qhat)
    ensures DigitDivided(us, ReduceDigit(us, vs, qhat).0, vs, ReduceDigit(us, vs, qhat).1)
  {
    var q := TrialDigitClose(us, vs, qhat);
    ReduceDigitExact(us, vs, qhat, q);
  }

  // ---------------------------------------------------------------- D7

  /** What is left of the dividend u0 once the quotient digits worth qv are known and
      k more are to come. */
  ghost predicate Balance(u0: int, qv: int, vv: int, k: nat, left: int) {
    qv >= 0 && u0 == Times(PowB(k), Times(qv, vv)) + left
  }

  lemma BalanceStep(u0: int, qv: int, vv: int, k: nat, left: int, qd: nat, left': int)
    requires Balance(u0, qv, vv, k + 1, left) && left' == left - Times(PowB(k), Times(qd, vv))
    ensures Balance(u0, qv * B + qd, vv, k, left')
  {
    BalanceTerm(qv, vv, PowB(k + 1));
    BalanceTerm(qv * B + qd, vv, PowB(k));
    BalanceTerm(qd, vv, PowB(k));
    BalanceAlgebra(qv, qd, vv, PowB(k));
  }

  lemma BalanceTerm(qv: nat, vv: int, p: nat)
    ensures Times(p, Times(qv, vv)) == p * (qv * vv)
  {
    TimesIsProduct(qv, vv);
    TimesIsProduct(p, qv * vv);
  }

  lemma BalanceAlgebra(qv: int, qd: int, vv: int, p: int)
    ensures p * ((qv * B + qd) * vv) == (B * p) * (qv * vv) + p * (qd * vv)
  {
    var x, y := qv * vv, qd * vv;
    assert (qv * B + qd) * vv == B * x + y;
    assert p * (B * x + y) == (B * p) * x + p * y;
  }

  lemma BalanceStart(u0: int, vv: int, k: nat)
    ensures Balance(u0, 0, vv, k, u0)
  {
    BalanceTerm(0, vv, PowB(k));
  }

  lemma BalanceEnd(u0: int, qv: int, vv: int, left: int)
    requires Balance(u0, qv, vv, 0, left)
    ensures u0 == Times(qv, vv) + left
  {
    TimesIsProduct(1, Times(qv, vv));
  }

  /** Lowering n digits at position j lowers the value by the difference, scaled. */
  lemma ReplaceDigits(us: seq<u32>, us': seq<u32>, j: nat, n: nat, k: nat, delta: nat)
    requires |us| == j + n + k && OnlyChanged(us, us', j, n)
    requires Val(us'[j..j + n]) == Val(us[j..j + n]) - delta
    ensures Val(us') == Val(us) - Times(PowB(k), delta)
  {
    var mid, mid', pre, suf := us[j..j + n], us'[j..j + n], us[..j], us[j + n..];
    ThreeParts(us, us', j, n);
    ConcatThree(pre, mid, suf);
    ConcatThree(pre, mid', suf);
    LowerMiddle(Val(us), Val(us'), Val(pre) * PowB(n + k), Val(mid), Val(mid'), PowB(k), Val(suf), delta);
  }

  lemma ThreeParts(us: seq<u32>, us': seq<u32>, j: nat, n: nat)
    requires j + n <= |us| && OnlyChanged(us, us', j, n)
    ensures us == (us[..j] + us[j..j + n]) + us[j + n..] && us' == (us[..j] + us'[j..j + n]) + us[j + n..]
  {
  }

  lemma LowerMiddle(x: int, x': int, a: int, m: int, m': int, p: nat, s: int, delta: int)
    requires x == a + m * p + s && x' == a + m' * p + s && m' == m - delta
    ensures x' == x - Times(p, delta)
  {
    TimesIsProduct(p, delta);
    MulMinus(m, delta, p);
  }

  lemma ConcatThree(a: seq<int>, b: seq<int>, c: seq<int>)
    ensures Val((a + b) + c) == Val(a) * PowB(|b| + |c|) + Val(b) * PowB(|c|) + Val(c)
  {
    ValConcat(a, b + c);
    ValConcat(b, c);
    assert (a + b) + c == a + (b + c);
  }

  lemma MulMinus(x: int, y: int, p: int)
    ensures (x - y) * p == x * p - y * p
  {
  }

  /** A value below that of vs fits in |vs| digits, so the digit above them is zero. */
  lemma RemainderFits(s: seq<int>, vs: seq<int>)
    requires |s| == |vs| + 1 && AllDigits(s) && AllDigits(vs) && Val(s) < Val(vs)
    ensures s[0] == 0 && Val(s[1..]) == Val(s)
  {
    ValBound(vs);
    SmallHasLeadingZeros(s, |vs|);
    assert s == [s[0]] + s[1..];
    ValPush(s[0], s[1..]);
  }

  /** State of the division before quotient digit j: us is what is left of the dividend
      u0, qs the quotient digits so far. */
  ghost predicate Dividing(u0: int, us: seq<int>, qs: seq<int>, vs: seq<int>, j: nat, m: nat) {
    && |us| == m + |vs| + 1 && j <= m + 1 && |qs| == j && AllDigits(us) && AllDigits(qs)
    && (forall k :: 0 <= k < j ==> us[k] == 0)
    && Val(us[j..j + |vs|]) < Val(vs)
    && Balance(u0, Val(qs), Val(vs), m + 1 - j, Val(us))
  }

  lemma DividingStep(u0: int, us: seq<u32>, us': seq<u32>, mid: seq<u32>, mid': seq<u32>, qs: seq<u32>, qd: u32, vs: seq<u32>, j: nat, m: nat)
    requires Normalised(vs) && Dividing(u0, us, qs, vs, j, m) && j <= m
    requires OnlyChanged(us, us', j, |vs| + 1) && mid == us[j..j + |vs| + 1] && mid' == us'[j..j + |vs| + 1]
    requires DigitDivided(mid, mid', vs, qd)
    ensures Dividing(u0, us', qs + [qd], vs, j + 1, m)
  {
    var n := |vs|;
    RemainderFits(mid', vs);
    assert mid'[1..] == us'[j + 1..j + 1 + n];
    ReplacedDigits(us, us', j, n + 1);
    ValBound(vs);
    DividingBalance(u0, us, us', qs, qd, vs, j, n + 1, m - j);
  }

  lemma DividingBalance(u0: int, us: seq<u32>, us': seq<u32>, qs: seq<u32>, qd: u32, vs: seq<u32>, j: nat, n: nat, k: nat)
    requires |us| == j + n + k && OnlyChanged(us, us', j, n)
    requires Val(us'[j..j + n]) == Val(us[j..j + n]) - Times(qd, Val(vs))
    requires Val(vs) >= 0 && Balance(u0, Val(qs), Val(vs), k + 1, Val(us))
    ensures Balance(u0, Val(qs + [qd]), Val(vs), k, Val(us'))
  {
    TimesNonNegative(qd, Val(vs));
    ReplaceDigits(us, us', j, n, k, Times(qd, Val(vs)));
    AppendDigit(qs, qd);
    BalanceStep(u0, Val(qs), Val(vs), k, Val(us), qd, Val(us'));
  }

  lemma AppendDigit(qs: seq<int>, qd: int)
    ensures Val(qs + [qd]) == Val(qs) * B + qd
  {
    assert (qs + [qd])[..|qs|] == qs;
  }

  lemma ReplacedDigits(us: seq<u32>, us': seq<u32>, j: nat, k: nat)
    requires j + k <= |us| && k > 0 && OnlyChanged(us, us', j, k) && AllDigits(us) && AllDigits(us'[j..j + k])
    ensures AllDigits(us') && us'[j] == us'[j..j + k][0]
  {
    forall i | 0 <= i < |us'| ensures 0 <= us'[i] < B {
      if j <= i < j + k { assert us'[i] == us'[j..j + k][i - j]; }
    }
  }

  lemma DividingDone(u0: int, us: seq<int>, qs: seq<int>, vs: seq<int>, m: nat)
    requires Dividing(u0, us, qs, vs, m + 1, m)
    ensures u0 == Times(Val(qs), Val(vs)) + Val(us) && Val(us) < Val(vs)
  {
    LeadingZerosValue(us, m + 1);
    BalanceEnd(u0, Val(qs), Val(vs), Val(us));
    assert us[m + 1..] == us[m + 1..m + 1 + |vs|];
  }

  lemma LeadingZerosValue(s: seq<int>, k: nat)
    requires k <= |s| && forall i :: 0 <= i < k ==> s[i] == 0
    ensures Val(s) == Val(s[k..])
  {
    assert s == s[..k] + s[k..];
    ValConcat(s[..k], s[k..]);
    ValZeros(s[..k]);
  }

  /** Steps D2 to D7: divide the m+n+1 digits at u[at..] by the n normalised digits at
      v[vat..], leaving the quotient at q[qat..] and the remainder in u. */
  method LongDivision(u: array<u32>, at: nat, v: array<u32>, vat: nat, q: array<u32>, qat: nat, m: nat, n: nat)
    requires u != v && u != q && v != q
    requires at + m + n + 1 <= u.Length && vat + n <= v.Length && qat + m + 1 <= q.Length
    requires AllDigits(u[at..at + m + n + 1]) && Normalised(v[vat..vat + n])
    requires Val(u[at..at + n]) < Val(v[vat..vat + n])
    modifies u, q
    ensures OnlyChanged(old(u[..]), u[..], at, m + n + 1) && OnlyChanged(old(q[..]), q[..], qat, m + 1)
    ensures AllDigits(u[at..at + m + n + 1]) && AllDigits(q[qat..qat + m + 1])
    ensures Val(u[at..at + m + n + 1]) < Val(v[vat..vat + n])
    ensures old(Val(u[at..at + m + n + 1]))
            == Times(Val(q[qat..qat + m + 1]), Val(v[vat..vat + n])) + Val(u[at..at + m + n + 1])
  {
    SubSlice(u[..], at, m + n + 1, 0, n);
    DividingStart(u[at..at + m + n + 1], v[vat..vat + n], m);
    ghost var u0 := Val(u[at..at + m + n + 1]);
    DivideAll(u, at, v, vat, q, qat, m, n, u0);
    DividingDone(u0, u[at..at + m + n + 1], q[qat..qat + m + 1], v[vat..vat + n], m);
  }

  lemma DividingStart(us: seq<u32>, vs: seq<u32>, m: nat)
    requires |us| == m + |vs| + 1 && AllDigits(us) && Val(us[0..0 + |vs|]) < Val(vs)
    ensures Dividing(Val(us), us, [], vs, 0, m)
  {
    BalanceStart(Val(us), Val(vs), m + 1);
  }

  method DivideAll(u: array<u32>, at: nat, v: array<u32>, vat: nat, q: array<u32>, qat: nat, m: nat, n: nat, ghost u0: int)
    requires u != v && u != q && v != q
    requires at + m + n + 1 <= u.Length && vat + n <= v.Length && qat + m + 1 <= q.Length
    requires Normalised(v[vat..vat + n])
    requires Dividing(u0, u[at..at + m + n + 1], [], v[vat..vat + n], 0, m)
    modifies u, q
    ensures OnlyChanged(old(u[..]), u[..], at, m + n + 1) && OnlyChanged(old(q[..]), q[..], qat, m + 1)
    ensures Dividing(u0, u[at..at + m + n + 1], q[qat..qat + m + 1], v[vat..vat + n], m + 1, m)
  {
    assert q[qat..qat + 0] == [];
    var j := 0;
    while j <= m
      invariant 0 <= j <= m + 1
      invariant v[..] == old(v[..])
      invariant OnlyChanged(old(u[..]), u[..], at, m + n + 1) && OnlyChanged(old(q[..]), q[..], qat, j)
      invariant Dividing(u0, u[at..at + m + n + 1], q[qat..qat + j], v[vat..vat + n], j, m)
    {
      ghost var qs := q[qat..qat + j];
      q[qat + j] := DivideAt(u, at, v, vat, m, n, j, u0, qs);
      assert q[qat..qat + j + 1] == qs + [q[qat + j]];
      j := j + 1;
    }
  }

  lemma SubSlice(s: seq<u32>, at: nat, len: nat, j: nat, k: nat)
    requires at + len <= |s| && j + k <= len
    ensures s[at..at + len][j..j + k] == s[at + j..at + j + k]
  {
    var a, b := s[at..at + len][j..j + k], s[at + j..at + j + k];
    assert |a| == |b| && forall i :: 0 <= i < k ==> a[i] == b[i];
    assert a == b;
  }

  lemma OnlyChangedSlice(w: seq<u32>, u: seq<u32>, at: nat, len: nat, j: nat, k: nat)
    requires at + len <= |w| && OnlyChanged(w, u, at + j, k)
    ensures OnlyChanged(w[at..at + len], u[at..at + len], j, k)
  {
  }

  method DivideAt(u: array<u32>, at: nat, v: array<u32>, vat: nat, m: nat, n: nat, j: nat, ghost u0: int, ghost qs: seq<u32>)
    returns (qd: u32)
    requires u != v && j <= m && at + m + n + 1 <= u.Length && vat + n <= v.Length
    requires Normalised(v[vat..vat + n])
    requires Dividing(u0, u[at..at + m + n + 1], qs, v[vat..vat + n], j, m)
    modifies u
    ensures OnlyChanged(old(u[..]), u[..], at + j, n + 1)
    ensures Dividing(u0, u[at..at + m + n + 1], qs + [qd], v[vat..vat + n], j + 1, m)
  {
    SubSlice(u[..], at, m + n + 1, j, n + 1);
    SubSlice(u[..], at, m + n + 1, j, n);
    assert AllDigits(u[at..at + m + n + 1][j..j + n + 1]);
    qd := QuotientDigit(u, at + j, v, vat, n);
    DividingStepAt(u0, old(u[..]), u[..], at, qs, qd, v[vat..vat + n], j, m, n);
  }

  lemma DividingStepAt(u0: int, w: seq<u32>, u: seq<u32>, at: nat, qs: seq<u32>, qd: u32, vs: seq<u32>, j: nat, m: nat, n: nat)
    requires at + m + n + 1 <= |w| && j <= m && |vs| == n && Normalised(vs)
    requires Dividing(u0, w[at..at + m + n + 1], qs, vs, j, m)
    requires OnlyChanged(w, u, at + j, n + 1)
    requires DigitDivided(w[at + j..at + j + n + 1], u[at + j..at + j + n + 1], vs, qd)
    ensures Dividing(u0, u[at..at + m + n + 1], qs + [qd], vs, j + 1, m)
  {
    SubSlice(w, at, m + n + 1, j, n + 1);
    SubSlice(u, at, m + n + 1, j, n + 1);
    OnlyChangedSlice(w, u, at, m + n + 1, j, n + 1);
    DividingStep(u0, w[at..at + m + n + 1], u[at..at + m + n + 1], w[at + j..at + j + n + 1], u[at + j..at + j + n + 1],
                 qs, qd, vs, j, m);
  }

  // ---------------------------------------------------------------- shifting digit strings

  /** Low half of hi shifted left by sh, with the bits of the next digit shifted in. */
  function ShiftJoin(hi: u32, lo: u32, sh: nat): (r: u32)
    requires hi < B && lo < B && 0 < sh < 16
    ensures r < B
  {
    JoinFits(hi, lo, sh);
    (hi * Pow2(sh)) % B + Shr(lo, 16 - sh)
  }

  lemma JoinFits(hi: int, lo: int, sh: nat)
    requires 0 <= hi < B && 0 <= lo < B && 0 < sh < 16
    ensures hi * Pow2(sh) == Shr(hi, 16 - sh) * B + (hi * Pow2(sh)) % B
    ensures (hi * Pow2(sh)) % B % Pow2(sh) == 0 && Shr(lo, 16 - sh) < Pow2(sh)
    ensures 0 <= (hi * Pow2(sh)) % B + Shr(lo, 16 - sh) < B
  {
    Pow2Values();
    Pow2Add(sh, 16 - sh);
    ShiftSplit(hi, Pow2(sh), Pow2(16 - sh));
    ShiftedBelow(lo, Pow2(sh), Pow2(16 - sh));
  }

  lemma ShiftedBelow(x: int, p: int, h: int)
    requires 0 <= x < B && p > 0 && h > 0 && p * h == B
    ensures 0 <= x / h < p
  {
    assert h * p == B;
    QuotientBelow(x, h, p);
  }

  lemma ShiftSplit(x: int, p: int, h: int)
    requires x >= 0 && p > 0 && h > 0 && p * h == B
    ensures x * p == (x / h) * B + (x * p) % B
    ensures ((x * p) % B) % p == 0 && 0 <= (x * p) % B <= B - p
  {
    var c, r := x / h, x % h;
    ScaleQuotient(x, c, r, p, h);
    MulMono(0, r, p);
    MulMono(r, h - 1, p);
    assert (h - 1) * p == B - p by { assert (h - 1) * p == p * h - p; }
    DivModUnique(x * p, B, c, r * p);
    MultipleMod(r, p);
  }

  lemma ScaleQuotient(x: int, c: int, r: int, p: int, h: int)
    requires x == h * c + r && p * h == B
    ensures x * p == B * c + r * p
  {
    assert (h * c + r) * p == (p * h) * c + r * p;
  }

  /** ShiftJoin is the shift-mask-or of the source. */
  lemma ShiftJoinIsBitwise(hi: u32, lo: u32, sh: nat)
    requires hi < B && lo < B && 0 < sh < 16
    ensures ShiftJoin(hi, lo, sh) == Or(And(Shl32(hi, sh), B - 1), Shr(lo, 16 - sh))
  {
    JoinFits(hi, lo, sh);
    Shl32Exact(hi, sh);
    AndMask(Shl32(hi, sh), 16);
    OrDisjoint((hi * Pow2(sh)) % B, Shr(lo, 16 - sh), sh);
  }

  lemma Shl32Exact(x: u32, sh: nat)
    requires x < B && sh <= 16
    ensures Shl32(x, sh) == x * Pow2(sh) && Pow2(16) == B
  {
    Pow2Values();
    Pow2Add(sh, 16 - sh);
    MulAtLeast(Pow2(sh), Pow2(16 - sh));
    ProductFits(x, Pow2(sh));
  }

  lemma ProductFits(x: int, p: int)
    requires 0 <= x < B && 0 < p <= B
    ensures 0 <= x * p < W
  {
    ProductBelow(x, p, B, B + 1);
  }

  /** The digits p shifted left by sh, with the top bits of the digit next shifted in. */
  function ShlDigits(p: seq<u32>, next: u32, sh: nat): (r: seq<u32>)
    requires AllDigits(p) && next < B && 0 < sh < 16
    ensures |r| == |p| && AllDigits(r)
  {
    seq(|p|, i requires 0 <= i < |p| => ShiftJoin(p[i], if i + 1 < |p| then p[i + 1] else next, sh))
  }

  /** Shifting multiplies by 2^sh, up to the bits that leave at the top and enter below. */
  lemma {:induction false} ShlDigitsValue(p: seq<u32>, next: u32, sh: nat)
    requires |p| > 0 && AllDigits(p) && next < B && 0 < sh < 16
    ensures Val(ShlDigits(p, next, sh)) + Shr(p[0], 16 - sh) * PowB(|p|)
            == Val(p) * Pow2(sh) + Shr(next, 16 - sh)
  {
    var k, r := |p| - 1, ShlDigits(p, next, sh);
    JoinFits(p[k], next, sh);
    if k == 0 {
      assert r[..0] == [] && p[..0] == [];
      assert Val(r) == r[0] && Val(p) == p[0] && PowB(1) == B;
    } else {
      assert r[..k] == ShlDigits(p[..k], p[k], sh);
      ShlDigitsValue(p[..k], p[k], sh);
      ShiftAlgebra(Val(r[..k]), r[k], Shr(p[0], 16 - sh), PowB(k), Val(p[..k]), p[k], Pow2(sh),
                   Shr(p[k], 16 - sh), (p[k] * Pow2(sh)) % B, Shr(next, 16 - sh));
    }
  }

  lemma ShiftAlgebra(x: int, d: int, top: int, pb: int, y: int, e: int, p2: int, c: int, low: int, next: int)
    requires x + top * pb == y * p2 + c && e * p2 == c * B + low && d == low + next
    ensures (x * B + d) + top * (B * pb) == (y * B + e) * p2 + next
  {
    assert top * (B * pb) == B * (top * pb);
    assert (y * B + e) * p2 == B * (y * p2) + e * p2;
  }

  lemma Slice(u: seq<u32>, at: nat, final: seq<u32>)
    requires at + |final| <= |u| && forall k :: at <= k < at + |final| ==> u[k] == final[k - at]
    ensures u[at..at + |final|] == final
  {
  }

  /** Shift p[at..at+len+1] left by sh bits, in place. */
  method Shl(p: array<u32>, at: nat, len: nat, sh: nat)
    requires at + len < p.Length && 0 < sh < 16 && AllDigits(p[at..at + len + 1])
    modifies p
    ensures p[at..at + len + 1] == ShlDigits(old(p[at..at + len + 1]), 0, sh)
    ensures OnlyChanged(old(p[..]), p[..], at, len + 1)
  {
    ghost var ps := p[at..at + len + 1];
    ghost var final := ShlDigits(ps, 0, sh);
    var i := 0;
    while i < len
      invariant 0 <= i <= len
      invariant forall k :: at <= k < at + i ==> p[k] == final[k - at]
      invariant OnlyChanged(old(p[..]), p[..], at, i)
    {
      assert p[at + i] == ps[i] && p[at + i + 1] == ps[i + 1];
      var d := ShiftJoin(p[at + i], p[at + i + 1], sh);
      assert d == final[i];
      p[at + i] := d;
      i := i + 1;
    }
    assert p[at + i] == ps[i];
    var d := ShiftJoin(p[at + i], 0, sh);
    assert d == final[i];
    p[at + i] := d;
    Slice(p[..], at, final);
    assert p[at..at + len + 1] == p[..][at..at + len + 1];
  }

  /** Shift the n digits at u[at+1..] right by d bits, in place, the low bits of u[at]
      entering at the top; then clear u[at]. */
  method Denormalise(u: array<u32>, at: nat, n: nat, d: nat)
    requires at + n < u.Length && n > 0 && 0 < d < 16 && AllDigits(u[at..at + n]) && u[at + n] < B
    modifies u
    ensures u[at] == 0 && u[at + 1..at + 1 + n] == ShlDigits(old(u[at..at + n]), old(u[at + n]), 16 - d)
    ensures OnlyChanged(old(u[..]), u[..], at, n + 1)
  {
    ghost var w, now, us := u[..], u[..], u[at..at + n + 1];
    assert us[..n] == u[at..at + n];
    ghost var final := ShlDigits(us[..n], us[n], 16 - d);
    var i := n;
    while i > 0
      invariant 0 <= i <= n && u[..] == now && Finished(w, now, final, at + 1, i, n)
    {
      FinishOne(w, now, final, at + 1, i - 1, n);
      assert now[at + i] == us[i] && now[at + i - 1] == us[i - 1];
      var r := ShiftJoin(u[at + i - 1], u[at + i], 16 - d);
      now := now[at + i := r];
      u[at + i] := r;
      i := i - 1;
    }
    FinishedAll(w, now, final, at + 1, n);
    u[at] := 0;
    assert u[at + 1..at + 1 + n] == now[at + 1..at + 1 + n];
  }
}
