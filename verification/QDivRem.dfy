/** The unsigned 64-bit division routine: argument splitting, the one-digit divisor, and
    normalisation around Algorithm D. */
module QDivRem {

  import opened Bits
  import opened Collections
  import opened Digits
  import opened AlgorithmD

  /** DivideByZero stands for the trap that evaluating 1/zero raises. */
  datatype DivResult = DivideByZero | Quotient(q: u64, rem: Option<u64>)

  /** The four digits of a 64-bit value, as the macros split its two words. */
  function FourDigits(x: u64): (ds: seq<u32>)
    ensures |ds| == 4 && AllDigits(ds)
  {
    [HHalf(x / W), LHalf(x / W), HHalf(x % W), LHalf(x % W)]
  }

  function JoinFour(a: u32, b: u32, c: u32, d: u32): u64
    requires a < B && b < B && c < B && d < B
  {
    Combine(a, b) * W + Combine(c, d)
  }

  lemma FourDigitsValue(s: seq<u32>)
    requires |s| == 4 && AllDigits(s)
    ensures Val(s) == JoinFour(s[0], s[1], s[2], s[3])
  {
    LeadingThree(s);
    assert s[3..] == [s[3]];
    AppendDigit([], s[3]);
    assert [] + [s[3]] == [s[3]];
    assert PowB(1) == B;
  }

  lemma FourDigitsOf(x: u64)
    ensures Val(FourDigits(x)) == x
  {
    FourDigitsValue(FourDigits(x));
  }

  // ---------------------------------------------------------------- one-digit divisor

  /** Exercise 16 of section 4.3.1, unrolled: divide the four digits by the digit t. */
  method DivideByDigit(u1: u32, u2: u32, u3: u32, u4: u32, t: u32) returns (q: u64, rem: u32)
    requires u1 < B && u2 < B && u3 < B && u4 < B && 0 < t < B
    ensures JoinFour(u1, u2, u3, u4) == q * t + rem && rem < t
  {
    var q1, r1 := u1 / t, u1 % t;
    DigitQuotient(0, u1, t);
    var rbj := Combine(r1, u2);
    var q2, r2 := rbj / t, rbj % t;
    DigitQuotient(r1, u2, t);
    rbj := Combine(r2, u3);
    var q3, r3 := rbj / t, rbj % t;
    DigitQuotient(r2, u3, t);
    rbj := Combine(r3, u4);
    var q4, r4 := rbj / t, rbj % t;
    DigitQuotient(r3, u4, t);
    q := JoinFour(q1, q2, q3, q4);
    rem := r4;
    SchoolDivision(q1, q2, q3, q4, t);
  }

  lemma DigitQuotient(r: int, d: int, t: int)
    requires 0 <= r < t < B && 0 <= d < B
    ensures var x := r * B + d; 0 <= x / t < B && 0 <= x % t < t && x == (x / t) * t + x % t
  {
    var x := r * B + d;
    assert x < t * B;
    QuotientBelow(x, t, B);
  }

  lemma SchoolDivision(q1: int, q2: int, q3: int, q4: int, t: int)
    ensures (((q1 * B + q2) * B + q3) * B + q4) * t == (((q1 * t) * B + q2 * t) * B + q3 * t) * B + q4 * t
  {
  }

  // ---------------------------------------------------------------- normalisation

  /** Step D1: how far to shift so that the leading digit is at least B/2. */
  method NormalisingShift(v1: u32) returns (d: nat)
    requires 0 < v1 < B
    ensures d < 16 && B / 2 <= v1 * Pow2(d) < B
  {
    d := 0;
    var t := v1;
    while t < B / 2
      invariant t == v1 * Pow2(d) && 0 < t < B
      decreases B - t
    {
      t := Add32(t, t);
      DoubleShift(v1, d);
      d := d + 1;
    }
    MulAtLeast(Pow2(d), v1);
    Pow2Values();
    Pow2Below(d, 16);
  }

  lemma DoubleShift(x: int, d: nat)
    ensures x * Pow2(d + 1) == 2 * (x * Pow2(d))
  {
  }

  lemma {:induction false} Pow2Below(d: nat, e: nat)
    requires Pow2(d) < Pow2(e)
    ensures d < e
    decreases d
  {
    if d >= e { Pow2Grows(d - e, e); }
  }

  lemma Pow2Grows(k: nat, e: nat)
    ensures Pow2(k + e) >= Pow2(e)
  {
    Pow2Add(k, e);
    MulAtLeast(Pow2(e), Pow2(k));
  }

  /** Shifting digits whose top digit has room multiplies their value. */
  lemma ShlExact(p: seq<u32>, sh: nat)
    requires |p| > 0 && AllDigits(p) && 0 < sh < 16 && p[0] * Pow2(sh) < B
    ensures Val(ShlDigits(p, 0, sh)) == Val(p) * Pow2(sh)
    ensures ShlDigits(p, 0, sh)[0] >= p[0] * Pow2(sh)
  {
    ShlDigitsValue(p, 0, sh);
    JoinFits(p[0], 0, sh);
    MulMono(0, p[0], Pow2(sh));
    NoCarryOut(p[0] * Pow2(sh), Shr(p[0], 16 - sh), PowB(|p|));
    ZeroShifted(16 - sh);
  }

  lemma ZeroShifted(k: nat)
    ensures Shr(0, k) == 0
  {
  }

  lemma NoCarryOut(x: int, c: int, p: int)
    requires 0 <= x < B && x == c * B + x % B
    ensures c == 0 && c * p == 0
  {
  }

  /** After normalisation the leading n digits of the dividend are below the divisor. */
  lemma LeadingBelowDivisor(us: seq<u32>, n: nat, m: nat, p: nat, u: int, v: int, vn: int)
    requires |us| == m + n + 1 && AllDigits(us) && n > 0 && p > 0
    requires Val(us) == u * p && u < PowB(m + n) && v >= PowB(n - 1) && vn == v * p
    ensures Val(us[..n]) < vn
  {
    assert us == us[..n] + us[n..];
    ValConcat(us[..n], us[n..]);
    ValBound(us[n..]);
    PowBAdd(m + 1, n - 1);
    BelowByScaling(Val(us[..n]), PowB(m + 1), Val(us[n..]), u, v, p, PowB(n - 1));
  }

  lemma BelowByScaling(x: int, pb: int, low: int, u: int, v: int, p: int, pn: int)
    requires pb > 0 && p > 0 && low >= 0 && x * pb + low == u * p && u < pb * pn && v >= pn
    ensures x < v * p
  {
    var z := p * pb;
    assert (v * p) * pb == v * z && (pb * pn) * p == pn * z;
    MulMono(pn, v, z);
    MulMono(u + 1, pb * pn, p);
    if x >= v * p { MulMono(v * p, x, pb); }
  }

  /** Undoing the normalisation: the remainder of the scaled numbers is the scaled remainder. */
  lemma ScaledDivision(u: int, v: int, p: int, un: int, vn: int, q: nat, r: int) returns (e: int)
    requires p > 0 && un == u * p && vn == v * p && un == Times(q, vn) + r && 0 <= r < vn
    ensures r == p * e && e == u - q * v && IsQuotient(u, v, q)
  {
    TimesIsProduct(q, vn);
    e := u - q * v;
    assert q * vn == p * (q * v);
    assert p * u - p * (q * v) == p * e;
    if e < 0 { MulMono(e, -1, p); }
    if e >= v { MulMono(v, e, p); }
  }

  lemma DenormaliseValue(us: seq<u32>, n: nat, d: nat, r: int)
    requires n > 0 && |us| == n + 1 && AllDigits(us) && us[0] == 0 && 0 < d < 16 && Val(us) == Pow2(d) * r
    ensures AllDigits(us[..n]) && Val(ShlDigits(us[..n], us[n], 16 - d)) == r
  {
    var x := us[..n];
    ShlDigitsValue(x, us[n], 16 - d);
    ZeroShifted(d);
    assert x[0] == 0 && us[..|us| - 1] == x;
    ShiftFactors(d);
    DivideShifted(Val(x), us[n], Pow2(d), Pow2(16 - d), r);
  }

  lemma ShiftFactors(d: nat)
    requires d <= 16
    ensures Pow2(d) * Pow2(16 - d) == B
  {
    Pow2Values();
    Pow2Add(d, 16 - d);
  }

  lemma DivideShifted(x: int, e: int, p: int, h: int, r: int)
    requires p > 0 && h > 0 && e >= 0 && p * h == B && x * B + e == p * r
    ensures x * h + e / p == r
  {
    var c, f := e / p, e % p;
    assert x * B == p * (x * h);
    assert p * (x * h) + p * c == p * (x * h + c);
    DivModUnique(p * r, p, x * h + c, f);
    DivModUnique(p * r, p, r, 0);
  }

  /** Multiply the digits from p[at] to the end by 2^d, in place; there is room at the top. */
  method ScaleDigits(p: array<u32>, at: nat, d: nat)
    requires at < p.Length && 0 < d < 16 && AllDigits(p[at..]) && p[at] * Pow2(d) < B
    modifies p
    ensures AllDigits(p[at..]) && p[..at] == old(p[..at]) && p[at] >= old(p[at]) * Pow2(d)
    ensures Val(p[at..]) == old(Val(p[at..])) * Pow2(d)
  {
    ghost var ps, len := p[at..], p.Length - at - 1;
    assert p[at..at + len + 1] == ps;
    Shl(p, at, p.Length - at - 1, d);
    assert p[at..] == p[at..at + len + 1];
    ShlExact(ps, d);
  }

  /** Step D1.  The digits from u[at] are the dividend, the first of them zero; those from
      v[vat] are the divisor.  Both are multiplied by 2^d. */
  method Normalise(u: array<u32>, at: nat, v: array<u32>, vat: nat) returns (d: nat)
    requires u != v && at < u.Length && vat + 2 <= v.Length
    requires AllDigits(u[at..]) && AllDigits(v[vat..]) && u[at] == 0 && v[vat] > 0
    modifies u, v
    ensures d < 16 && AllDigits(u[at..]) && Normalised(v[vat..]) && u[..at] == old(u[..at])
    ensures Val(u[at..]) == old(Val(u[at..])) * Pow2(d)
    ensures Val(v[vat..]) == old(Val(v[vat..])) * Pow2(d)
  {
    d := NormalisingShift(v[vat]);
    assert Pow2(0) == 1;
    if d > 0 {
      ScaleDigits(u, at, d);
      ScaleDigits(v, vat, d);
    }
  }

  /** Skip the leading zero digits of u after u[0]: m is how many more digits than the
      divisor's n the dividend has.  The search cannot run off the end, as u >= v. */
  method SkipDividendZeros(u: array<u32>, n: nat, ghost v: int) returns (at: nat, m: nat)
    requires u.Length == 5 && AllDigits(u[1..]) && u[0] == 0 && 2 <= n <= 4
    requires PowB(n - 1) <= v <= Val(u[1..])
    ensures at + m + n == 4 && u[at + 1] != 0
    ensures forall k :: 0 <= k <= at ==> u[k] == 0
  {
    at, m := 0, 4 - n;
    while u[at + 1] == 0
      invariant at + m + n == 4
      invariant forall k :: 0 <= k <= at ==> u[k] == 0
      decreases m
    {
      if m == 0 {
        LeadingZerosValue(u[1..], at + 1);
        assert u[1..][at + 1..] == u[at + 2..];
        assert AllDigits(u[1..][at + 1..]);
        ValBound(u[at + 2..]);
        assert false;
      }
      at, m := at + 1, m - 1;
    }
  }

  method NormaliseBoth(u: array<u32>, at: nat, v: array<u32>, vat: nat, m: nat, n: nat) returns (d: nat)
    requires u != v && u.Length == 5 && v.Length == 5 && n >= 2 && at + m + n == 4 && vat + n == 5
    requires AllDigits(u[at..]) && AllDigits(v[vat..]) && u[at] == 0 && v[vat] > 0
    modifies u, v
    ensures d < 16 && AllDigits(u[at..]) && Normalised(v[vat..]) && u[..at] == old(u[..at])
    ensures Val(u[at..]) == old(Val(u[at..])) * Pow2(d)
    ensures Val(v[vat..]) == old(Val(v[vat..])) * Pow2(d)
    ensures Val(u[at..at + n]) < Val(v[vat..])
  {
    DividendBound(u[at..]);
    DivisorBound(v[vat..]);
    ghost var uv, vv := Val(u[at..]), Val(v[vat..]);
    d := Normalise(u, at, v, vat);
    LeadingBelowDivisor(u[at..], n, m, Pow2(d), uv, vv, Val(v[vat..]));
    assert u[at..][..n] == u[at..at + n];
  }

  /** q is the quotient of u by v. */
  ghost predicate IsQuotient(u: int, v: int, q: int) {
    0 <= u - q * v < v
  }

  /** Algorithm D on the dividend from u[at] (m+n+1 digits, the first zero) and the divisor
      from v[vat] (n digits, the first not zero). */
  method DivideDigits(u: array<u32>, at: nat, v: array<u32>, vat: nat, m: nat, n: nat, wantRem: bool,
                      ghost uv: int, ghost vv: int)
    returns (q: u64, rem: Option<u64>)
    requires u != v && u.Length == 5 && v.Length == 5 && n >= 2 && at + m + n == 4 && vat + n == 5
    requires AllDigits(u[at..]) && AllDigits(v[vat..]) && v[vat] > 0
    requires forall k :: 0 <= k <= at ==> u[k] == 0
    requires Val(u[at..]) == uv && Val(v[vat..]) == vv
    modifies u, v
    ensures IsQuotient(uv, vv, q)
    ensures rem == if wantRem then Some(uv - q * vv) else None
  {
    var d := NormaliseBoth(u, at, v, vat, m, n);
    ghost var un, vn := Val(u[at..]), Val(v[vat..]);
    q := QuotientOf(u, at, v, vat, m, n);
    ValBound(u[at..]);
    ghost var e := ScaledDivision(uv, vv, Pow2(d), un, vn, q, Val(u[at..]));
    rem := None;
    if wantRem {
      ValBound(v[vat..]);
      var r := ExtractRemainder(u, at, m, n, d, e);
      rem := Some(r);
    }
  }

  /** Steps D2 to D7, with the quotient digits left-padded with zeros to four. */
  method QuotientOf(u: array<u32>, at: nat, v: array<u32>, vat: nat, m: nat, n: nat) returns (q: u64)
    requires u != v && u.Length == 5 && v.Length == 5 && n >= 2 && at + m + n == 4 && vat + n == 5
    requires AllDigits(u[at..]) && Normalised(v[vat..]) && Val(u[at..at + n]) < Val(v[vat..])
    modifies u
    ensures AllDigits(u[at..]) && u[..at] == old(u[..at])
    ensures old(Val(u[at..])) == Times(q, Val(v[vat..])) + Val(u[at..]) && Val(u[at..]) < Val(v[vat..])
  {
    var qs := new u32[5];
    ClearPrefix(qs, 4 - m);
    assert u[at..at + m + n + 1] == u[at..] && v[vat..vat + n] == v[vat..];
    LongDivision(u, at, v, vat, qs, 4 - m, m, n);
    assert u[at..at + m + n + 1] == u[at..] && qs[4 - m..4 - m + m + 1] == qs[4 - m..];
    QuotientDigits(qs[..], 4 - m);
    q := JoinFour(qs[1], qs[2], qs[3], qs[4]);
  }

  method ClearPrefix(q: array<u32>, k: nat)
    requires k <= q.Length
    modifies q
    ensures forall i :: 0 <= i < k ==> q[i] == 0
  {
    var i := k;
    while i > 0
      invariant 0 <= i <= k
      invariant forall j :: i <= j < k ==> q[j] == 0
    {
      i := i - 1;
      q[i] := 0;
    }
  }

  lemma DividendBound(us: seq<int>)
    requires |us| > 0 && us[0] == 0 && AllDigits(us)
    ensures 0 <= Val(us) < PowB(|us| - 1)
  {
    assert us == [us[0]] + us[1..];
    ValPrepend(us[0], us[1..]);
    ValBound(us[1..]);
  }

  lemma DivisorBound(vs: seq<int>)
    requires |vs| > 0 && vs[0] > 0 && AllDigits(vs)
    ensures Val(vs) >= PowB(|vs| - 1)
  {
    assert vs == [vs[0]] + vs[1..];
    ValPrepend(vs[0], vs[1..]);
    ValBound(vs[1..]);
    MulAtLeast(PowB(|vs| - 1), vs[0]);
  }

  lemma QuotientDigits(qs: seq<u32>, k: nat)
    requires |qs| == 5 && 1 <= k <= 5 && AllDigits(qs[k..]) && forall i :: 0 <= i < k ==> qs[i] == 0
    ensures AllDigits(qs) && JoinFour(qs[1], qs[2], qs[3], qs[4]) == Val(qs[k..])
  {
    forall i | 0 <= i < 5 ensures 0 <= qs[i] < B {
      if i >= k { assert qs[i] == qs[k..][i - k]; }
    }
    FourDigitsValue(qs[1..]);
    LeadingZerosValue(qs[1..], k - 1);
    assert qs[1..][k - 1..] == qs[k..];
  }

  /** The remainder fits in n digits, so the digits before them are zero. */
  lemma RemainderPosition(u: seq<u32>, at: nat, m: nat, n: nat)
    requires |u| == 5 && at + m + n == 4 && AllDigits(u[at..]) && Val(u[at..]) < PowB(n)
    requires forall k :: 0 <= k < at ==> u[k] == 0
    ensures forall k :: 0 <= k <= at + m ==> u[k] == 0
    ensures AllDigits(u[at + m..]) && Val(u[at + m..]) == Val(u[at..])
  {
    var us := u[at..];
    SmallHasLeadingZeros(us, n);
    LeadingZerosValue(us, m);
    assert us[m..] == u[at + m..];
    forall k | at <= k <= at + m ensures u[k] == 0 { assert u[k] == us[k - at]; }
  }

  /** Shift the remainder, the n+1 digits from u[at], back by d bits. */
  method ShiftRemainder(u: array<u32>, at: nat, n: nat, d: nat, ghost r: int)
    requires u.Length == 5 && n >= 1 && at + n == 4 && d < 16
    requires AllDigits(u[at..]) && Val(u[at..]) == Pow2(d) * r && forall k :: 0 <= k <= at ==> u[k] == 0
    modifies u
    ensures forall k :: 0 <= k <= at ==> u[k] == 0
    ensures AllDigits(u[at + 1..]) && Val(u[at + 1..]) == r
  {
    ghost var us := u[at..];
    if d > 0 {
      DenormaliseValue(us, n, d, r);
      assert us[..n] == u[at..at + n] && us[n] == u[at + n];
      Denormalise(u, at, n, d);
      assert u[at + 1..] == u[at + 1..at + 1 + n];
    } else {
      LeadingZerosValue(us, 1);
      assert us[1..] == u[at + 1..];
      assert Pow2(0) == 1;
    }
  }

  /** Shift the remainder back and assemble its two words. */
  method ExtractRemainder(u: array<u32>, at: nat, m: nat, n: nat, d: nat, ghost r: int) returns (rem: u64)
    requires u.Length == 5 && n >= 1 && at + m + n == 4 && d < 16
    requires AllDigits(u[at..]) && forall k :: 0 <= k < at ==> u[k] == 0
    requires Val(u[at..]) == Pow2(d) * r && Val(u[at..]) < PowB(n)
    modifies u
    ensures rem == r
  {
    RemainderPosition(u[..], at, m, n);
    ShiftRemainder(u, at + m, n, d, r);
    QuotientDigits(u[..], at + m + 1);
    rem := JoinFour(u[1], u[2], u[3], u[4]);
  }

  // ---------------------------------------------------------------- entry point

  /** Drop the leading zero digits of the divisor's four digits at v[1..]; n counts those left. */
  method SkipDivisorZeros(v: array<u32>, ghost vll: int) returns (vat: nat, n: nat)
    requires v.Length == 5 && AllDigits(v[1..]) && Val(v[1..]) == vll > 0
    ensures 1 <= vat <= 4 && vat + n == 5
    ensures n >= 2 ==> v[vat] > 0
    ensures AllDigits(v[vat..]) && Val(v[vat..]) == vll
  {
    vat, n := 1, 4;
    while n > 1 && v[vat] == 0
      invariant vat + n == 5 && n >= 1
      invariant AllDigits(v[vat..]) && Val(v[vat..]) == vll
      decreases n
    {
      LeadingZerosValue(v[vat..], 1);
      assert v[vat..][1..] == v[vat + 1..];
      assert v[vat..][0] == v[vat];
      vat, n := vat + 1, n - 1;
    }
    assert v[vat..][0] == v[vat];
  }

  /** Quotient and, if asked for, remainder of two unsigned 64-bit numbers. */
  method Divide(ull: u64, vll: u64, wantRem: bool) returns (r: DivResult)
    ensures r.DivideByZero? <==> vll == 0
    ensures vll != 0 ==> IsQuotient(ull, vll, r.q)
    ensures vll != 0 ==> r.rem == if wantRem then Some(ull - r.q * vll) else None
  {
    if vll == 0 { return DivideByZero; }
    if ull < vll { return Quotient(0, if wantRem then Some(ull) else None); }
    var u, v := new u32[5], new u32[5];
    StoreDigits(u, ull);
    StoreDigits(v, vll);
    u[0] := 0;
    var vat, n := SkipDivisorZeros(v, vll);
    if n == 1 {
      OneDigit(v[vat..]);
      FourDigitsValue(u[1..]);
      var q, rem := DivideByDigit(u[1], u[2], u[3], u[4], v[vat]);
      return Quotient(q, if wantRem then Some(rem) else None);
    }
    var q, rem := DivideLong(u, v, vat, n, wantRem, ull, vll);
    r := Quotient(q, rem);
  }

  /** The divisor has at least two digits. */
  method DivideLong(u: array<u32>, v: array<u32>, vat: nat, n: nat, wantRem: bool, ghost ull: int, ghost vll: int)
    returns (q: u64, rem: Option<u64>)
    requires u != v && u.Length == 5 && v.Length == 5 && n >= 2 && 1 <= vat && vat + n == 5
    requires u[0] == 0 && AllDigits(u[1..]) && AllDigits(v[vat..]) && v[vat] > 0
    requires Val(u[1..]) == ull >= vll == Val(v[vat..])
    modifies u, v
    ensures IsQuotient(ull, vll, q)
    ensures rem == if wantRem then Some(ull - q * vll) else None
  {
    DivisorBound(v[vat..]);
    var at, m := SkipDividendZeros(u, n, vll);
    SameFromAnyZero(u[..], at);
    q, rem := DivideDigits(u, at, v, vat, m, n, wantRem, ull, vll);
  }

  lemma SameFromAnyZero(u: seq<u32>, at: nat)
    requires at < |u| && AllDigits(u[1..]) && forall k :: 0 <= k <= at ==> u[k] == 0
    ensures AllDigits(u[at..]) && Val(u[at..]) == Val(u[1..])
  {
    LeadingZerosValue(u, at);
    LeadingZerosValue(u, 1);
    forall i | at <= i < |u| ensures 0 <= u[i] < B { if i >= 1 { assert u[i] == u[1..][i - 1]; } }
  }

  lemma OneDigit(s: seq<int>)
    requires |s| == 1
    ensures Val(s) == s[0]
  {
    assert s == [] + [s[0]];
    AppendDigit([], s[0]);
  }

  method StoreDigits(u: array<u32>, x: u64)
    requires u.Length == 5
    modifies u
    ensures AllDigits(u[1..]) && Val(u[1..]) == x
  {
    u[1], u[2], u[3], u[4] := HHalf(x / W), LHalf(x / W), HHalf(x % W), LHalf(x % W);
    assert u[1..] == FourDigits(x);
    FourDigitsOf(x);
  }
}
