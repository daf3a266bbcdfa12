/** 64-bit multiplication by a two-level Karatsuba split (The Art of Computer Programming,
    volume 2, section 4.3.3) with hand-written carries and borrows. */
module MulDi3 {
  import opened Bits

  /** A 64-bit value as its high and low words. */
  function Pair(h: u32, l: u32): u64 { h * W + l }

  // ---------------------------------------------------------------- carries

  /** prod += x << N, by words: the carry out of the low word shows as a wrapped sum. */
  method AddShifted(h: u32, l: u32, x: u32) returns (h': u32, l': u32)
    ensures Pair(h', l') == (Pair(h, l) + x * B) % D
  {
    l' := Add32(l, LHup(x));
    h' := Add32(h, Add32(HHalf(x), if l' < l then 1 else 0));
    WordSum(h, l, HHalf(x), LHup(x));
  }

  /** prod -= x << N, by words: the borrow shows as a wrapped difference. */
  method SubtractShifted(h: u32, l: u32, x: u32) returns (h': u32, l': u32)
    ensures Pair(h', l') == (Pair(h, l) - x * B) % D
  {
    l' := Sub32(l, LHup(x));
    h' := Sub32(h, Add32(HHalf(x), if l' > l then 1 else 0));
    WordDifference(h, l, HHalf(x), LHup(x));
  }

  /** prod += low. */
  method AddLow(h: u32, l: u32, low: u32) returns (h': u32, l': u32)
    ensures Pair(h', l') == (Pair(h, l) + low) % D
  {
    l' := Add32(l, low);
    h' := h;
    if l' < low { h' := Add32(h', 1); }
    WordSum(h, l, 0, low);
  }

  lemma WordSum(h: u32, l: u32, xh: u32, xl: u32)
    requires xh < B
    ensures var l' := Add32(l, xl);
            var c := if l + xl >= W then 1 else 0;
            && (l' < l <==> c == 1) && (l' < xl <==> c == 1)
            && Pair(Add32(h, Add32(xh, c)), l') == (Pair(h, l) + xh * W + xl) % D
  {
    var l' := Add32(l, xl);
    var c := if l + xl >= W then 1 else 0;
    var top := h + xh + c;
    assert l' == l + xl - c * W;
    assert Add32(h, Add32(xh, c)) == if top >= W then top - W else top;
  }

  lemma WordDifference(h: u32, l: u32, xh: u32, xl: u32)
    requires xh < B
    ensures var l' := Sub32(l, xl);
            var c := if l < xl then 1 else 0;
            && (l' > l <==> c == 1)
            && Pair(Sub32(h, Add32(xh, c)), l') == (Pair(h, l) - xh * W - xl) % D
  {
    var l' := Sub32(l, xl);
    var c := if l < xl then 1 else 0;
    var top := h - xh - c;
    assert l' == l - xl + c * W;
    assert Sub32(h, Add32(xh, c)) == if top < 0 then top + W else top;
  }

  // ---------------------------------------------------------------- 32 x 32 -> 64

  /** |x - y| and whether x < y. */
  method AbsDiff(x: u32, y: u32) returns (d: u32, neg: bool)
    ensures d == if x >= y then x - y else y - x
    ensures neg <==> x < y
  {
    if x >= y { d, neg := Sub32(x, y), false; } else { d, neg := Sub32(y, x), true; }
  }

  /** The exact product of two 32-bit numbers, although partial sums wrap. */
  method LMulQ(u: u32, v: u32) returns (prod: u64)
    ensures prod == u * v
  {
    var u1, u0, v1, v0 := HHalf(u), LHalf(u), HHalf(v), LHalf(v);
    assert u == u1 * B + u0 && v == v1 * B + v0;
    prod := LMulHalves(u1, u0, v1, v0);
  }

  method LMulHalves(u1: u32, u0: u32, v1: u32, v0: u32) returns (prod: u64)
    requires u1 < B && u0 < B && v1 < B && v0 < B
    ensures prod == (u1 * B + u0) * (v1 * B + v0)
  {
    var low := MulHalves(u0, v0);
    if u1 == 0 && v1 == 0 {
      return low;
    }
    var udiff, uneg := AbsDiff(u1, u0);
    var vdiff, vneg := AbsDiff(v0, v1);
    var neg := uneg != vneg;
    var mid := MulHalves(udiff, vdiff);
    var high := MulHalves(u1, v1);
    ExactProduct(u1, u0, v1, v0, udiff, vdiff, neg, high, mid, low);
    prod := Assemble(high, mid, neg, low);
  }

  lemma ExactProduct(u1: int, u0: int, v1: int, v0: int, ud: int, vd: int, neg: bool, high: int, mid: int, low: int)
    requires 0 <= u1 < B && 0 <= u0 < B && 0 <= v1 < B && 0 <= v0 < B
    requires ud == if u1 >= u0 then u1 - u0 else u0 - u1
    requires vd == if v0 >= v1 then v0 - v1 else v1 - v0
    requires neg <==> (u1 < u0) != (v0 < v1)
    requires high == u1 * v1 && mid == ud * vd && low == u0 * v0
    ensures (high * W + high * B + (if neg then -mid else mid) * B + low * B + low) % D == (u1 * B + u0) * (v1 * B + v0)
  {
    KaratsubaSplit(u1, u0, v1, v0, ud, vd, neg);
    WordProduct(u1 * B + u0, v1 * B + v0);
    SmallMod((u1 * B + u0) * (v1 * B + v0));
  }

  lemma SmallMod(x: int)
    requires 0 <= x < D
    ensures x % D == x
  {
  }

  method MulHalves(x: u32, y: u32) returns (p: u32)
    requires x < B && y < B
    ensures p == x * y
  {
    ProductBelow(x, y, B, B);
    p := Mul32(x, y);
  }

  lemma WordProduct(x: int, y: int)
    requires 0 <= x < W && 0 <= y < W
    ensures 0 <= x * y < D
  {
    ProductBelow(x, y, W, W);
  }

  /** (2^2N + 2^N) high +- 2^N mid + (2^N + 1) low, modulo 2^64. */
  method Assemble(high: u32, mid: u32, neg: bool, low: u32) returns (prod: u64)
    ensures prod == (high * W + high * B + (if neg then -(mid as int) else mid) * B + low * B + low) % D
  {
    var prodh, prodl := AssembleHigh(high, mid, neg);
    ghost var x := high * W + high * B + (if neg then -(mid as int) else mid) * B;
    prodh, prodl := AddShifted(prodh, prodl, low);
    AddModulo(x, low * B);
    prodh, prodl := AddLow(prodh, prodl, low);
    AddModulo(x + low * B, low);
    prod := Pair(prodh, prodl);
  }

  method AssembleHigh(high: u32, mid: u32, neg: bool) returns (prodh: u32, prodl: u32)
    ensures Pair(prodh, prodl) == (high * W + high * B + (if neg then -(mid as int) else mid) * B) % D
  {
    prodh, prodl := AddShifted(high, 0, high);
    ghost var x := high * W + high * B;
    if neg {
      prodh, prodl := SubtractShifted(prodh, prodl, mid);
      AddModulo(x, -(mid as int) * B);
    } else {
      prodh, prodl := AddShifted(prodh, prodl, mid);
      AddModulo(x, mid * B);
    }
  }

  lemma AddModulo(x: int, y: int)
    ensures (x % D + y) % D == (x + y) % D
  {
    var k := x / D;
    DivModUnique(x + y, D, k + (x % D + y) / D, (x % D + y) % D);
  }

  /** Knuth's identity: uv from the three half-size products. */
  lemma KaratsubaSplit(u1: int, u0: int, v1: int, v0: int, ud: int, vd: int, neg: bool)
    requires ud == if u1 >= u0 then u1 - u0 else u0 - u1
    requires vd == if v0 >= v1 then v0 - v1 else v1 - v0
    requires neg <==> (u1 < u0) != (v0 < v1)
    ensures (u1 * B + u0) * (v1 * B + v0)
            == (u1 * v1) * W + (u1 * v1) * B + (if neg then -(ud * vd) else ud * vd) * B + (u0 * v0) * B + u0 * v0
  {
    SignedProduct(u1 - u0, v0 - v1);
    assert (u1 - u0) * (v0 - v1) == u1 * v0 - u1 * v1 - u0 * v0 + u0 * v1;
    assert (u1 * B + u0) * (v1 * B + v0) == (u1 * v1) * (B * B) + (u1 * v0) * B + (u0 * v1) * B + u0 * v0;
  }

  lemma SignedProduct(x: int, y: int)
    ensures var ax, ay := (if x >= 0 then x else -x), (if y >= 0 then y else -y);
            x * y == if (x < 0) != (y < 0) then -(ax * ay) else ax * ay
  {
  }

  // ---------------------------------------------------------------- 64 x 64 -> 64

  /** The two's complement reading of a 64-bit word. */
  function Signed(x: u64): i64 { if x < D / 2 then x else x - D }

  /** The 64-bit word of an integer. */
  function Word64(x: int): u64 { x % D }

  /** |a|, as a 64-bit word: negating the most negative number wraps to itself, whose
      unsigned reading is its magnitude. */
  method Magnitude(a: i64) returns (u: u64, neg: bool)
    ensures u == if a >= 0 then a else -(a as int)
    ensures neg <==> a < 0
  {
    if a >= 0 { u, neg := Word64(a), false; } else { u, neg := Word64(-(a as int)), true; }
  }

  /** a * b modulo 2^64, for every pair of signed operands. */
  method Multiply(a: i64, b: i64) returns (r: i64)
    ensures r == Signed(Word64(a * b))
  {
    var u, negall := Magnitude(a);
    var v, vneg := Magnitude(b);
    negall := negall != vneg;
    var prod := MultiplyMagnitudes(u, v);
    SignedProduct(a, b);
    NegateModulo(u as int * v);
    r := Signed(if negall then Word64(-(prod as int)) else prod);
  }

  lemma NegateModulo(x: int)
    ensures (-(x % D)) % D == (-x) % D
  {
    DivModUnique(-x, D, -(x / D) + (-(x % D)) / D, (-(x % D)) % D);
  }

  method MultiplyMagnitudes(u: u64, v: u64) returns (prod: u64)
    ensures prod == (u * v) % D
  {
    var u1, u0, v1, v0 := u / W, u % W, v / W, v % W;
    assert u == u1 * W + u0 && v == v1 * W + v0;
    if u1 == 0 && v1 == 0 {
      prod := LMulQ(u0, v0);
      WordProduct(u0, v0);
    } else {
      prod := MultiplyWords(u1, u0, v1, v0);
    }
  }

  method MultiplyWords(u1: u32, u0: u32, v1: u32, v0: u32) returns (prod: u64)
    ensures prod == ((u1 * W + u0) * (v1 * W + v0)) % D
  {
    var low := LMulQ(u0, v0);
    var udiff, uneg := AbsDiff(u1, u0);
    var vdiff, vneg := AbsDiff(v0, v1);
    var negmid := uneg != vneg;
    ghost var m, h := udiff as int * vdiff, u1 as int * v1;
    var mid := Mul32(udiff, vdiff);
    var high := Mul32(u1, v1);
    assert mid == m % W && high == h % W;
    prod := Pair(Add32(Add32(Add32(high, if negmid then Sub32(0, mid) else mid), low % W), low / W), low % W);
    HighWord(h, m, negmid, low);
    CrossTerms(u1, u0, v1, v0, udiff, vdiff, negmid);
  }

  /** Modulo 2^64 only the cross terms and the low product remain. */
  lemma CrossTerms(u1: int, u0: int, v1: int, v0: int, ud: int, vd: int, neg: bool)
    requires ud == if u1 >= u0 then u1 - u0 else u0 - u1
    requires vd == if v0 >= v1 then v0 - v1 else v1 - v0
    requires neg <==> (u1 < u0) != (v0 < v1)
    ensures (u1 * W + u0) * (v1 * W + v0)
            == (u1 * v1) * D + (u1 * v1 + (if neg then -(ud * vd) else ud * vd) + u0 * v0) * W + u0 * v0
  {
    SignedProduct(u1 - u0, v0 - v1);
    assert (u1 - u0) * (v0 - v1) == u1 * v0 - u1 * v1 - u0 * v0 + u0 * v1;
    assert (u1 * W + u0) * (v1 * W + v0) == (u1 * v1) * (W * W) + (u1 * v0) * W + (u0 * v1) * W + u0 * v0;
  }

  lemma HighWord(high: int, mid: int, neg: bool, low: u64)
    ensures var h := Add32(Add32(Add32(high % W, if neg then Sub32(0, mid % W) else mid % W), low % W), low / W);
            Pair(h, low % W) == (high * D + (high + (if neg then -mid else mid) + low) * W + low) % D
  {
    var s := if neg then -mid else mid;
    HighWordSum(high, mid, neg, low % W, low / W);
    var y := high + s + low % W + low / W;
    var k := y / W + low / W;
    assert high * D + (high + s + low) * W + low == D * (high + k) + Pair(y % W, low % W);
    DivModUnique(high * D + (high + s + low) * W + low, D, high + k, Pair(y % W, low % W));
  }

  lemma HighWordSum(high: int, mid: int, neg: bool, x: int, y: int)
    ensures Add32(Add32(Add32(high % W, if neg then Sub32(0, mid % W) else mid % W), x), y)
            == (high + (if neg then -mid else mid) + x + y) % W
  {
    var s := if neg then -mid else mid;
    assert (if neg then Sub32(0, mid % W) else mid % W) == s % W;
    AddModuloWord(high, s);
    AddModuloWord(high + s, x);
    AddModuloWord(high + s + x, y);
  }

  lemma AddModuloWord(x: int, y: int)
    ensures Add32(x % W, y % W) == Add32(x % W, y) == (x + y) % W
  {
  }
}
