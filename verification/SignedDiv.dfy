/** Signed 64-bit division and remainder on top of the unsigned routine. */
module SignedDiv {
  import opened Bits
  import Q = QDivRem
  import M = MulDi3

  datatype SignedResult = DivideByZero | Value(v: i64)

  function Abs(x: int): nat { if x >= 0 then x else -x }

  /** r is the remainder of a by b in the sense of section 6.5.5 of ISO C99: division
      truncates toward zero, so the remainder is smaller than b and has the sign of a. */
  ghost predicate IsRemainder(a: int, b: int, r: int) {
    && (exists q: int :: IsMultiplePlus(a, b, q, r))
    && Abs(r) < Abs(b)
    && (r == 0 || (r < 0 <==> a < 0))
  }

  ghost predicate IsMultiplePlus(a: int, b: int, q: int, r: int) { a == q * b + r }

  /** q is the truncated quotient of a by b. */
  ghost predicate IsTruncatedQuotient(a: int, b: int, q: int) {
    IsRemainder(a, b, a - q * b)
  }

  method UnsignedWord(a: i64) returns (u: u64)
    ensures u == Abs(a)
  {
    u := M.Word64(a);
    if a < 0 { u := M.Word64(-(u as int)); }
  }

  method Divide(a: i64, b: i64) returns (r: SignedResult)
    ensures r.DivideByZero? <==> b == 0
    ensures b != 0 && !(a == -(D / 2) && b == -1) ==> IsTruncatedQuotient(a, b, r.v)
    ensures a == -(D / 2) && b == -1 ==> r.v == a
  {
    var ua := UnsignedWord(a);
    var ub := UnsignedWord(b);
    var neg := (a < 0) != (b < 0);
    var d := Q.Divide(ua, ub, false);
    if d.DivideByZero? { return DivideByZero; }
    var uq := d.q;
    ghost var q, sr := SignedQuotient(a, b, uq);
    QuotientBack(neg, uq);
    if neg { uq := M.Word64(-(uq as int)); }
    r := Value(M.Signed(uq));
  }

  /** The sign of a quotient can be put back, except that 2^63 itself wraps. */
  lemma QuotientBack(neg: bool, uq: u64)
    requires uq <= D / 2
    ensures var back := M.Signed(if neg then M.Word64(-(uq as int)) else uq);
            back == if neg || uq == D / 2 then -(uq as int) else uq
  {
    if neg && uq > 0 { DivModUnique(-(uq as int), D, -1, D - uq); }
  }

  method Remainder(a: i64, b: i64) returns (r: SignedResult)
    ensures r.DivideByZero? <==> b == 0
    ensures b != 0 ==> IsRemainder(a, b, r.v)
  {
    var ua := UnsignedWord(a);
    var ub := UnsignedWord(b);
    var d := Q.Divide(ua, ub, true);
    if d.DivideByZero? { return DivideByZero; }
    var ur := d.rem.value;
    ghost var q, sr := SignedQuotient(a, b, d.q);
    SignBack(a, b, ur, sr);
    if a < 0 { ur := M.Word64(-(ur as int)); }
    r := Value(M.Signed(ur));
  }

  /** A remainder fits a signed word, so its sign can be put back. */
  lemma SignBack(a: i64, b: i64, ur: u64, r: int)
    requires b != 0 && IsRemainder(a, b, r) && ur == Abs(r) && (r == 0 || (r < 0 <==> a < 0))
    ensures M.Signed(if a < 0 then M.Word64(-(ur as int)) else ur) == r
  {
    assert ur < D / 2;
    if a < 0 && ur > 0 { DivModUnique(-(ur as int), D, -1, D - ur); }
  }

  /** The unsigned quotient of the magnitudes, with its sign put back, truncates toward
      zero; it fits a signed word except for the most negative number over -1. */
  lemma SignedQuotient(a: i64, b: i64, uq: u64) returns (q: int, r: int)
    requires b != 0 && Q.IsQuotient(Abs(a), Abs(b), uq)
    ensures q == if (a < 0) != (b < 0) then -(uq as int) else uq
    ensures Abs(r) == Abs(a) - uq * Abs(b) && (r == 0 || (r < 0 <==> a < 0))
    ensures IsTruncatedQuotient(a, b, q) && IsRemainder(a, b, r)
    ensures uq <= D / 2 && (uq == D / 2 ==> a == -(D / 2) && (b == -1 || b == 1))
  {
    q := if (a < 0) != (b < 0) then -(uq as int) else uq;
    M.SignedProduct(q, b);
    var p := uq as int * Abs(b);
    r := a - q * b;
    assert r == if a < 0 then -(Abs(a) - p) else Abs(a) - p;
    assert IsMultiplePlus(a, b, q, r);
    MulAtLeast(uq, Abs(b));
    if uq == D / 2 && Abs(b) >= 2 {
      MulMono(2, Abs(b), uq);
    }
  }

  /** A truncated quotient and a C99 remainder of the same operands belong together:
      (a / b) * b + a % b == a. */
  lemma QuotientAndRemainderAgree(a: int, b: int, q: int, r: int)
    requires b != 0 && IsTruncatedQuotient(a, b, q) && IsRemainder(a, b, r)
    ensures q * b + r == a
  {
    var q' :| IsMultiplePlus(a, b, q', r);
    assert (q' - q) * b == q' * b - q * b;
    SmallMultiple(q' - q, b, (a - q * b) - r);
  }

  lemma SmallMultiple(e: int, b: int, d: int)
    requires e * b == d && Abs(d) < Abs(b)
    ensures d == 0
  {
    M.SignedProduct(e, b);
    if e != 0 { MulAtLeast(Abs(b), Abs(e)); }
  }
}
