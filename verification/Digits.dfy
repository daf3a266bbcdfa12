/** Numbers written as sequences of base-B digits, most significant first. */
module Digits {
  import opened Bits

  /** Multiplication by repeated addition, for contracts that only pass products along. */
  function Times(k: int, x: int): int
    decreases k
  {
    if k <= 0 then 0 else Times(k - 1, x) + x
  }

  lemma {:induction false} TimesIsProduct(k: nat, x: int)
    ensures Times(k, x) == k * x
  {
    if k == 0 {
    } else {
      TimesIsProduct(k - 1, x);
    }
  }

  lemma TimesNonNegative(k: nat, x: int)
    requires x >= 0
    ensures Times(k, x) >= 0
  {
  }

  lemma TimesAtLeast(k: nat, x: int)
    requires x >= 0
    ensures k > 0 ==> Times(k, x) >= x
  {
    if k > 0 { TimesNonNegative(k - 1, x); }
  }

  function PowB(k: nat): (p: nat)
    ensures p > 0
  {
    if k == 0 then 1 else B * PowB(k - 1)
  }

  function Val(s: seq<int>): int {
    if |s| == 0 then 0 else Val(s[..|s| - 1]) * B + s[|s| - 1]
  }

  ghost predicate AllDigits(s: seq<int>) {
    forall i :: 0 <= i < |s| ==> 0 <= s[i] < B
  }

  lemma {:induction false} PowBAdd(j: nat, k: nat)
    ensures PowB(j + k) == PowB(j) * PowB(k)
  {
    if j == 0 {
    } else {
      PowBAdd(j - 1, k);
    }
  }

  lemma {:induction false} ValBound(s: seq<int>)
    requires AllDigits(s)
    ensures 0 <= Val(s) < PowB(|s|)
  {
    if |s| == 0 {
    } else {
      ValBound(s[..|s| - 1]);
    }
  }

  lemma {:induction false} ValConcat(a: seq<int>, b: seq<int>)
    ensures Val(a + b) == Val(a) * PowB(|b|) + Val(b)
  {
    if |b| == 0 {
      assert a + b == a;
    } else {
      var b' := b[..|b| - 1];
      assert (a + b)[..|a + b| - 1] == a + b';
      ValConcat(a, b');
      assert Val(a) * PowB(|b'|) * B == Val(a) * PowB(|b|);
    }
  }

  lemma ValPrepend(d: int, s: seq<int>)
    ensures Val([d] + s) == d * PowB(|s|) + Val(s)
  {
    ValConcat([d], s);
    assert [d][..0] == [];
    assert Val([d]) == d;
  }

  lemma ValPush(d: nat, s: seq<int>)
    ensures Val([d] + s) == Times(d, PowB(|s|)) + Val(s)
  {
    ValPrepend(d, s);
    TimesIsProduct(d, PowB(|s|));
  }

  lemma {:induction false} ValZeros(s: seq<int>)
    requires forall i :: 0 <= i < |s| ==> s[i] == 0
    ensures Val(s) == 0
  {
    if |s| == 0 {
    } else {
      ValZeros(s[..|s| - 1]);
    }
  }

  lemma PowBMono(j: nat, k: nat)
    requires j <= k
    ensures PowB(j) <= PowB(k)
  {
    PowBAdd(k - j, j);
    MulAtLeast(PowB(j), PowB(k - j));
  }

  /** A number below B^k has all but its last k digits zero. */
  lemma {:induction false} SmallHasLeadingZeros(s: seq<int>, k: nat)
    requires AllDigits(s) && k <= |s| && Val(s) < PowB(k)
    ensures forall i :: 0 <= i < |s| - k ==> s[i] == 0
  {
    if k < |s| {
      var rest := s[1..];
      assert s == [s[0]] + rest;
      ValPush(s[0], rest);
      ValBound(rest);
      PowBMono(k, |rest|);
      TimesAtLeast(s[0], PowB(|rest|));
      assert s[0] == 0;
      SmallHasLeadingZeros(rest, k);
      forall i | 0 <= i < |s| - k ensures s[i] == 0 {
        if i > 0 { assert s[i] == rest[i - 1]; }
      }
    }
  }
}
