/** atoi, and how it undoes snprintf's %d. */
module Atoi {

  import opened Collections
  import Bits
  import opened Printf

  predicate IsBlank(c: char) {
    c == ' ' || c == '\t'
  }

  predicate IsDigit(c: char) {
    '0' <= c <= '9'
  }

  function DigitValue(c: char): nat
    requires IsDigit(c)
  {
    c as int - '0' as int
  }

  function SkipBlanks(s: string): string {
    if s != "" && IsBlank(s[0]) then SkipBlanks(s[1..]) else s
  }

  /** The digit loop, on a 32-bit accumulator. */
  function Accumulate(s: string, val: nat): nat {
    if s == "" || !IsDigit(s[0]) then val else Accumulate(s[1..], (val * 10 + DigitValue(s[0])) % Bits.W)
  }

  /** The int with the same low 32 bits as x. */
  function Wrap(x: int): (r: int)
    ensures -(Bits.W / 2) <= r < Bits.W / 2
  {
    if x % Bits.W < Bits.W / 2 then x % Bits.W else x % Bits.W - Bits.W
  }

  function Parse(s: string): int {
    var t := SkipBlanks(s);
    if t != "" && t[0] == '-' then Wrap(-(Accumulate(t[1..], 0) as int))
    else if t != "" && t[0] == '+' then Wrap(Accumulate(t[1..], 0))
    else Wrap(Accumulate(t, 0))
  }

  /** atoi. */
  method Parsed(s: string) returns (r: int)
    ensures r == Parse(s)
  {
    var i := 0;
    assert s[0..] == s;
    while i < |s| && IsBlank(s[i])
      invariant 0 <= i <= |s| && SkipBlanks(s[i..]) == SkipBlanks(s)
    {
      assert s[i..][1..] == s[i + 1..];
      i := i + 1;
    }
    ghost var t := s[i..];
    assert SkipBlanks(t) == t;
    var neg := false;
    if i < |s| && s[i] == '-' {
      neg, i := true, i + 1;
    } else if i < |s| && s[i] == '+' {
      i := i + 1;
    }
    ghost var digits := s[i..];
    assert t != "" ==> t[1..] == s[|s| - |t| + 1..];
    var val := 0;
    while i < |s| && IsDigit(s[i])
      invariant 0 <= i <= |s| && 0 <= val && Accumulate(s[i..], val) == Accumulate(digits, 0)
    {
      assert s[i..][1..] == s[i + 1..];
      val := (val * 10 + DigitValue(s[i])) % Bits.W;
      i := i + 1;
    }
    r := if neg then Wrap(-(val as int)) else Wrap(val);
  }

  predicate AllDigits(s: string) {
    forall i :: 0 <= i < |s| ==> IsDigit(s[i])
  }

  /** The number a string of digits stands for. */
  function Decimal(s: string): nat
    requires AllDigits(s)
  {
    if s == "" then 0 else Decimal(s[..|s| - 1]) * 10 + DigitValue(s[|s| - 1])
  }

  /** The loop reads digits as that number, modulo 2^32, and stops behind them. */
  lemma {:induction false} AccumulateAll(a: string, b: string, tail: string)
    requires AllDigits(a) && AllDigits(b) && (tail != "" ==> !IsDigit(tail[0]))
    ensures Accumulate(b + tail, Decimal(a) % Bits.W) == Decimal(a + b) % Bits.W
    decreases |b|
  {
    if b == "" {
      assert a + b == a && b + tail == tail;
    } else {
      var c := [b[0]];
      assert b + tail == c + (b[1..] + tail);
      assert (b + tail)[1..] == b[1..] + tail;
      assert (a + c)[..|a + c| - 1] == a;
      assert Decimal(a + c) == Decimal(a) * 10 + DigitValue(b[0]);
      MultiplyWrapped(Decimal(a), DigitValue(b[0]));
      AccumulateAll(a + c, b[1..], tail);
      assert a + c + b[1..] == a + b;
    }
  }

  lemma ReadAll(ds: string, tail: string)
    requires AllDigits(ds) && (tail != "" ==> !IsDigit(tail[0]))
    ensures Accumulate(ds + tail, 0) == Decimal(ds) % Bits.W
  {
    assert Decimal("") % Bits.W == 0;
    AccumulateAll("", ds, tail);
    assert "" + ds == ds;
  }

  lemma MultiplyWrapped(x: nat, d: nat)
    ensures (x % Bits.W * 10 + d) % Bits.W == (x * 10 + d) % Bits.W
  {
    var q := x / Bits.W;
    assert x * 10 + d == Bits.W * (10 * q) + (x % Bits.W * 10 + d);
  }

  lemma {:induction false} SkipSpaces(k: nat, s: string)
    requires s != "" ==> !IsBlank(s[0])
    ensures SkipBlanks(Repeat(' ', k) + s) == s
  {
    if k == 0 {
      assert Repeat(' ', k) + s == s;
    } else {
      assert (Repeat(' ', k) + s)[1..] == Repeat(' ', k - 1) + s;
      SkipSpaces(k - 1, s);
    }
  }

  function Sign(neg: bool): string {
    if neg then "-" else ""
  }

  function Negated(neg: bool, n: nat): int {
    if neg then -(n as int) else n
  }

  lemma WrapCongruent(x: int)
    ensures (x - Wrap(x)) % Bits.W == 0
  {
    var q, r := x / Bits.W, x % Bits.W;
    assert x == Bits.W * q + r;
    if r < Bits.W / 2 { Bits.DivModUnique(x - Wrap(x), Bits.W, q, 0); } else { Bits.DivModUnique(x - Wrap(x), Bits.W, q + 1, 0); }
  }

  lemma WrapWrapped(neg: bool, n: nat)
    ensures Wrap(Negated(neg, n % Bits.W)) == Wrap(Negated(neg, n))
  {
    var q, y := n / Bits.W, n % Bits.W;
    if neg {
      var m: int := -(y as int);
      var c, r := m / Bits.W, m % Bits.W;
      Bits.DivModUnique(-(n as int), Bits.W, c - q, r);
    }
  }

  lemma ParseSigned(k: nat, neg: bool, ds: string, tail: string, t: string)
    requires ds != "" && IsDigit(ds[0]) && t == Sign(neg) + ds + tail
    ensures Parse(Repeat(' ', k) + t) == Wrap(Negated(neg, Accumulate(ds + tail, 0)))
  {
    assert t[0] == if neg then '-' else ds[0];
    SkipSpaces(k, t);
    if neg {
      assert t[1..] == ds + tail;
    } else {
      assert t == ds + tail;
      assert t[0] != '-' && t[0] != '+';
    }
  }

  /** What atoi makes of blanks, a sign, digits and whatever comes after them. */
  lemma ParseShape(k: nat, neg: bool, ds: string, tail: string)
    requires ds != "" && AllDigits(ds) && (tail != "" ==> !IsDigit(tail[0]))
    ensures Parse(Repeat(' ', k) + (Sign(neg) + ds + tail)) == Wrap(Negated(neg, Decimal(ds)))
  {
    ParseSigned(k, neg, ds, tail, Sign(neg) + ds + tail);
    ReadAll(ds, tail);
    WrapWrapped(neg, Decimal(ds));
  }

  /** The parts of a string, as atoi reads it: spaces and tabs, a sign or none, digits, and what
      comes after them. */
  predicate Parts(s: string, blanks: string, sign: string, ds: string, tail: string) {
    && s == blanks + (sign + ds + tail)
    && (forall i :: 0 <= i < |blanks| ==> blanks[i] == ' ' || blanks[i] == '\t')
    && (sign == "" || sign == "-" || sign == "+")
    && AllDigits(ds) && (tail != "" ==> !IsDigit(tail[0]))
    && (sign == "" && ds == "" && tail != "" ==> tail[0] !in {' ', '\t', '-', '+'})
  }

  /** atoi of any string is the number its digits spell, negated after a minus sign, as an int
      holds it; it is 0 where there are none. */
  lemma ParseTheorem(s: string, blanks: string, sign: string, ds: string, tail: string)
    requires Parts(s, blanks, sign, ds, tail)
    ensures var n := if sign == "-" then -(Decimal(ds) as int) else Decimal(ds);
            Parse(s) == Wrap(n) && -0x8000_0000 <= Parse(s) < 0x8000_0000 && (n - Parse(s)) % 0x1_0000_0000 == 0
  {
    WrapCongruent(if sign == "-" then -(Decimal(ds) as int) else Decimal(ds));
    var t := sign + ds + tail;
    assert t != "" ==> t[0] == if sign != "" then sign[0] else if ds != "" then ds[0] else tail[0];
    SkipBlanksAll(blanks, t);
    assert sign != "" ==> t[1..] == ds + tail;
    assert sign == "" ==> t == ds + tail;
    ReadAll(ds, tail);
    WrapWrapped(sign == "-", Decimal(ds));
  }

  lemma {:induction false} SkipBlanksAll(blanks: string, s: string)
    requires (forall i :: 0 <= i < |blanks| ==> IsBlank(blanks[i])) && (s != "" ==> !IsBlank(s[0]))
    ensures SkipBlanks(blanks + s) == s
  {
    if blanks == "" {
      assert blanks + s == s;
    } else {
      assert (blanks + s)[1..] == blanks[1..] + s;
      SkipBlanksAll(blanks[1..], s);
    }
  }

  /** Every string has such parts. */
  lemma EveryString(s: string) returns (blanks: string, sign: string, ds: string, tail: string)
    ensures Parts(s, blanks, sign, ds, tail)
  {
    var t, u;
    blanks, t := BlanksOff(s);
    if t != "" && (t[0] == '-' || t[0] == '+') {
      sign, u := [t[0]], t[1..];
    } else {
      sign, u := "", t;
    }
    ds, tail := DigitsOff(u);
    assert sign + (ds + tail) == sign + ds + tail;
    assert sign == "" && ds == "" ==> tail == t;
  }

  lemma {:induction false} BlanksOff(s: string) returns (blanks: string, t: string)
    ensures s == blanks + t && (t != "" ==> t[0] != ' ' && t[0] != '\t')
    ensures forall i :: 0 <= i < |blanks| ==> blanks[i] == ' ' || blanks[i] == '\t'
    decreases |s|
  {
    if s != "" && (s[0] == ' ' || s[0] == '\t') {
      blanks, t := BlanksOff(s[1..]);
      blanks := [s[0]] + blanks;
    } else {
      blanks, t := "", s;
    }
  }

  lemma {:induction false} DigitsOff(s: string) returns (ds: string, tail: string)
    ensures s == ds + tail && AllDigits(ds) && (tail != "" ==> !IsDigit(tail[0]))
    decreases |s|
  {
    if s != "" && IsDigit(s[0]) {
      ds, tail := DigitsOff(s[1..]);
      ds := [s[0]] + ds;
    } else {
      ds, tail := "", s;
    }
  }

  lemma {:induction false} DigitsDecimal(n: nat)
    ensures AllDigits(Digits(n, 10)) && Decimal(Digits(n, 10)) == n
  {
    QuotRem(n, 10);
    if n < 10 {
      assert Digits(n, 10)[..0] == "";
    } else {
      var q := Quot(n, 10);
      DigitsDecimal(q);
      var s := Digits(q, 10);
      assert Digits(n, 10) == s + [Digit(Rem(n, 10))];
      assert (s + [Digit(Rem(n, 10))])[..|s|] == s;
    }
  }

  /** What a string of modifiers makes of a field. */
  function Modified(f: Pct, mods: string): (r: Pct)
    requires f.Field? && forall i :: 0 <= i < |mods| ==> IsModifier(mods[i])
    ensures r.Field?
    decreases |mods|
  {
    if mods == "" then f else Modified(Modify(f, mods[0]), mods[1..])
  }

  lemma {:induction false} FieldOutput(mods: string, f: Pct, args: nat -> Arg)
    requires f.Field? && forall i :: 0 <= i < |mods| ==> IsModifier(mods[i])
    ensures Output(mods + "d", f, args, 0) == Number(Modified(f, mods), 'd', args(0).bits)
    decreases |mods|
  {
    if mods == "" {
      assert mods + "d" == "d" && "d"[1..] == "";
    } else {
      assert (mods + "d")[1..] == mods[1..] + "d";
      FieldOutput(mods[1..], Modify(f, mods[0]), args);
    }
  }

  lemma {:induction false} ZerosBefore(p: nat, ds: string)
    requires AllDigits(ds)
    ensures AllDigits(Repeat('0', p) + ds) && Decimal(Repeat('0', p) + ds) == Decimal(ds)
    decreases |ds|, p
  {
    if ds == "" {
      assert Repeat('0', p) + ds == Repeat('0', p);
      if p > 0 {
        assert Repeat('0', p)[..p - 1] == Repeat('0', p - 1);
        ZerosBefore(p - 1, "");
        assert Repeat('0', p - 1) + "" == Repeat('0', p - 1);
      }
    } else {
      var n := |ds| - 1;
      var all := Repeat('0', p) + ds;
      assert all[..|all| - 1] == Repeat('0', p) + ds[..n];
      ZerosBefore(p, ds[..n]);
    }
  }

  lemma {:induction false} ZerosAfter(p: nat, ds: string)
    requires AllDigits(ds)
    ensures AllDigits(ds + Repeat('0', p)) && Decimal(ds + Repeat('0', p)) == Decimal(ds) * Power(10, p)
  {
    if p == 0 {
      assert ds + Repeat('0', p) == ds;
    } else {
      var all := ds + Repeat('0', p);
      assert all[..|all| - 1] == ds + Repeat('0', p - 1);
      ZerosAfter(p - 1, ds);
      TimesTen(Decimal(ds), Power(10, p - 1));
    }
  }

  lemma TimesTen(d: nat, p: nat)
    ensures d * p * 10 == d * (10 * p)
  {
  }

  /** An odd factor can be cancelled when counting powers of two. */
  lemma {:induction false} OddCancel(a: nat, m: nat, k: nat, c: nat) returns (d: nat)
    requires m % 2 == 1 && a * m == Bits.Pow2(k) * c
    ensures a == Bits.Pow2(k) * d
  {
    if k == 0 {
      d := a;
    } else {
      var p := Bits.Pow2(k - 1);
      assert Bits.Pow2(k) * c == 2 * (p * c);
      HalveEven(a, m, p * c);
      d := OddCancel(a / 2, m, k - 1, c);
      assert 2 * (p * d) == Bits.Pow2(k) * d;
    }
  }

  lemma HalveEven(a: nat, m: nat, x: int)
    requires m % 2 == 1 && a * m == 2 * x
    ensures a == 2 * (a / 2) && a / 2 * m == x
  {
    var h, b := m / 2, a / 2;
    assert a * m == 2 * (a * h) + a by { assert m == 2 * h + 1; assert a * (2 * h + 1) == 2 * (a * h) + a; }
    assert a == 2 * b;
    assert (2 * b) * m == 2 * (b * m);
  }

  lemma {:induction false} PowerPositive(p: nat)
    ensures Power(10, p) >= 1
  {
    if p == 0 {
    } else {
      PowerPositive(p - 1);
    }
  }

  lemma TenPowerEven(p: nat)
    requires p > 0
    ensures Power(10, p) % 2 == 0 && Power(10, p) >= 10
  {
    var q := Power(10, p - 1);
    PowerPositive(p - 1);
    assert Power(10, p) == 10 * q;
  }

  /** Zeros behind a number that is not zero always change what an int can hold of it. */
  lemma ZerosMatter(neg: bool, a: nat, p: nat)
    requires 0 < a < Bits.W && p > 0 && -(Bits.W / 2) <= Negated(neg, a) < Bits.W / 2
    ensures Wrap(Negated(neg, a * Power(10, p))) != Negated(neg, a)
  {
    var t := Power(10, p);
    TenPowerEven(p);
    var x := LessOne(a, t);
    NotWhole(a, t, x);
    WrapDiffers(neg, a, x);
  }

  lemma NotWhole(a: nat, t: nat, x: nat)
    requires 0 < a < Bits.W && t > 0 && t % 2 == 0 && x == a * (t - 1)
    ensures x != Bits.W * (x / Bits.W)
  {
    NotMultiple(a, t - 1, x / Bits.W);
  }

  lemma LessOne(a: nat, t: nat) returns (x: nat)
    requires t > 0
    ensures x == a * (t - 1) && a * t == x + a
  {
    x := a * (t - 1);
  }

  lemma NotMultiple(a: nat, m: nat, c: nat)
    requires 0 < a < Bits.W && m % 2 == 1
    ensures a * m != Bits.W * c
  {
    Bits.Pow2Values();
    if a * m == Bits.W * c {
      var d := OddCancel(a, m, 32, c);
      assert false;
    }
  }

  lemma WrapDiffers(neg: bool, a: nat, x: nat)
    requires -(Bits.W / 2) <= Negated(neg, a) < Bits.W / 2 && x != Bits.W * (x / Bits.W)
    ensures Wrap(Negated(neg, x + a)) != Negated(neg, a)
  {
    var y := Negated(neg, x + a);
    var q := y / Bits.W;
    assert y == Bits.W * q + y % Bits.W;
  }

  /** How wide the padding of a field is. */
  function Room(f: Pct, neg: bool, a: nat): nat
    requires f.Field?
  {
    var len := |Sign(neg)| + |Digits(a, 10)|;
    if f.width > len then f.width - len else 0
  }

  lemma ParseZeroPadded(f: Pct, neg: bool, a: nat)
    requires f.Field? && f.zero && !f.left
    ensures Parse(Padded(f, Sign(neg), "", Digits(a, 10))) == Wrap(Negated(neg, a))
  {
    var ds, p := Digits(a, 10), Room(f, neg, a);
    DigitsDecimal(a);
    PaddedForms(f, Sign(neg), ds, p);
    ZerosBefore(p, ds);
    ParseShape(0, neg, Repeat('0', p) + ds, "");
  }

  lemma ParseSpacePadded(f: Pct, neg: bool, a: nat)
    requires f.Field? && !f.zero
    ensures Parse(Padded(f, Sign(neg), "", Digits(a, 10))) == Wrap(Negated(neg, a))
  {
    var ds, p := Digits(a, 10), Room(f, neg, a);
    DigitsDecimal(a);
    PaddedForms(f, Sign(neg), ds, p);
    if f.left { ParseShape(0, neg, ds, Repeat(' ', p)); } else { ParseShape(p, neg, ds, ""); }
  }

  /** Left-aligned and zero-filled: the zeros become part of the number. */
  lemma ParseZerosBehind(f: Pct, neg: bool, a: nat)
    requires f.Field? && f.zero && f.left
    ensures Parse(Padded(f, Sign(neg), "", Digits(a, 10))) == Wrap(Negated(neg, a * Power(10, Room(f, neg, a))))
  {
    var ds, p := Digits(a, 10), Room(f, neg, a);
    DigitsDecimal(a);
    PaddedForms(f, Sign(neg), ds, p);
    ZerosAfter(p, ds);
    ParseShape(0, neg, ds + Repeat('0', p), "");
  }

  /** When p zeros behind it leave a number as it was. */
  lemma ZerosChange(neg: bool, a: nat, p: nat)
    requires a < Bits.W && -(Bits.W / 2) <= Negated(neg, a) < Bits.W / 2
    ensures Wrap(Negated(neg, a * Power(10, p))) == Negated(neg, a) <==> p == 0 || a == 0
  {
    if a != 0 && p > 0 {
      ZerosMatter(neg, a, p);
    } else {
      assert a * Power(10, p) == a;
    }
  }

  lemma WrapFits(x: int)
    requires -(Bits.W / 2) <= x < Bits.W / 2
    ensures Wrap(x) == x
  {
    if x < 0 { Bits.DivModUnique(x, Bits.W, -1, x + Bits.W); }
  }

  /** The digits of a number in an int, with its sign, in a field. */
  lemma ParseField(f: Pct, neg: bool, a: nat)
    requires f.Field? && a < Bits.W && -(Bits.W / 2) <= Negated(neg, a) < Bits.W / 2
    ensures Parse(Padded(f, Sign(neg), "", Digits(a, 10))) == Negated(neg, a)
            <==> !(f.left && f.zero && Room(f, neg, a) > 0 && a != 0)
  {
    WrapFits(Negated(neg, a));
    if !f.zero {
      ParseSpacePadded(f, neg, a);
    } else if !f.left {
      ParseZeroPadded(f, neg, a);
    } else {
      ParseZerosBehind(f, neg, a);
      ZerosChange(neg, a, Room(f, neg, a));
    }
  }

  lemma PaddedForms(f: Pct, sign: string, ds: string, p: nat)
    requires f.Field? && p == if f.width > |sign| + |ds| then f.width - (|sign| + |ds|) else 0
    ensures !f.left && !f.zero ==> Padded(f, sign, "", ds) == Repeat(' ', p) + (sign + ds + "")
    ensures !f.left && f.zero ==> Padded(f, sign, "", ds) == Repeat(' ', 0) + (sign + (Repeat('0', p) + ds) + "")
    ensures f.left && !f.zero ==> Padded(f, sign, "", ds) == Repeat(' ', 0) + (sign + ds + Repeat(' ', p))
    ensures f.left && f.zero ==> Padded(f, sign, "", ds) == Repeat(' ', 0) + (sign + (ds + Repeat('0', p)) + "")
  {
    assert |sign| + |""| + |ds| == |sign| + |ds|;
    assert sign + "" == sign;
  }

  /** The same, of an argument's bits. */
  lemma ParseNumber(f: Pct, bits: nat, n: int)
    requires f.Field? && n == Signed(f.size, bits) && -(Bits.W / 2) <= n < Bits.W / 2
    ensures var digits := Digits(if n < 0 then -n else n, 10);
            Parse(Number(f, 'd', bits)) == n <==> !(f.left && f.zero && f.width > |Sign(n < 0)| + |digits| && n != 0)
  {
    var a := if n < 0 then -n else n;
    assert Number(f, 'd', bits) == Padded(f, Sign(n < 0), "", Digits(a, 10));
    ParseField(f, n < 0, a);
  }

  /** Printing an int with %d, under any modifiers, into a buffer with room for it, and parsing
      the result returns it, exactly unless zeros were put behind a number that is not zero,
      which takes both - and 0 and a field wider than the number. */
  lemma RoundTrip(mods: string, args: nat -> Arg, n: int, len: nat)
    requires forall i :: 0 <= i < |mods| ==> IsModifier(mods[i])
    requires var f := Modified(FRESH, mods); n == Signed(f.size, args(0).bits) && -(Bits.W / 2) <= n < Bits.W / 2
    requires len > |Output("%" + mods + "d", Text, args, 0)|
    ensures var f, out := Modified(FRESH, mods), Output("%" + mods + "d", Text, args, 0);
            var digits := Digits(if n < 0 then -n else n, 10);
            Parse(out[..Min(|out|, len - 1)]) == n
            <==> !(f.left && f.zero && f.width > |Sign(n < 0)| + |digits| && n != 0)
  {
    FormatOutput(mods, args);
    var out := Output("%" + mods + "d", Text, args, 0);
    assert out[..|out|] == out;
    ParseNumber(Modified(FRESH, mods), args(0).bits, n);
  }

  lemma FormatOutput(mods: string, args: nat -> Arg)
    requires forall i :: 0 <= i < |mods| ==> IsModifier(mods[i])
    ensures Output("%" + mods + "d", Text, args, 0) == Number(Modified(FRESH, mods), 'd', args(0).bits)
  {
    Cons('%', mods, "d");
    FieldStarts("%" + mods + "d", mods + "d", args);
    FieldOutput(mods, FRESH, args);
  }

  lemma Cons(c: char, a: string, b: string)
    ensures var s := [c] + a + b; s != "" && s[0] == c && s[1..] == a + b
  {
  }

  lemma FieldStarts(fmt: string, rest: string, args: nat -> Arg)
    requires fmt != "" && fmt[0] == '%' && fmt[1..] == rest
    ensures Output(fmt, Text, args, 0) == Output(rest, FRESH, args, 0)
  {
    assert Output(fmt, Text, args, 0) == "" + Output(rest, FRESH, args, 0);
  }

  /** For instance %-05d prints 7 as 70000. */
  lemma RoundTripFails(args: nat -> Arg)
    requires args(0).bits == 7
    ensures Output("%-05d", Text, args, 0) == "70000" && Parse("70000") == 70000
  {
    var f := Field(IntSz, 5, true, true, false);
    LeftZeroFive();
    assert "%" + "-05" + "d" == "%-05d";
    FormatOutput("-05", args);
    SevenPadded(f);
    assert Number(f, 'd', 7) == Padded(f, "", "", Digits(7, 10));
    SeventyThousand();
  }

  lemma LeftZeroFive()
    ensures Modified(FRESH, "-05") == Field(IntSz, 5, true, true, false)
  {
    var f1, f2, f3 := FRESH.(left := true), FRESH.(left := true, zero := true), Field(IntSz, 5, true, true, false);
    assert "-05"[1..] == "05" && "05"[1..] == "5" && "5"[1..] == "";
    assert Modified(f2, "5") == Modified(f3, "") == f3;
    assert Modified(f1, "05") == Modified(f2, "5");
    assert Modified(FRESH, "-05") == Modified(f1, "05");
  }

  lemma SevenPadded(f: Pct)
    requires f == Field(IntSz, 5, true, true, false)
    ensures Padded(f, "", "", Digits(7, 10)) == "70000"
  {
    assert Digits(7, 10) == [Digit(7)] == "7";
    PaddedForms(f, "", "7", 4);
    assert Repeat('0', 4) == "0000";
    assert Repeat(' ', 0) + ("" + ("7" + "0000") + "") == "70000";
  }

  lemma SeventyThousand()
    ensures Parse("70000") == 70000
  {
    assert "70000"[1..] == "0000" && "0000"[1..] == "000" && "000"[1..] == "00" && "00"[1..] == "0" && "0"[1..] == "";
    assert Accumulate("0", 7000) == Accumulate("", 70000) == 70000;
    assert Accumulate("00", 700) == Accumulate("0", 7000);
    assert Accumulate("000", 70) == Accumulate("00", 700);
    assert Accumulate("0000", 7) == Accumulate("000", 70);
    assert Accumulate("70000", 0) == Accumulate("0000", 7);
  }
}
