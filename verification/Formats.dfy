/** What printf prints, said of its output: numerals by the values of their characters, fields by
    width, alignment and fill, formats piece by piece. */
module Formats {

  import opened Collections
  import Bits
  import opened Printf
  import Atoi

  // ---- Numerals.

  /** The value of a digit character. */
  function CharValue(c: char): Option<nat> {
    if '0' <= c <= '9' then Some(c as int - '0' as int)
    else if 'a' <= c <= 'f' then Some(c as int - 'a' as int + 10)
    else None
  }

  predicate IsNumeral(s: string, base: nat) {
    s != "" && forall i :: 0 <= i < |s| ==> IsDigitOf(s[i], base)
  }

  predicate IsDigitOf(c: char, base: nat) {
    CharValue(c).Some? && CharValue(c).value < base
  }

  /** A numeral's value by position, most significant digit first; other characters count nothing. */
  function ValueOf(s: string, base: nat): nat {
    if s == "" then 0
    else ValueOf(s[..|s| - 1], base) * base + (var d := CharValue(s[|s| - 1]); if d.Some? then d.value else 0)
  }

  lemma DigitValue(d: nat)
    requires d < 16
    ensures CharValue(Digit(d)) == Some(d)
  {
    var table := "0123456789abcdef";
    assert |table| == 16;
  }

  /** The digits of n are a numeral of the base, with value n and no zero in front. */
  lemma {:induction false} DigitsTheorem(n: nat, base: nat)
    requires 2 <= base <= 16
    ensures IsNumeral(Digits(n, base), base) && ValueOf(Digits(n, base), base) == n
    ensures if n == 0 then Digits(n, base) == "0" else Digits(n, base)[0] != '0'
  {
    if n < base {
      DigitValue(n);
      var s := [Digit(n)];
      assert s[..|s| - 1] == "";
    } else {
      var q, r := Quot(n, base), Rem(n, base);
      QuotRem(n, base);
      DigitsTheorem(q, base);
      NumeralGrows(Digits(q, base), q, r, base, n);
    }
  }

  lemma NumeralGrows(s: string, q: nat, r: nat, base: nat, n: nat)
    requires IsNumeral(s, base) && ValueOf(s, base) == q && r < base <= 16 && n == base * q + r
    ensures var t := s + [Digit(r)]; IsNumeral(t, base) && ValueOf(t, base) == n && t[0] == s[0]
  {
    DigitValue(r);
    var t := s + [Digit(r)];
    assert t[..|s|] == s;
    ValueLast(t, base, q, r, n);
  }

  /** And they are the only such numeral. */
  lemma {:induction false} NumeralTheorem(s: string, base: nat)
    requires 2 <= base <= 16 && IsNumeral(s, base) && (|s| > 1 ==> s[0] != '0')
    ensures s == Digits(ValueOf(s, base), base)
  {
    var k := |s| - 1;
    var d := CharValue(s[k]).value;
    assert IsDigitOf(s[k], base);
    OnlyDigit(s[k], d);
    if k == 0 {
      OneDigit(s, base, d);
    } else {
      Front(s, base);
      NumeralTheorem(s[..k], base);
      Positive(s[..k], base);
      OneDigitMore(s, base, ValueOf(s[..k], base), d);
    }
  }

  lemma OneDigit(s: string, base: nat, d: nat)
    requires |s| == 1 && 2 <= base <= 16 && d < base && CharValue(s[0]) == Some(d) && Digit(d) == s[0]
    ensures s == Digits(ValueOf(s, base), base)
  {
    assert s[..0] == "" && s == [s[0]];
  }

  lemma OneDigitMore(s: string, base: nat, q: nat, d: nat)
    requires s != "" && 2 <= base <= 16 && q > 0 && d < base
    requires ValueOf(s[..|s| - 1], base) == q && s[..|s| - 1] == Digits(q, base)
    requires CharValue(s[|s| - 1]) == Some(d) && Digit(d) == s[|s| - 1]
    ensures s == Digits(ValueOf(s, base), base)
  {
    var k := |s| - 1;
    var v := AppendDigit(s[..k], q, s[k], d, base);
    ValueLast(s, base, q, d, v);
    assert s == s[..k] + [s[k]];
  }

  lemma ValueLast(s: string, base: nat, q: nat, d: nat, v: nat)
    requires s != "" && ValueOf(s[..|s| - 1], base) == q && CharValue(s[|s| - 1]) == Some(d) && v == q * base + d
    ensures ValueOf(s, base) == v
  {
  }

  lemma Front(s: string, base: nat)
    requires IsNumeral(s, base) && |s| > 1
    ensures IsNumeral(s[..|s| - 1], base)
  {
    var front := s[..|s| - 1];
    forall i | 0 <= i < |front| ensures IsDigitOf(front[i], base) { assert front[i] == s[i]; }
  }

  lemma AppendDigit(front: string, q: nat, c: char, d: nat, base: nat) returns (v: nat)
    requires 2 <= base <= 16 && q > 0 && d < base && front == Digits(q, base) && Digit(d) == c
    ensures v == q * base + d && front + [c] == Digits(v, base)
  {
    v := q * base + d;
    Recompose(q, d, base);
  }

  lemma OnlyDigit(c: char, d: nat)
    requires CharValue(c) == Some(d)
    ensures d < 16 && Digit(d) == c
  {
    DigitValue(d);
  }

  lemma {:induction false} Positive(s: string, base: nat)
    requires 2 <= base && IsNumeral(s, base) && s[0] != '0'
    ensures ValueOf(s, base) > 0
  {
    var k := |s| - 1;
    assert IsDigitOf(s[0], base);
    if k > 0 {
      Front(s, base);
      Positive(s[..k], base);
      assert ValueOf(s[..k], base) * base > 0;
    }
  }

  lemma Recompose(q: nat, d: nat, base: nat)
    requires q > 0 && d < base && base >= 2
    ensures q * base + d >= base && Quot(q * base + d, base) == q && Rem(q * base + d, base) == d
  {
    Bits.MulMono(1, q, base);
    QuotRem(q * base + d, base);
    Bits.DivModUnique(q * base + d, base, q, d);
  }

  // ---- Modifiers.

  /** What may stand between % and a conversion letter. */
  predicate Listed(c: char) {
    c in {'#', '-', 'l', 'z'} || '0' <= c <= '9'
  }

  predicate AllModifiers(mods: string) {
    forall i :: 0 <= i < |mods| ==> Listed(mods[i])
  }

  /** The digits among the modifiers, and the size letters. */
  function DigitsIn(mods: string): string {
    if mods == "" then ""
    else DigitsIn(mods[..|mods| - 1]) + (if '0' <= mods[|mods| - 1] <= '9' then [mods[|mods| - 1]] else "")
  }

  function SizesIn(mods: string): string {
    if mods == "" then ""
    else SizesIn(mods[..|mods| - 1]) + (if mods[|mods| - 1] == 'l' || mods[|mods| - 1] == 'z' then [mods[|mods| - 1]] else "")
  }

  /** How many l a string ends in. */
  function Ls(s: string): nat {
    if s != "" && s[|s| - 1] == 'l' then 1 + Ls(s[..|s| - 1]) else 0
  }

  /** A field's width is the number the digits spell; zeros fill if they begin with one. */
  predicate WidthFrom(f: Pct, ds: string)
    requires f.Field?
  {
    && (forall i :: 0 <= i < |ds| ==> '0' <= ds[i] <= '9')
    && f.width == ValueOf(ds, 10) && (f.zero <==> ds != "" && ds[0] == '0')
  }

  /** Each l after the last z takes turns between long and long long. */
  predicate SizeFrom(f: Pct, sizes: string)
    requires f.Field?
  {
    && (forall i :: 0 <= i < |sizes| ==> sizes[i] == 'l' || sizes[i] == 'z')
    && f.size == (if sizes == "" then IntSz else if Ls(sizes) == 0 then SizeTSz else if Ls(sizes) % 2 == 1 then LongSz else LLongSz)
  }

  /** What a string of modifiers makes of a field. */
  predicate Meant(f: Pct, mods: string)
    requires f.Field?
  {
    && (f.alt <==> '#' in mods) && (f.left <==> '-' in mods)
    && WidthFrom(f, DigitsIn(mods)) && SizeFrom(f, SizesIn(mods))
  }

  lemma {:induction false} ModifiersTheorem(mods: string)
    requires AllModifiers(mods)
    ensures Meant(Atoi.Modified(FRESH, mods), mods)
  {
    if mods != "" {
      var front, c := mods[..|mods| - 1], mods[|mods| - 1];
      ModifiersTheorem(front);
      ModifiedLast(FRESH, front, c);
      MeantOn(Atoi.Modified(FRESH, front), front, c);
      assert mods == front + [c];
    }
  }

  lemma MeantOn(f: Pct, front: string, c: char)
    requires f.Field? && IsModifier(c) && Meant(f, front)
    ensures Meant(Modify(f, c), front + [c])
  {
    Lasts(front, c);
    WidthGrows(f, DigitsIn(front), c);
    SizeGrows(f, SizesIn(front), c);
    FlagsGrow(f, front, c);
  }

  lemma FlagsGrow(f: Pct, front: string, c: char)
    requires f.Field? && IsModifier(c) && (f.alt <==> '#' in front) && (f.left <==> '-' in front)
    ensures (Modify(f, c).alt <==> '#' in front + [c]) && (Modify(f, c).left <==> '-' in front + [c])
  {
  }

  lemma Lasts(front: string, c: char)
    ensures DigitsIn(front + [c]) == DigitsIn(front) + (if '0' <= c <= '9' then [c] else "")
    ensures SizesIn(front + [c]) == SizesIn(front) + (if c == 'l' || c == 'z' then [c] else "")
  {
    assert (front + [c])[..|front|] == front;
  }

  lemma WidthGrows(f: Pct, ds: string, c: char)
    requires f.Field? && IsModifier(c) && WidthFrom(f, ds)
    ensures WidthFrom(Modify(f, c), ds + (if '0' <= c <= '9' then [c] else ""))
  {
    if '0' <= c <= '9' {
      assert (ds + [c])[..|ds|] == ds;
      if ds != "" && ds[0] != '0' { Positive(ds, 10); }
    } else {
      assert ds + "" == ds;
    }
  }

  lemma SizeGrows(f: Pct, sizes: string, c: char)
    requires f.Field? && IsModifier(c) && SizeFrom(f, sizes)
    ensures SizeFrom(Modify(f, c), sizes + (if c == 'l' || c == 'z' then [c] else ""))
  {
    assert (sizes + [c])[..|sizes|] == sizes;
    assert sizes + "" == sizes;
  }

  lemma {:induction false} ModifiedLast(f: Pct, mods: string, c: char)
    requires f.Field? && AllModifiers(mods) && IsModifier(c)
    ensures AllModifiers(mods + [c]) && Atoi.Modified(f, mods + [c]) == Modify(Atoi.Modified(f, mods), c)
    decreases |mods|
  {
    if mods == "" {
      assert mods + [c] == [c] && [c][1..] == "";
      assert Atoi.Modified(f, [c]) == Atoi.Modified(Modify(f, c), "");
    } else {
      assert (mods + [c])[1..] == mods[1..] + [c];
      ModifiedLast(Modify(f, mods[0]), mods[1..], c);
    }
  }

  // ---- Fields.

  predicate AllChar(s: string, c: char) {
    forall i :: 0 <= i < |s| ==> s[i] == c
  }

  /** head and body in a field: filled up to the width the modifiers give, behind with -, between
      the two if the fill is zeros, in front otherwise. */
  ghost predicate Laid(mods: string, head: string, body: string, out: string) {
    var ds := DigitsIn(mods);
    var width, zero := ValueOf(ds, 10), ds != "" && ds[0] == '0';
    exists fill: string ::
      && AllChar(fill, if zero then '0' else ' ')
      && |fill| == (if width > |head| + |body| then width - (|head| + |body|) else 0)
      && out == if '-' in mods then head + body + fill else if zero then head + fill + body else fill + head + body
  }

  lemma PaddedLaid(mods: string, prefix: string, prefix2: string, body: string)
    requires AllModifiers(mods)
    ensures Laid(mods, prefix + prefix2, body, Padded(Atoi.Modified(FRESH, mods), prefix, prefix2, body))
  {
    var f := Atoi.Modified(FRESH, mods);
    ModifiersTheorem(mods);
    var head, fill := prefix + prefix2, Padding(f, |prefix| + |prefix2| + |body|);
    assert AllChar(fill, if f.zero then '0' else ' ');
    Glue(prefix, prefix2, body, fill);
  }

  lemma Glue(a: string, b: string, body: string, fill: string)
    ensures "" + a + b + "" + body + fill == a + b + body + fill
    ensures "" + a + b + fill + body + "" == a + b + fill + body
    ensures fill + a + b + "" + body + "" == fill + (a + b) + body
  {
  }

  /** Whether the modifiers make an integer argument 64 bits wide: an even number of l, not zero,
      after the last z. */
  predicate Wide(mods: string) {
    Ls(SizesIn(mods)) > 0 && Ls(SizesIn(mods)) % 2 == 0
  }

  /** What an integer conversion shows of the argument's bits: %d a signed number of its size, %p a
      32-bit address, the others an unsigned number. */
  function Shown(mods: string, ch: char, bits: nat): int {
    var w := if Wide(mods) && ch != 'p' then 0x1_0000_0000_0000_0000 else 0x1_0000_0000;
    if ch == 'd' && bits % w >= w / 2 then bits % w - w else bits % w
  }

  /** The base a letter stands for, and its prefix. */
  predicate InBase(ch: char, alt: bool, base: nat, prefix: string) {
    match ch
    case 'd' => base == 10 && prefix == ""
    case 'u' => base == 10 && prefix == ""
    case 'o' => base == 8 && prefix == (if alt then "0" else "")
    case 'x' => base == 16 && prefix == (if alt then "0x" else "")
    case 'p' => base == 16 && prefix == "0x"
    case _ => false
  }

  /** The sign and the base prefix in front, and a numeral in that base for the magnitude. */
  ghost predicate Numbered(mods: string, ch: char, bits: nat, head: string, body: string) {
    var n := Shown(mods, ch, bits);
    exists base: nat, prefix: string ::
      && InBase(ch, '#' in mods, base, prefix)
      && head == (if n < 0 then "-" else "") + prefix
      && IsNumeral(body, base) && (|body| > 1 ==> body[0] != '0')
      && ValueOf(body, base) == if n < 0 then -n else n
  }

  /** What a conversion stands for. */
  ghost predicate Shows(mods: string, ch: char, arg: Arg, out: string) {
    exists head: string, body: string ::
      && Laid(mods, head, body, out)
      && match ch
         case 's' => head == "" && body == (if arg.text.Some? then arg.text.value else "(null)")
         case 'c' => head == "" && body == (if arg.bits % 256 == 0 then "" else [(arg.bits % 256) as char])
         case _ => if ch in {'d', 'o', 'u', 'x', 'p'} then Numbered(mods, ch, arg.bits, head, body) else head == "" && body == [ch]
  }

  lemma ShownMagnitude(mods: string, ch: char, bits: nat)
    requires AllModifiers(mods) && IsInteger(ch)
    ensures var f, n := Atoi.Modified(FRESH, mods), Shown(mods, ch, bits);
            && Magnitude(f, ch, bits) == (if n < 0 then -n else n) && (n < 0 <==> ch == 'd' && Signed(f.size, bits) < 0)
  {
    ModifiersTheorem(mods);
  }

  lemma NumberIs(mods: string, ch: char, bits: nat) returns (sign: string, prefix: string, m: nat)
    requires AllModifiers(mods) && IsInteger(ch)
    ensures var f, n := Atoi.Modified(FRESH, mods), Shown(mods, ch, bits);
            && Number(f, ch, bits) == Padded(f, sign, prefix, Digits(m, Base(ch)))
            && sign == (if n < 0 then "-" else "") && m == (if n < 0 then -n else n)
            && InBase(ch, '#' in mods, Base(ch), prefix)
  {
    var f := Atoi.Modified(FRESH, mods);
    ModifiersTheorem(mods);
    ShownMagnitude(mods, ch, bits);
    m := Magnitude(f, ch, bits);
    sign, prefix := if ch == 'd' && Signed(f.size, bits) < 0 then "-" else "", BasePrefix(f, ch);
  }

  lemma IsNumbered(mods: string, ch: char, bits: nat, sign: string, prefix: string, m: nat)
    requires var n := Shown(mods, ch, bits); sign == (if n < 0 then "-" else "") && m == if n < 0 then -n else n
    requires InBase(ch, '#' in mods, Base(ch), prefix)
    ensures Numbered(mods, ch, bits, sign + prefix, Digits(m, Base(ch)))
  {
    DigitsTheorem(m, Base(ch));
  }

  lemma ShowsNumber(mods: string, ch: char, arg: Arg, head: string, body: string, out: string)
    requires IsInteger(ch) && Numbered(mods, ch, arg.bits, head, body) && Laid(mods, head, body, out)
    ensures Shows(mods, ch, arg, out)
  {
  }

  lemma NumberShows(mods: string, ch: char, arg: Arg)
    requires AllModifiers(mods) && IsInteger(ch)
    ensures Shows(mods, ch, arg, Number(Atoi.Modified(FRESH, mods), ch, arg.bits))
  {
    var sign, prefix, m := NumberIs(mods, ch, arg.bits);
    var body := Digits(m, Base(ch));
    IsNumbered(mods, ch, arg.bits, sign, prefix, m);
    PaddedLaid(mods, sign, prefix, body);
    ShowsNumber(mods, ch, arg, sign + prefix, body, Number(Atoi.Modified(FRESH, mods), ch, arg.bits));
  }

  lemma FieldShows(mods: string, ch: char, arg: Arg)
    requires AllModifiers(mods) && !IsModifier(ch)
    ensures Shows(mods, ch, arg, Emit(Atoi.Modified(FRESH, mods), ch, arg))
  {
    if IsInteger(ch) {
      NumberShows(mods, ch, arg);
    } else {
      assert "" + "" == "";
      var body := if ch == 's' then (if arg.text == None then "(null)" else arg.text.value) else if ch == 'c' then One(arg.bits) else [ch];
      PaddedLaid(mods, "", "", body);
    }
  }

  // ---- Whole formats.

  /** Text without %, or a % with modifiers and a conversion. */
  datatype Piece = Plain(text: string) | Conversion(mods: string, ch: char)

  predicate PieceOk(p: Piece) {
    match p
    case Plain(text) => '%' !in text
    case Conversion(mods, ch) => AllModifiers(mods) && !Listed(ch)
  }

  function Written(p: Piece): string {
    if p.Plain? then p.text else "%" + p.mods + [p.ch]
  }

  function Format(pieces: seq<Piece>): string {
    if pieces == [] then "" else Written(pieces[0]) + Format(pieces[1..])
  }

  /** Which of a piece's kinds use up an argument. */
  predicate Uses(p: Piece) {
    p.Conversion? && p.ch in "douxpsc"
  }

  function Concat(outs: seq<string>): string {
    if outs == [] then "" else outs[0] + Concat(outs[1..])
  }

  ghost predicate Printed(p: Piece, arg: Arg, out: string) {
    match p
    case Plain(text) => out == text
    case Conversion(mods, ch) => Shows(mods, ch, arg, out)
  }

  lemma {:induction false} PlainOutput(text: string, rest: string, args: nat -> Arg, k: nat)
    requires '%' !in text
    ensures Output(text + rest, Text, args, k) == text + Output(rest, Text, args, k)
    decreases |text|
  {
    if text == "" {
      assert text + rest == rest;
    } else {
      var c, more, out := [text[0]], text[1..], Output(rest, Text, args, k);
      PlainOutput(more, rest, args, k);
      PlainChar(text[0], more + rest, args, k);
      assert text == c + more && c + more + rest == c + (more + rest) && c + (more + out) == c + more + out;
    }
  }

  lemma PlainChar(c: char, rest: string, args: nat -> Arg, k: nat)
    requires c != '%'
    ensures Output([c] + rest, Text, args, k) == [c] + Output(rest, Text, args, k)
  {
    assert ([c] + rest)[1..] == rest;
  }

  lemma {:induction false} ModifierOutput(mods: string, f: Pct, rest: string, args: nat -> Arg, k: nat)
    requires f.Field? && AllModifiers(mods)
    ensures Output(mods + rest, f, args, k) == Output(rest, Atoi.Modified(f, mods), args, k)
    decreases |mods|
  {
    if mods == "" {
      assert mods + rest == rest;
    } else {
      assert (mods + rest)[1..] == mods[1..] + rest;
      ModifierOutput(mods[1..], Modify(f, mods[0]), rest, args, k);
    }
  }

  lemma ConversionOutput(mods: string, ch: char, rest: string, args: nat -> Arg, k: nat)
    requires AllModifiers(mods) && !IsModifier(ch)
    ensures Output("%" + mods + [ch] + rest, Text, args, k) ==
            Emit(Atoi.Modified(FRESH, mods), ch, args(k)) + Output(rest, Text, args, if ch in "douxpsc" then k + 1 else k)
  {
    var fmt, tail := "%" + mods + [ch] + rest, [ch] + rest;
    assert fmt[1..] == mods + tail;
    assert Output(fmt, Text, args, k) == "" + Output(mods + tail, FRESH, args, k);
    ModifierOutput(mods, FRESH, tail, args, k);
    assert tail[1..] == rest;
    assert ch in "douxpsc" <==> IsInteger(ch) || ch == 's' || ch == 'c';
  }

  /** Each piece has its output, and each conversion its argument. */
  ghost predicate AllPrinted(pieces: seq<Piece>, args: nat -> Arg, k: nat, outs: seq<string>)
    requires |outs| == |pieces|
  {
    pieces == [] || (Printed(pieces[0], args(k), outs[0]) && AllPrinted(pieces[1..], args, if Uses(pieces[0]) then k + 1 else k, outs[1..]))
  }

  /** A conversion that the format ends in the middle of. */
  predicate Cut(tail: string) {
    tail == "" || (tail[0] == '%' && AllModifiers(tail[1..]))
  }

  /** Every format is made of such pieces, but for an unfinished conversion at its end. */
  lemma {:induction false} Pieces(fmt: string) returns (pieces: seq<Piece>, tail: string)
    ensures fmt == Format(pieces) + tail && Cut(tail) && forall p :: p in pieces ==> PieceOk(p)
    decreases |fmt|
  {
    var first, rest := FirstPiece(fmt);
    if first == None {
      pieces, tail := [], fmt;
      assert "" + fmt == fmt;
    } else {
      pieces, tail := Pieces(rest);
      pieces := Prepend(first.value, rest, pieces, tail, fmt);
    }
  }

  lemma FirstPiece(fmt: string) returns (first: Option<Piece>, rest: string)
    ensures first == None ==> Cut(fmt)
    ensures first.Some? ==> PieceOk(first.value) && fmt == Written(first.value) + rest && |rest| < |fmt|
  {
    first, rest := None, "";
    if fmt != "" && fmt[0] != '%' {
      first, rest := Some(Plain([fmt[0]])), fmt[1..];
      assert fmt == [fmt[0]] + rest;
    } else if fmt != "" {
      var n := ModifiersAt(fmt, 1);
      if n == |fmt| {
        assert fmt[1..n] == fmt[1..];
      } else {
        first, rest := Some(Conversion(fmt[1..n], fmt[n])), fmt[n + 1..];
        assert fmt == "%" + fmt[1..n] + [fmt[n]] + rest;
      }
    }
  }

  lemma Prepend(p: Piece, rest: string, pieces': seq<Piece>, tail: string, fmt: string) returns (pieces: seq<Piece>)
    requires PieceOk(p) && (forall q :: q in pieces' ==> PieceOk(q)) && rest == Format(pieces') + tail && fmt == Written(p) + rest
    ensures fmt == Format(pieces) + tail && forall q :: q in pieces ==> PieceOk(q)
  {
    pieces := [p] + pieces';
    assert pieces[1..] == pieces';
    assert Written(p) + (Format(pieces') + tail) == Written(p) + Format(pieces') + tail;
  }

  lemma {:induction false} ModifiersAt(fmt: string, i: nat) returns (n: nat)
    requires i <= |fmt|
    ensures i <= n <= |fmt| && AllModifiers(fmt[i..n]) && (n < |fmt| ==> !IsModifier(fmt[n]))
    decreases |fmt| - i
  {
    if i == |fmt| || !IsModifier(fmt[i]) {
      n := i;
    } else {
      n := ModifiersAt(fmt, i + 1);
      forall j | 0 <= j < |fmt[i..n]| ensures Listed(fmt[i..n][j]) { assert j > 0 ==> fmt[i..n][j] == fmt[i + 1..n][j - 1]; }
    }
  }

  lemma CutPrintsNothing(tail: string, args: nat -> Arg, k: nat)
    requires Cut(tail)
    ensures Output(tail, Text, args, k) == ""
  {
    if tail != "" {
      var mods := tail[1..];
      ModifierOutput(mods, FRESH, "", args, k);
      assert mods + "" == mods;
    }
  }

  /** The output of any format is that of its pieces in order. */
  lemma FormatTheorem(fmt: string, args: nat -> Arg) returns (pieces: seq<Piece>, tail: string, outs: seq<string>)
    ensures fmt == Format(pieces) + tail && Cut(tail) && forall p :: p in pieces ==> PieceOk(p)
    ensures |outs| == |pieces| && Output(fmt, Text, args, 0) == Concat(outs) && AllPrinted(pieces, args, 0, outs)
  {
    pieces, tail := Pieces(fmt);
    outs := PiecesOutput(pieces, tail, args, 0);
  }

  lemma {:induction false} PiecesOutput(pieces: seq<Piece>, tail: string, args: nat -> Arg, k: nat) returns (outs: seq<string>)
    requires Cut(tail) && forall p :: p in pieces ==> PieceOk(p)
    ensures |outs| == |pieces| && Output(Format(pieces) + tail, Text, args, k) == Concat(outs) && AllPrinted(pieces, args, k, outs)
    decreases |pieces|
  {
    if pieces == [] {
      outs := [];
      assert Format(pieces) + tail == tail;
      CutPrintsNothing(tail, args, k);
    } else {
      var p, rest := pieces[0], pieces[1..];
      var outs' := PiecesOutput(rest, tail, args, if Uses(p) then k + 1 else k);
      var out := PieceOutput(p, Format(rest) + tail, args, k);
      outs := [out] + outs';
      assert outs[1..] == outs';
      assert Written(p) + Format(rest) + tail == Written(p) + (Format(rest) + tail);
    }
  }

  lemma PieceOutput(p: Piece, rest: string, args: nat -> Arg, k: nat) returns (out: string)
    requires PieceOk(p)
    ensures Output(Written(p) + rest, Text, args, k) == out + Output(rest, Text, args, if Uses(p) then k + 1 else k)
    ensures Printed(p, args(k), out)
  {
    match p
    case Plain(text) =>
      PlainOutput(text, rest, args, k);
      out := text;
    case Conversion(mods, ch) =>
      ConversionOutput(mods, ch, rest, args, k);
      FieldShows(mods, ch, args(k));
      out := Emit(Atoi.Modified(FRESH, mods), ch, args(k));
  }
}
