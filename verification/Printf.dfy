/** printf into a buffer: the character-by-character format machine, number conversion and
    snprintf. */
module Printf {

  import opened Collections
  import Bits

  const NUMBER_BUF_SIZE := 23   // 64 / 3 + 2

  /** An argument: its bits, as wide as a long long, or a string that may be NULL. */
  datatype Arg = Arg(bits: nat, text: Option<string>)

  datatype Size = IntSz | LongSz | LLongSz | SizeTSz

  /** Between fields, or inside one with what the modifiers have set so far. */
  datatype Pct = Text | Field(size: Size, width: nat, left: bool, zero: bool, alt: bool)

  const FRESH := Field(IntSz, 0, false, false, false)

  predicate IsModifier(ch: char) {
    ch == '#' || ch == '-' || ch == 'l' || ch == 'z' || '0' <= ch <= '9'
  }

  predicate IsInteger(ch: char) {
    ch == 'd' || ch == 'o' || ch == 'u' || ch == 'p' || ch == 'x'
  }

  function Modify(f: Pct, ch: char): Pct
    requires f.Field? && IsModifier(ch)
  {
    if ch == '#' then f.(alt := true)
    else if ch == '-' then f.(left := true)
    else if ch == 'l' then f.(size := if f.size == LongSz then LLongSz else LongSz)
    else if ch == 'z' then f.(size := SizeTSz)
    else if ch == '0' && f.width == 0 then f.(zero := true)
    else f.(width := f.width * 10 + (ch as int - '0' as int))
  }

  /** An int, a long and a size_t have 32 bits; a long long has 64. */
  function Truncate(size: Size, bits: nat): (r: nat)
    ensures r < Bits.D
  {
    if size == LLongSz then bits % Bits.D else bits % Bits.W
  }

  function Signed(size: Size, bits: nat): int {
    var v := Truncate(size, bits);
    var w := if size == LLongSz then Bits.D else Bits.W;
    if v < w / 2 then v else v - w
  }

  /** What a long long holds of x. */
  function LongLong(x: int): int {
    if x % Bits.D < Bits.D / 2 then x % Bits.D else x % Bits.D - Bits.D
  }

  lemma NegateLong(x: int)
    requires -(Bits.D / 2) <= x < 0
    ensures LongLong(-x) % Bits.D == -x
  {
    if x == -(Bits.D / 2) {
      Bits.DivModUnique(LongLong(-x), Bits.D, -1, -x);
    }
  }

  function Base(ch: char): (b: nat)
    ensures 8 <= b <= 16
  {
    if ch == 'd' || ch == 'u' then 10 else if ch == 'o' then 8 else 16
  }

  function Digit(d: nat): char
    requires d < 16
  {
    "0123456789abcdef"[d]
  }

  /** Quotient and remainder, by repeated subtraction. */
  function Quot(n: nat, b: nat): (q: nat)
    requires b >= 2
    ensures q <= n && (n > 0 ==> q < n) && (q > 0 <==> n >= b)
  {
    if n < b then 0 else 1 + Quot(n - b, b)
  }

  function Rem(n: nat, b: nat): (r: nat)
    requires b >= 2
    ensures r < b
  {
    if n < b then n else Rem(n - b, b)
  }

  lemma {:induction false} QuotRem(n: nat, b: nat)
    requires b >= 2
    ensures n == b * Quot(n, b) + Rem(n, b)
    ensures Quot(n, b) == n / b && Rem(n, b) == n % b
  {
    if n >= b {
      QuotRem(n - b, b);
      assert b * (1 + Quot(n - b, b)) == b + b * Quot(n - b, b);
    }
    Bits.DivModUnique(n, b, Quot(n, b), Rem(n, b));
  }

  /** The digits of n, most significant first, at least one. */
  function Digits(n: nat, base: nat): (s: string)
    requires 2 <= base <= 16
    ensures |s| > 0
  {
    if n < base then [Digit(n)] else Digits(Quot(n, base), base) + [Digit(Rem(n, base))]
  }

  function Repeat(c: char, n: nat): (s: string)
    ensures |s| == n && forall i :: 0 <= i < n ==> s[i] == c
  {
    if n == 0 then "" else [c] + Repeat(c, n - 1)
  }

  function Padding(f: Pct, len: nat): string
    requires f.Field?
  {
    Repeat(if f.zero then '0' else ' ', if f.width > len then f.width - len else 0)
  }

  /** A string in its field: spaces go before the prefixes, zeros after them, and either goes
      behind everything when the field is left-aligned. */
  function Padded(f: Pct, prefix: string, prefix2: string, stuff: string): string
    requires f.Field?
  {
    var pad := Padding(f, |prefix| + |prefix2| + |stuff|);
    (if !f.left && !f.zero then pad else "")
    + prefix + prefix2
    + (if !f.left && f.zero then pad else "")
    + stuff
    + (if f.left then pad else "")
  }

  function BasePrefix(f: Pct, ch: char): string
    requires f.Field?
  {
    if (f.alt || ch == 'p') && Base(ch) == 16 then "0x" else if f.alt && Base(ch) == 8 then "0" else ""
  }

  /** What an integer conversion shows. */
  function Magnitude(f: Pct, ch: char, bits: nat): (r: nat)
    requires f.Field?
    ensures r < Bits.D
  {
    if ch == 'p' then bits % Bits.W
    else if ch == 'd' then (if Signed(f.size, bits) < 0 then -Signed(f.size, bits) else Signed(f.size, bits))
    else Truncate(f.size, bits)
  }

  function Number(f: Pct, ch: char, bits: nat): string
    requires f.Field?
  {
    Padded(f, if ch == 'd' && Signed(f.size, bits) < 0 then "-" else "", BasePrefix(f, ch),
           Digits(Magnitude(f, ch, bits), Base(ch)))
  }

  lemma NumberParts(f: Pct, ch: char, bits: nat)
    requires f.Field?
    ensures var prefixed, base := f.alt || ch == 'p', Base(ch);
            Number(f, ch, bits) ==
            Padded(f, if ch == 'd' && Signed(f.size, bits) < 0 then "-" else "",
                   if prefixed && base == 16 then "0x" else if prefixed && base == 8 then "0" else "",
                   Digits(Magnitude(f, ch, bits), base))
  {
  }

  /** A character argument: nothing at all if it is NUL. */
  function One(bits: nat): string {
    if bits % 256 == 0 then "" else [(bits % 256) as char]
  }

  /** What one character of the format prints, given the next argument. */
  function Emit(st: Pct, ch: char, arg: Arg): string {
    if st == Text then (if ch == '%' then "" else [ch])
    else if IsModifier(ch) then ""
    else if IsInteger(ch) then Number(st, ch, arg.bits)
    else if ch == 's' then Padded(st, "", "", if arg.text == None then "(null)" else arg.text.value)
    else if ch == 'c' then Padded(st, "", "", One(arg.bits))
    else Padded(st, "", "", [ch])
  }

  function Next(st: Pct, ch: char): Pct {
    if st == Text then (if ch == '%' then FRESH else Text)
    else if IsModifier(ch) then Modify(st, ch)
    else Text
  }

  /** Whether it uses up the argument. */
  predicate Takes(st: Pct, ch: char) {
    st.Field? && !IsModifier(ch) && (IsInteger(ch) || ch == 's' || ch == 'c')
  }

  /** The whole output. */
  function Output(fmt: string, st: Pct, args: nat -> Arg, k: nat): string {
    if fmt == "" then ""
    else Emit(st, fmt[0], args(k)) + Output(fmt[1..], Next(st, fmt[0]), args, if Takes(st, fmt[0]) then k + 1 else k)
  }

  function Power(base: nat, k: nat): nat {
    if k == 0 then 1 else base * Power(base, k - 1)
  }

  lemma {:induction false} DigitsLength(n: nat, base: nat, k: nat)
    requires 2 <= base <= 16 && k > 0 && n < Power(base, k)
    ensures |Digits(n, base)| <= k
  {
    var p := Power(base, k - 1);
    assert Power(base, k) == base * p;
    if k == 1 {
      assert p == 1;
    } else if n >= base {
      QuotientBelow(n, base, p);
      DigitsLength(Quot(n, base), base, k - 1);
    }
  }

  lemma QuotientBelow(n: nat, base: nat, p: nat)
    requires base >= 2 && n < base * p
    ensures Quot(n, base) < p
  {
    var q := Quot(n, base);
    QuotRem(n, base);
    if q >= p { Bits.MulMono(p, q, base); }
  }

  /** Any 64-bit number, in any base the formats offer, fits the buffer with its NUL. */
  lemma NumberFits(n: nat, base: nat)
    requires n < Bits.D && 8 <= base <= 16
    ensures |Digits(n, base)| + 1 <= NUMBER_BUF_SIZE
  {
    PowerMono(8, base, 22);
    EightTo22();
    DigitsLength(n, base, 22);
  }

  lemma EightTo22()
    ensures Power(8, 22) >= Bits.D
  {
    assert Power(8, 4) == 4096;
    PowerSplit(8, 4, 4);
    PowerSplit(8, 8, 8);
    PowerSplit(8, 16, 6);
    assert Power(8, 6) == 262144 by { PowerSplit(8, 4, 2); assert Power(8, 2) == 64; }
  }

  lemma {:induction false} PowerSplit(b: nat, i: nat, j: nat)
    ensures Power(b, i + j) == Power(b, i) * Power(b, j)
  {
    if i == 0 {
    } else {
      PowerSplit(b, i - 1, j);
      assert b * (Power(b, i - 1) * Power(b, j)) == b * Power(b, i - 1) * Power(b, j);
    }
  }

  lemma {:induction false} PowerMono(a: nat, b: nat, k: nat)
    requires a <= b
    ensures Power(a, k) <= Power(b, k)
  {
    if k == 0 {
    } else {
      PowerMono(a, b, k - 1);
      var p, q := Power(a, k - 1), Power(b, k - 1);
      Bits.MulMono(p, q, a);
      Bits.MulMono(a, b, q);
    }
  }

  lemma Regroup(s: string, a: string, b: string, c: string, d: string, e: string, f: string)
    ensures s + a + b + c + d + e + f == s + (a + b + c + d + e + f)
  {
  }

  /** SNP: keeps the first buflen characters of what it is sent.  sent is all of it. */
  class Snp {
    const buf: array<char>
    const buflen: nat
    var bufpos: nat
    ghost var sent: string

    constructor (buf: array<char>, buflen: nat)
      requires buflen <= buf.Length
      ensures this.buf == buf && this.buflen == buflen && sent == "" && bufpos == 0 && Valid()
    {
      this.buf, this.buflen, bufpos, sent := buf, buflen, 0, "";
    }

    ghost predicate Valid()
      reads this, buf
    {
      buflen <= buf.Length && bufpos == Min(|sent|, buflen) && buf[..bufpos] == sent[..bufpos]
    }

    /** __snprintf_send. */
    method Send(data: string)
      requires Valid()
      modifies this, buf
      ensures Valid() && sent == old(sent) + data
      ensures forall j :: bufpos <= j < buf.Length ==> buf[j] == old(buf[j])
    {
      ghost var before := sent;
      for i := 0 to |data|
        invariant Valid() && sent == before + data[..i]
        invariant forall j :: bufpos <= j < buf.Length ==> buf[j] == old(buf[j])
      {
        if bufpos < buflen {
          buf[bufpos] := data[i];
          bufpos := bufpos + 1;
        }
        sent := before + data[..i + 1];
        assert data[..i + 1] == data[..i] + [data[i]];
      }
      assert data[..|data|] == data;
    }
  }

  /** PF.  next counts the arguments taken. */
  class Pf {
    const sink: Snp
    const args: nat -> Arg
    var next: nat
    var charcount: nat
    var inPct: bool
    var size: Size
    var num: nat
    var negative: bool
    var spacing: nat
    var rightspc: bool
    var fillchar: char
    var base: nat
    var baseprefix: bool
    var altformat: bool

    constructor (sink: Snp, args: nat -> Arg)
      requires sink.Valid() && sink.sent == ""
      ensures this.sink == sink && this.args == args && next == 0 && Valid() && State() == Text
    {
      this.sink, this.args, next, charcount := sink, args, 0, 0;
      inPct, size, num, negative, spacing, rightspc, fillchar := false, IntSz, 0, false, 0, false, ' ';
      base, baseprefix, altformat := 0, false, false;
    }

    /** Where the machine is, as a value. */
    ghost function State(): Pct
      reads this
    {
      if inPct then Field(size, spacing, rightspc, fillchar == '0', altformat) else Text
    }

    /** Outside a field everything is reset; inside, nothing has been fetched yet. */
    ghost predicate Ready()
      reads this
    {
      && num == 0 && !negative && base == 0 && !baseprefix && (fillchar == ' ' || fillchar == '0')
      && (!inPct ==> size == IntSz && spacing == 0 && !rightspc && fillchar == ' ' && !altformat)
    }

    ghost predicate Counting()
      reads this, sink, sink.buf
    {
      sink.Valid() && charcount == |sink.sent|
    }

    ghost predicate Valid()
      reads this, sink, sink.buf
    {
      Ready() && Counting()
    }

    /** __pf_print. */
    method Print(txt: string)
      requires Counting()
      modifies `charcount, sink, sink.buf
      ensures Counting() && sink.sent == old(sink.sent) + txt
      ensures forall j :: sink.bufpos <= j < sink.buf.Length ==> sink.buf[j] == old(sink.buf[j])
    {
      sink.Send(txt);
      charcount := charcount + |txt|;
    }

    /** __pf_endfield. */
    method EndField()
      modifies this
      ensures Ready() && State() == Text && next == old(next) && charcount == old(charcount)
    {
      inPct, size, num, negative, spacing, rightspc, fillchar := false, IntSz, 0, false, 0, false, ' ';
      base, baseprefix, altformat := 0, false, false;
    }

    /** __pf_modifier. */
    method Modifier(ch: char)
      requires Ready() && inPct && IsModifier(ch)
      modifies `altformat, `rightspc, `size, `spacing, `fillchar
      ensures Ready() && inPct && State() == Modify(old(State()), ch)
    {
      if ch == '#' {
        altformat := true;
      } else if ch == '-' {
        rightspc := true;
      } else if ch == 'l' {
        size := if size == LongSz then LLongSz else LongSz;
      } else if ch == 'z' {
        size := SizeTSz;
      } else if ch == '0' {
        if spacing > 0 { spacing := spacing * 10; } else { fillchar := '0'; }
      } else {
        spacing := spacing * 10 + (ch as int - '0' as int);
      }
    }

    /** __pf_getnum.  Negating the least long long gives it back, which as an unsigned number is
        its magnitude. */
    method GetNum(ch: char)
      requires Ready() && inPct && IsInteger(ch)
      modifies `num, `negative, `next
      ensures num == Magnitude(State(), ch, args(old(next)).bits) && next == old(next) + 1
      ensures negative == (ch == 'd' && Signed(size, args(old(next)).bits) < 0)
    {
      var bits := args(next).bits;
      next := next + 1;
      if ch == 'p' {
        num := bits % Bits.W;
      } else if ch == 'd' {
        var signed := Signed(size, bits);
        if signed < 0 {
          negative := true;
          NegateLong(signed);
          num := LongLong(-signed) % Bits.D;
        } else {
          num := signed;
        }
      } else {
        num := Truncate(size, bits);
      }
    }

    /** __pf_setbase. */
    method SetBase(ch: char)
      requires !baseprefix && IsInteger(ch)
      modifies `base, `baseprefix
      ensures base == Base(ch) && baseprefix == (altformat || ch == 'p')
    {
      if ch == 'd' || ch == 'u' { base := 10; } else if ch == 'x' || ch == 'p' { base := 16; } else { base := 8; }
      if altformat || ch == 'p' { baseprefix := true; }
    }

    /** __pf_fill. */
    method Fill(spc: nat)
      requires Counting()
      modifies `charcount, sink, sink.buf
      ensures Counting() && sink.sent == old(sink.sent) + Repeat(fillchar, spc)
      ensures forall j :: sink.bufpos <= j < sink.buf.Length ==> sink.buf[j] == old(sink.buf[j])
    {
      ghost var before := sink.sent;
      for i := 0 to spc
        invariant Counting() && sink.sent == before + Repeat(fillchar, i)
        invariant forall j :: sink.bufpos <= j < sink.buf.Length ==> sink.buf[j] == old(sink.buf[j])
      {
        Print([fillchar]);
        assert Repeat(fillchar, i) + [fillchar] == Repeat(fillchar, i + 1);
      }
    }

    /** __pf_printstuff. */
    method PrintStuff(prefix: string, prefix2: string, stuff: string)
      requires Counting() && inPct && (fillchar == ' ' || fillchar == '0')
      modifies `charcount, sink, sink.buf
      ensures Counting() && sink.sent == old(sink.sent) + Padded(State(), prefix, prefix2, stuff)
      ensures forall j :: sink.bufpos <= j < sink.buf.Length ==> sink.buf[j] == old(sink.buf[j])
    {
      ghost var before, pad := sink.sent, Padding(State(), |prefix| + |prefix2| + |stuff|);
      var len := |prefix| + |prefix2| + |stuff|;
      var spc := spacing;
      if spc > len { spc := spc - len; } else { spc := 0; }
      if spc > 0 && !rightspc && fillchar != '0' { Fill(spc); }
      ghost var p1 := if !rightspc && fillchar != '0' then pad else "";
      assert sink.sent == before + p1;
      Print(prefix);
      Print(prefix2);
      if spc > 0 && !rightspc && fillchar == '0' { Fill(spc); }
      ghost var p2 := if !rightspc && fillchar == '0' then pad else "";
      assert sink.sent == before + p1 + prefix + prefix2 + p2;
      Print(stuff);
      if spc > 0 && rightspc { Fill(spc); }
      ghost var p3 := if rightspc then pad else "";
      assert sink.sent == before + p1 + prefix + prefix2 + p2 + stuff + p3;
      Regroup(before, p1, prefix, prefix2, p2, stuff, p3);
      assert Padded(State(), prefix, prefix2, stuff) == p1 + prefix + prefix2 + p2 + stuff + p3;
    }

    /** __pf_printnum: digits go into the buffer from its end, and never past its start. */
    method PrintNum()
      requires Counting() && inPct && (fillchar == ' ' || fillchar == '0') && 8 <= base <= 16 && num < Bits.D
      modifies `charcount, sink, sink.buf
      ensures Counting()
      ensures sink.sent == old(sink.sent) + Padded(State(), if negative then "-" else "",
                if baseprefix && base == 16 then "0x" else if baseprefix && base == 8 then "0" else "", Digits(num, base))
      ensures forall j :: sink.bufpos <= j < sink.buf.Length ==> sink.buf[j] == old(sink.buf[j])
    {
      var text := Convert(num, base);
      var bprefix := if baseprefix && base == 16 then "0x" else if baseprefix && base == 8 then "0" else "";
      PrintStuff(if negative then "-" else "", bprefix, text);
    }

    /** An integer conversion. */
    method SendNumber(ch: char)
      requires Valid() && inPct && IsInteger(ch)
      modifies this, sink, sink.buf
      ensures Valid() && State() == Text && next == old(next) + 1
      ensures sink.sent == old(sink.sent) + Number(old(State()), ch, args(old(next)).bits)
      ensures forall j :: sink.bufpos <= j < sink.buf.Length ==> sink.buf[j] == old(sink.buf[j])
    {
      ghost var f, bits := State(), args(next).bits;
      FetchNum(ch);
      PrintNum();
      assert State() == f;
      NumberParts(f, ch, bits);
      EndField();
    }

    /** The argument and its base. */
    method FetchNum(ch: char)
      requires Ready() && inPct && IsInteger(ch)
      modifies `num, `negative, `next, `base, `baseprefix
      ensures num == Magnitude(State(), ch, args(old(next)).bits) && next == old(next) + 1
      ensures negative == (ch == 'd' && Signed(size, args(old(next)).bits) < 0)
      ensures base == Base(ch) && baseprefix == (altformat || ch == 'p')
    {
      GetNum(ch);
      SetBase(ch);
    }

    /** __pf_send. */
    method Send(ch: char)
      requires Valid()
      modifies this, sink, sink.buf
      ensures Valid() && State() == Next(old(State()), ch)
      ensures sink.sent == old(sink.sent) + Emit(old(State()), ch, args(old(next)))
      ensures next == old(next) + (if Takes(old(State()), ch) then 1 else 0)
      ensures forall j :: sink.bufpos <= j < sink.buf.Length ==> sink.buf[j] == old(sink.buf[j])
    {
      if !inPct && ch != '%' {
        Print([ch]);
      } else if !inPct {
        inPct := true;
      } else if IsModifier(ch) {
        Modifier(ch);
      } else if IsInteger(ch) {
        SendNumber(ch);
      } else if ch == 's' {
        var text := args(next).text;
        next := next + 1;
        SendText(if text == None then "(null)" else text.value);
      } else {
        var x := [ch];
        if ch == 'c' {
          x := One(args(next).bits);
          next := next + 1;
        }
        SendText(x);
      }
    }

    /** A string or character in a field, which it ends. */
    method SendText(text: string)
      requires Valid() && inPct
      modifies this, sink, sink.buf
      ensures Valid() && State() == Text && next == old(next)
      ensures sink.sent == old(sink.sent) + Padded(old(State()), "", "", text)
      ensures forall j :: sink.bufpos <= j < sink.buf.Length ==> sink.buf[j] == old(sink.buf[j])
    {
      PrintStuff("", "", text);
      EndField();
    }
  }

  /** Stores the last digit of n, which is written s, at x. */
  method PutDigit(buf: array<char>, x: nat, n: nat, base: nat, ghost s: string) returns (rest: nat)
    requires 2 <= base <= 16 && x < buf.Length && s == Digits(n, base)
    modifies buf
    ensures buf[x] == s[|s| - 1] && (rest > 0 ==> |s| > 1 && s[..|s| - 1] == Digits(rest, base)) && (rest == 0 ==> |s| == 1)
    ensures rest < n || rest == n == 0
    ensures forall k :: 0 <= k < buf.Length && k != x ==> buf[k] == old(buf[k])
  {
    QuotRem(n, base);
    buf[x] := Digit(n % base);
    rest := n / base;
    assert rest > 0 ==> s[..|s| - 1] == Digits(rest, base);
  }

  /** The conversion loop of __pf_printnum, with its 23-byte buffer; j digits are still to be
      stored. */
  method Convert(num: nat, base: nat) returns (text: string)
    requires 8 <= base <= 16 && num < Bits.D
    ensures text == Digits(num, base)
  {
    var buf := new char[NUMBER_BUF_SIZE];
    ghost var all := Digits(num, base);
    NumberFits(num, base);
    var x := NUMBER_BUF_SIZE - 1;
    buf[x] := 0 as char;
    x := x - 1;
    var xnum, more := num, true;
    ghost var j, start := |all|, NUMBER_BUF_SIZE - 1 - |all|;
    assert all[..j] == all;
    while more
      invariant 0 <= j <= |all| && x == start + j - 1 && (more <==> j > 0)
      invariant more ==> all[..j] == Digits(xnum, base)
      invariant forall q :: x < q < NUMBER_BUF_SIZE - 1 ==> buf[q] == all[q - start]
      decreases j
    {
      xnum := PutDigit(buf, x, xnum, base, all[..j]);
      assert all[..j][..j - 1] == all[..j - 1] && all[..j][j - 1] == all[j - 1];
      x, j := x - 1, j - 1;
      more := xnum > 0;
    }
    text := buf[x + 1..NUMBER_BUF_SIZE - 1];
    assert text == all;
  }

  /** One character further: what has been sent and what is still to come. */
  lemma OutputStep(fmt: string, i: nat, st: Pct, args: nat -> Arg, k: nat, sent: string, out: string)
    requires i < |fmt| && out == sent + Output(fmt[i..], st, args, k)
    ensures out == sent + Emit(st, fmt[i], args(k))
                   + Output(fmt[i + 1..], Next(st, fmt[i]), args, k + (if Takes(st, fmt[i]) then 1 else 0))
  {
    assert fmt[i..][1..] == fmt[i + 1..];
    var e, rest := Emit(st, fmt[i], args(k)), Output(fmt[i + 1..], Next(st, fmt[i]), args, if Takes(st, fmt[i]) then k + 1 else k);
    assert sent + (e + rest) == sent + e + rest;
  }

  /** The loop of __vprintf. */
  method VPrintf(pf: Pf, fmt: string)
    requires pf.Valid() && pf.State() == Text && pf.next == 0 && pf.sink.sent == ""
    modifies pf, pf.sink, pf.sink.buf
    ensures pf.Counting() && pf.sink.sent == Output(fmt, Text, pf.args, 0)
    ensures forall j :: pf.sink.bufpos <= j < pf.sink.buf.Length ==> pf.sink.buf[j] == old(pf.sink.buf[j])
  {
    ghost var out := Output(fmt, Text, pf.args, 0);
    assert fmt[0..] == fmt;
    for i := 0 to |fmt|
      invariant pf.Valid()
      invariant out == pf.sink.sent + Output(fmt[i..], pf.State(), pf.args, pf.next)
      invariant forall j :: pf.sink.bufpos <= j < pf.sink.buf.Length ==> pf.sink.buf[j] == old(pf.sink.buf[j])
    {
      OutputStep(fmt, i, pf.State(), pf.args, pf.next, pf.sink.sent, out);
      pf.Send(fmt[i]);
    }
    assert fmt[|fmt|..] == "";
  }

  /** vsnprintf: the first len - 1 characters of the whole output and a NUL, nothing else
      touched, and the whole length returned. */
  method VSnprintf(buf: array<char>, len: nat, fmt: string, args: nat -> Arg) returns (chars: nat)
    requires len <= buf.Length
    modifies buf
    ensures var out := Output(fmt, Text, args, 0);
            && chars == |out|
            && (len > 0 ==> var n := Min(|out|, len - 1);
                  buf[..n] == out[..n] && buf[n] == 0 as char && forall j :: n < j < buf.Length ==> buf[j] == old(buf[j]))
            && (len == 0 ==> buf[..] == old(buf[..]))
  {
    var snp := new Snp(buf, if len == 0 then 0 else len - 1);
    var pf := new Pf(snp, args);
    VPrintf(pf, fmt);
    if len > 0 { buf[snp.bufpos] := 0 as char; }
    chars := pf.charcount;
  }
}
