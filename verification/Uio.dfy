/** uiomove and uiomovezeros: a cursor over a list of buffers.  The kernel's buffer and the
    memory the buffers lie in are two arrays. */
module Uio {

  import opened Collections
  import Bits

  type Byte = b: int | 0 <= b < 256

  datatype Iov = Iov(base: nat, len: nat)

  /** The addresses n bytes long from b. */
  function Range(b: nat, n: nat): (r: seq<nat>)
    ensures |r| == n && forall i :: 0 <= i < n ==> r[i] == b + i
  {
    seq(n, i requires 0 <= i < n => b + i)
  }

  /** The addresses still to be visited, in order. */
  function Targets(iovs: seq<Iov>): seq<nat> {
    if iovs == [] then [] else Range(iovs[0].base, iovs[0].len) + Targets(iovs[1..])
  }

  /** How many bytes the first j buffers have. */
  function Before(iovs: seq<Iov>, j: nat): nat
    requires j <= |iovs|
  {
    if j == 0 then 0 else Before(iovs, j - 1) + iovs[j - 1].len
  }

  /** Byte i of buffer j comes after all of the buffers before it; that is all there is. */
  lemma {:induction false} TargetsTheorem(iovs: seq<Iov>, j: nat, i: nat)
    ensures |Targets(iovs)| == Before(iovs, |iovs|)
    ensures j < |iovs| && i < iovs[j].len ==>
              Before(iovs, j) + i < |Targets(iovs)| && Targets(iovs)[Before(iovs, j) + i] == iovs[j].base + i
  {
    if iovs != [] {
      var rest := iovs[1..];
      TargetsTheorem(rest, if j == 0 then 0 else j - 1, i);
      BeforeShift(iovs, |iovs|);
      if 0 < j < |iovs| { BeforeShift(iovs, j); }
    }
  }

  lemma {:induction false} BeforeShift(iovs: seq<Iov>, j: nat)
    requires 0 < j <= |iovs|
    ensures Before(iovs, j) == iovs[0].len + Before(iovs[1..], j - 1)
  {
    if j > 1 { BeforeShift(iovs, j - 1); }
  }

  predicate Inside(targets: seq<nat>, size: nat) {
    forall i :: 0 <= i < |targets| ==> targets[i] < size
  }

  /** Memory after storing d at the addresses t, one after the other. */
  function Store(m: seq<Byte>, t: seq<nat>, d: seq<Byte>): (r: seq<Byte>)
    requires |t| == |d| && Inside(t, |m|)
    ensures |r| == |m|
  {
    if t == [] then m else Store(m, t[..|t| - 1], d[..|t| - 1])[t[|t| - 1] := d[|t| - 1]]
  }

  /** What is at the addresses t. */
  function Load(m: seq<Byte>, t: seq<nat>): (r: seq<Byte>)
    requires Inside(t, |m|)
    ensures |r| == |t| && forall i :: 0 <= i < |t| ==> r[i] == m[t[i]]
  {
    seq(|t|, i requires 0 <= i < |t| => m[t[i]])
  }

  lemma {:induction false} StoreConcat(m: seq<Byte>, t: seq<nat>, d: seq<Byte>, t': seq<nat>, d': seq<Byte>)
    requires |t| == |d| && |t'| == |d'| && Inside(t, |m|) && Inside(t', |m|)
    ensures Inside(t + t', |m|) && Store(m, t + t', d + d') == Store(Store(m, t, d), t', d')
  {
    if t' == [] {
      assert t + t' == t && d + d' == d;
    } else {
      var n := |t'| - 1;
      assert (t + t')[..|t + t'| - 1] == t + t'[..n] && (d + d')[..|t + t'| - 1] == d + d'[..n];
      StoreConcat(m, t, d, t'[..n], d'[..n]);
    }
  }

  /** Storing to consecutive addresses replaces a stretch of memory. */
  lemma {:induction false} StoreRange(m: seq<Byte>, b: nat, d: seq<Byte>)
    requires b + |d| <= |m|
    ensures Store(m, Range(b, |d|), d) == m[..b] + d + m[b + |d|..]
  {
    if |d| > 0 {
      var n := |d| - 1;
      assert Range(b, |d|)[..n] == Range(b, n);
      StoreRange(m, b, d[..n]);
      assert |d[..n]| == n;
    } else {
      assert m[..b] + d + m[b..] == m;
    }
  }

  predicate AllDifferent(t: seq<nat>) {
    forall i, j :: 0 <= i < j < |t| ==> t[i] != t[j]
  }

  /** Reading back what was stored, when no address occurs twice. */
  lemma {:induction false} StoredAt(m: seq<Byte>, t: seq<nat>, d: seq<Byte>, i: nat)
    requires |t| == |d| && Inside(t, |m|) && AllDifferent(t) && i < |t|
    ensures Store(m, t, d)[t[i]] == d[i]
  {
    var n := |t| - 1;
    if i == n {
    } else {
      assert t[..n][i] == t[i] && d[..n][i] == d[i];
      StoredAt(m, t[..n], d[..n], i);
    }
  }

  /** Moving out to buffers that do not overlap and back in returns the data. */
  lemma StoreThenLoad(m: seq<Byte>, t: seq<nat>, d: seq<Byte>)
    requires |t| == |d| && Inside(t, |m|) && AllDifferent(t)
    ensures Load(Store(m, t, d), t) == d
  {
    forall i | 0 <= i < |t| ensures Store(m, t, d)[t[i]] == d[i] { StoredAt(m, t, d, i); }
  }

  /** A uio and the memory it moves to, as a value. */
  datatype View = View(targets: seq<nat>, offset: int, space: seq<Byte>)

  ghost predicate Ok(v: View) {
    Inside(v.targets, |v.space|)
  }

  /** Moving data out to the buffers: as much as there is room for, in order. */
  function Moved(v: View, data: seq<Byte>): (r: View)
    requires Ok(v)
    ensures Ok(r)
  {
    var k := Min(|data|, |v.targets|);
    View(v.targets[k..], v.offset + k, Store(v.space, v.targets[..k], data[..k]))
  }

  /** Moving a and then b is moving a followed by b. */
  lemma MoveCompose(v: View, a: seq<Byte>, b: seq<Byte>)
    requires Ok(v)
    ensures Moved(Moved(v, a), b) == Moved(v, a + b)
  {
    if |a| > |v.targets| {
      assert (a + b)[..|v.targets|] == a[..|v.targets|];
      StoreNothing(Moved(v, a), b);
    } else {
      MoveBoth(v, a, b, Min(|b|, |v.targets| - |a|));
    }
  }

  lemma StoreNothing(v: View, b: seq<Byte>)
    requires Ok(v) && v.targets == []
    ensures Moved(v, b) == v
  {
  }

  lemma MoveBoth(v: View, a: seq<Byte>, b: seq<Byte>, j: nat)
    requires Ok(v) && |a| <= |v.targets| && j == Min(|b|, |v.targets| - |a|)
    ensures Moved(Moved(v, a), b) == Moved(v, a + b)
  {
    var t, k := v.targets, |a|;
    var mid := View(t[k..], v.offset + k, Store(v.space, t[..k], a));
    assert Moved(v, a) == mid by { assert a[..k] == a; }
    assert Min(|a + b|, |t|) == k + j;
    StoreBoth(v.space, t, a, b, j);
  }

  lemma StoreBoth(m: seq<Byte>, t: seq<nat>, a: seq<Byte>, b: seq<Byte>, j: nat)
    requires Inside(t, |m|) && |a| + j <= |t| && j <= |b|
    ensures Store(Store(m, t[..|a|], a), t[|a|..][..j], b[..j]) == Store(m, t[..|a| + j], (a + b)[..|a| + j])
    ensures t[|a|..][j..] == t[|a| + j..]
  {
    var k := |a|;
    Pieces(t, a, b, j);
    StoreConcat(m, t[..k], a, t[k..][..j], b[..j]);
  }

  lemma Pieces(t: seq<nat>, a: seq<Byte>, b: seq<Byte>, j: nat)
    requires |a| + j <= |t| && j <= |b|
    ensures t[..|a| + j] == t[..|a|] + t[|a|..][..j] && t[|a|..][j..] == t[|a| + j..]
    ensures (a + b)[..|a| + j] == a + b[..j]
  {
  }

  /** r is the length of the first so many buffers. */
  predicate Boundary(iovs: seq<Iov>, r: nat) {
    r == 0 || (iovs != [] && iovs[0].len <= r && Boundary(iovs[1..], r - iovs[0].len))
  }

  lemma {:induction false} BoundaryBelow(iovs: seq<Iov>, r: nat)
    ensures Boundary(iovs, r) ==> r <= |Targets(iovs)|
  {
    if iovs == [] {
    } else if iovs[0].len <= r {
      BoundaryBelow(iovs[1..], r - iovs[0].len);
    }
  }

  /** struct uio.  iovs is what uio_iov and uio_iovcnt describe. */
  class Cursor {
    var iovs: seq<Iov>
    var offset: int
    var resid: Bits.u32
    const user: bool      // a user segment, whose addresses can fault

    /** uio_kinit. */
    constructor (kbuf: nat, len: Bits.u32, pos: int)
      ensures iovs == [Iov(kbuf, len)] && offset == pos && resid == len && !user
      ensures All() == Range(kbuf, len) && Boundary(iovs, resid) && Ready()
    {
      iovs, offset, resid, user := [Iov(kbuf, len)], pos, len, false;
      new;
      assert iovs[1..] == [];
      assert Targets(iovs) == Range(kbuf, len) + Targets([]);
      assert Boundary(iovs[1..], 0) && Boundary(iovs, len);
    }

    /** The addresses of the buffers. */
    ghost function All(): seq<nat>
      reads this
    {
      Targets(iovs)
    }

    /** There is a buffer to look at, if there is anything to be moved. */
    predicate Ready()
      reads this
    {
      resid == 0 || iovs != []
    }
  }

  /** How a call of uiomove ends, unless it faults: the buffers and the uio_resid that it leaves,
      the bytes it has moved, and whether it panicked for lack of buffers. */
  datatype End = End(iovs: seq<Iov>, resid: Bits.u32, moved: nat, panic: bool)

  function Plus(e: End, k: nat): End {
    e.(moved := e.moved + k)
  }

  /** The first buffer without its first size bytes. */
  function Shortened(iovs: seq<Iov>, size: nat): seq<Iov>
    requires iovs != [] && size <= iovs[0].len
  {
    [Iov(iovs[0].base + size, iovs[0].len - size)] + iovs[1..]
  }

  /** uio_resid, a 32-bit number, decremented: the difference modulo 2^32. */
  function Less(resid: Bits.u32, size: nat): Bits.u32
    decreases size
  {
    if size >= Bits.W then Less(resid, size - Bits.W)
    else if size <= resid then resid - size
    else resid - size + Bits.W
  }

  lemma {:induction false} LessIsModulo(resid: Bits.u32, size: nat)
    ensures Less(resid, size) == (resid - size) % Bits.W
    decreases size
  {
    if size >= Bits.W {
      LessIsModulo(resid, size - Bits.W);
      var x: int := resid - size;
      Bits.DivModUnique(x, Bits.W, (x + Bits.W) / Bits.W - 1, (x + Bits.W) % Bits.W);
    } else {
      Bits.DivModUnique(resid - size, Bits.W, if size <= resid then 0 else -1, Less(resid, size));
    }
  }

  /** The loop of uiomove for n bytes, a buffer at a time. */
  function Run(iovs: seq<Iov>, n: nat, resid: Bits.u32): End {
    if n == 0 || resid == 0 then End(iovs, resid, 0, false)
    else if iovs == [] then End([], resid, 0, true)
    else if iovs[0].len >= n then End(Shortened(iovs, n), Less(resid, n), n, false)
    else if Less(resid, iovs[0].len) == 0 then End(Shortened(iovs, iovs[0].len), 0, iovs[0].len, false)
    else Plus(Run(iovs[1..], n - iovs[0].len, Less(resid, iovs[0].len)), iovs[0].len)
  }

  /** One turn of the loop. */
  lemma RunTurn(iovs: seq<Iov>, n: nat, resid: Bits.u32, size: nat)
    requires n > 0 && resid > 0 && iovs != [] && size == Min(iovs[0].len, n)
    ensures size > 0 ==> Run(iovs, n, resid) == Plus(Run(Shortened(iovs, size), n - size, Less(resid, size)), size)
    ensures size == 0 ==> Run(iovs, n, resid) == Run(iovs[1..], n, resid)
  {
    assert Shortened(iovs, size)[1..] == iovs[1..];
  }

  /** What is left are the addresses not yet visited. */
  ghost predicate Rest(iovs: seq<Iov>, n: nat, resid: Bits.u32, e: End) {
    && e.moved <= n && e.moved <= |Targets(iovs)| && Targets(e.iovs) == Targets(iovs)[e.moved..]
    && e.resid == Less(resid, e.moved) && (e.panic ==> e.iovs == []) && (iovs != [] && !e.panic ==> e.iovs != [])
  }

  lemma {:induction false} RunRest(iovs: seq<Iov>, n: nat, resid: Bits.u32)
    ensures Rest(iovs, n, resid, Run(iovs, n, resid))
  {
    if n == 0 || resid == 0 || iovs == [] {
      assert Less(resid, 0) == resid;
    } else if iovs[0].len >= n {
      TargetsStep(iovs, n);
    } else {
      var len, rest := iovs[0].len, iovs[1..];
      if Less(resid, len) == 0 {
        TargetsStep(iovs, len);
      } else {
        RunRest(rest, n - len, Less(resid, len));
        RestPlus(iovs, n, resid, Run(rest, n - len, Less(resid, len)));
      }
    }
  }

  /** With the first buffer in front. */
  lemma RestPlus(iovs: seq<Iov>, n: nat, resid: Bits.u32, e: End)
    requires iovs != [] && iovs[0].len < n && Rest(iovs[1..], n - iovs[0].len, Less(resid, iovs[0].len), e)
    requires e.panic || e.iovs != []
    ensures Rest(iovs, n, resid, Plus(e, iovs[0].len))
  {
    var len := iovs[0].len;
    LessTwice(resid, len, e.moved);
    DropBoth(Range(iovs[0].base, len), Targets(iovs[1..]), e.moved);
  }

  lemma DropBoth(a: seq<nat>, b: seq<nat>, k: nat)
    requires k <= |b|
    ensures (a + b)[|a| + k..] == b[k..]
  {
  }

  lemma LessTwice(resid: Bits.u32, a: nat, b: nat)
    ensures Less(Less(resid, a), b) == Less(resid, a + b)
  {
    LessIsModulo(resid, a);
    LessIsModulo(Less(resid, a), b);
    LessIsModulo(resid, a + b);
    TwiceModulo(resid, a, b);
  }

  lemma TwiceModulo(x: int, a: nat, b: nat)
    ensures ((x - a) % Bits.W - b) % Bits.W == (x - (a + b)) % Bits.W
  {
    var q, r := (x - a) / Bits.W, (x - a) % Bits.W;
    var q2, r2 := (r - b) / Bits.W, (r - b) % Bits.W;
    Bits.DivModUnique(x - (a + b), Bits.W, q + q2, r2);
  }

  /** How much is moved, and when the call panics, in terms of uio_resid and the buffers alone:
      the loop stops at uio_resid only where a buffer ends. */
  lemma {:induction false} RunExact(iovs: seq<Iov>, n: nat, resid: Bits.u32)
    requires |Targets(iovs)| < Bits.W
    ensures Run(iovs, n, resid).moved == (if Boundary(iovs, resid) then Min(n, resid) else Min(n, |Targets(iovs)|))
    ensures Run(iovs, n, resid).panic <==> n > |Targets(iovs)| && !Boundary(iovs, resid)
  {
    if n == 0 || resid == 0 || iovs == [] {
    } else {
      var len, rest := iovs[0].len, iovs[1..];
      assert |Targets(iovs)| == len + |Targets(rest)|;
      if len < n {
        if Less(resid, len) != 0 {
          RunExact(rest, n - len, Less(resid, len));
          BoundaryBelow(rest, Less(resid, len));
        }
      }
    }
  }

  /** So min(n, uio_resid) bytes are moved if and only if n is at most uio_resid or a buffer ends
      there; otherwise more. */
  lemma TransferExact(iovs: seq<Iov>, n: nat, resid: Bits.u32)
    requires resid <= |Targets(iovs)| < Bits.W
    ensures Run(iovs, n, resid).moved == Min(n, resid) <==> n <= resid || Boundary(iovs, resid)
    ensures Run(iovs, n, resid).moved >= Min(n, resid)
  {
    RunExact(iovs, n, resid);
  }

  /** A buffer of five bytes and a uio_resid of three: five bytes are moved if asked for, and a
      request for ten moves five and panics. */
  lemma TransferPast()
    ensures var iovs := [Iov(0, 5)];
            !Boundary(iovs, 3) && Run(iovs, 5, 3).moved == 5 && Run(iovs, 10, 3) == End([], Bits.W - 2, 5, true)
  {
    var iovs := [Iov(0, 5)];
    assert iovs[1..] == [];
    assert Run(iovs[1..], 5, Bits.W - 2) == End([], Bits.W - 2, 0, true);
  }

  /** The ends of the buffers that are left. */
  lemma {:induction false} RunEnds(iovs: seq<Iov>, n: nat, resid: Bits.u32, x: nat)
    requires x > 0
    ensures var e := Run(iovs, n, resid); Boundary(e.iovs, x) <==> Boundary(iovs, x + e.moved)
  {
    if n == 0 || resid == 0 || iovs == [] {
    } else {
      var len, rest, size := iovs[0].len, iovs[1..], Min(iovs[0].len, n);
      assert Shortened(iovs, size)[1..] == rest;
      if len < n && Less(resid, len) != 0 { RunEnds(rest, n - len, Less(resid, len), x); }
    }
  }

  /** memmove, between the two memories. */
  method MoveBytes(dst: array<Byte>, to: nat, src: array<Byte>, from: nat, size: nat)
    requires to + size <= dst.Length && from + size <= src.Length && src != dst
    modifies dst
    ensures dst[..] == old(dst[..to]) + src[from..from + size] + old(dst[to + size..])
  {
    forall i | 0 <= i < size { dst[to + i] := src[from + i]; }
    ghost var was := old(dst[..]);
    assert forall k :: 0 <= k < dst.Length ==> dst[k] == (if to <= k < to + size then src[from + (k - to)] else was[k]);
  }

  /** The two memories. */
  datatype Mem = Mem(space: seq<Byte>, buf: seq<Byte>)

  ghost function Snap(space: array<Byte>, buf: array<Byte>): Mem
    reads space, buf
  {
    Mem(space[..], buf[..])
  }

  /** A stretch of one memory copied over a stretch of the other. */
  function Copied(reading: bool, base: nat, p: nat, size: nat, m: Mem): Mem
    requires base + size <= |m.space| && p + size <= |m.buf|
  {
    if reading then Mem(m.space[..base] + m.buf[p..p + size] + m.space[base + size..], m.buf)
    else Mem(m.space, m.buf[..p] + m.space[base..base + size] + m.buf[p + size..])
  }

  /** One of the addresses is bad. */
  predicate Faulty(base: nat, size: nat, bad: set<nat>) {
    exists a | base <= a < base + size :: a in bad
  }

  /** memmove, in or out. */
  method Transfer(reading: bool, space: array<Byte>, base: nat, buf: array<Byte>, p: nat, size: nat)
    requires base + size <= space.Length && p + size <= buf.Length && space != buf
    modifies space, buf
    ensures Snap(space, buf) == Copied(reading, base, p, size, old(Snap(space, buf)))
  {
    if reading { MoveBytes(space, base, buf, p, size); } else { MoveBytes(buf, p, space, base, size); }
  }

  /** One copy, in or out.  A user copy fails if any of its addresses is bad; what a failed
      copy has done to its destination is not known. */
  method Copy(reading: bool, space: array<Byte>, base: nat, buf: array<Byte>, p: nat, size: nat, user: bool, bad: set<nat>, ghost m: Mem)
    returns (fault: bool)
    requires base + size <= space.Length && p + size <= buf.Length && space != buf && m == Snap(space, buf)
    modifies space, buf
    ensures fault <==> user && Faulty(base, size, bad)
    ensures if reading then Snap(space, buf).buf == m.buf else Snap(space, buf).space == m.space
    ensures !fault ==> Snap(space, buf) == MemAfter(reading, Range(base, size), p, size, m)
    ensures reading ==> forall a :: 0 <= a < space.Length && !(base <= a < base + size) ==> space[a] == old(space[a])
    ensures !reading ==> forall a :: 0 <= a < buf.Length && !(p <= a < p + size) ==> buf[a] == old(buf[a])
  {
    fault := user && Faulty(base, size, bad);
    CopiedIsMoved(reading, base, p, size, m);
    Transfer(reading, space, base, buf, p, size);
    if fault && size > 0 {
      var junk: Byte := *;
      if reading { space[base] := junk; } else { buf[p] := junk; }
    }
  }

  /** Moving one byte: out of buf when reading, into it when writing. */
  function MoveByte(reading: bool, a: nat, p: nat, m: Mem): Mem
    requires a < |m.space| && p < |m.buf|
  {
    if reading then Mem(m.space[a := m.buf[p]], m.buf) else Mem(m.space, m.buf[p := m.space[a]])
  }

  /** Memory when k bytes have been moved, one after the other. */
  function MemAfter(reading: bool, t: seq<nat>, ptr: nat, k: nat, m: Mem): (r: Mem)
    requires k <= |t| && Inside(t, |m.space|) && ptr + k <= |m.buf|
    ensures |r.space| == |m.space| && |r.buf| == |m.buf|
  {
    if k == 0 then m else MoveByte(reading, t[k - 1], ptr + k - 1, MemAfter(reading, t, ptr, k - 1, m))
  }

  /** Only one of the two changes. */
  lemma {:induction false} MovesOneWay(reading: bool, t: seq<nat>, ptr: nat, k: nat, m: Mem)
    requires k <= |t| && Inside(t, |m.space|) && ptr + k <= |m.buf|
    ensures var r := MemAfter(reading, t, ptr, k, m); if reading then r.buf == m.buf else r.space == m.space
  {
    if k == 0 {
    } else {
      MovesOneWay(reading, t, ptr, k - 1, m);
    }
  }

  /** No later one of the first k addresses is the i-th. */
  predicate LastOf(t: seq<nat>, k: nat, i: nat) {
    i < k <= |t| && forall j :: i < j < k ==> t[j] != t[i]
  }

  /** None of the first k addresses is a. */
  predicate Untouched(t: seq<nat>, k: nat, a: nat) {
    k <= |t| && forall j :: 0 <= j < k ==> t[j] != a
  }

  /** Moving out: the last use of an address decides what is there, and the rest stays. */
  ghost predicate IsOut(t: seq<nat>, ptr: nat, k: nat, m: Mem, r: Mem)
    requires k <= |t| && Inside(t, |m.space|) && ptr + k <= |m.buf|
  {
    && r.buf == m.buf && |r.space| == |m.space|
    && (forall i: nat {:trigger LastOf(t, k, i)} :: LastOf(t, k, i) ==> r.space[t[i]] == m.buf[ptr + i])
    && (forall a: nat {:trigger Untouched(t, k, a)} :: a < |m.space| && Untouched(t, k, a) ==> r.space[a] == m.space[a])
  }

  /** Moving in: byte i of the stretch is the one at the i-th address, and the rest stays. */
  ghost predicate IsIn(t: seq<nat>, ptr: nat, k: nat, m: Mem, r: Mem)
    requires k <= |t| && Inside(t, |m.space|) && ptr + k <= |m.buf|
  {
    && r.space == m.space && |r.buf| == |m.buf|
    && (forall i :: 0 <= i < k ==> r.buf[ptr + i] == m.space[t[i]])
    && (forall j :: 0 <= j < |m.buf| && !(ptr <= j < ptr + k) ==> r.buf[j] == m.buf[j])
  }

  /** What is where after k bytes, byte by byte. */
  lemma {:induction false} MovedTheorem(reading: bool, t: seq<nat>, ptr: nat, k: nat, m: Mem)
    requires k <= |t| && Inside(t, |m.space|) && ptr + k <= |m.buf|
    ensures var r := MemAfter(reading, t, ptr, k, m); if reading then IsOut(t, ptr, k, m, r) else IsIn(t, ptr, k, m, r)
  {
    if k > 0 {
      MovedTheorem(reading, t, ptr, k - 1, m);
      var was := MemAfter(reading, t, ptr, k - 1, m);
      if reading { OutMore(t, ptr, k, m, was); } else { InMore(t, ptr, k, m, was); }
    }
  }

  lemma OutMore(t: seq<nat>, ptr: nat, k: nat, m: Mem, was: Mem)
    requires 0 < k <= |t| && Inside(t, |m.space|) && ptr + k <= |m.buf| && IsOut(t, ptr, k - 1, m, was)
    ensures IsOut(t, ptr, k, m, MoveByte(true, t[k - 1], ptr + k - 1, was))
  {
    var r := MoveByte(true, t[k - 1], ptr + k - 1, was);
    forall i: nat | LastOf(t, k, i) ensures r.space[t[i]] == m.buf[ptr + i] {
      assert i < k - 1 ==> LastOf(t, k - 1, i) && t[k - 1] != t[i];
    }
    forall a: nat | a < |m.space| && Untouched(t, k, a) ensures r.space[a] == m.space[a] {
      assert Untouched(t, k - 1, a) && t[k - 1] != a;
    }
  }

  lemma InMore(t: seq<nat>, ptr: nat, k: nat, m: Mem, was: Mem)
    requires 0 < k <= |t| && Inside(t, |m.space|) && ptr + k <= |m.buf| && IsIn(t, ptr, k - 1, m, was)
    ensures IsIn(t, ptr, k, m, MoveByte(false, t[k - 1], ptr + k - 1, was))
  {
  }

  /** Moving k bytes and then size more is moving k + size. */
  lemma {:induction false} MoveMore(reading: bool, t: seq<nat>, ptr: nat, k: nat, size: nat, m: Mem)
    requires k + size <= |t| && Inside(t, |m.space|) && ptr + k + size <= |m.buf|
    ensures MemAfter(reading, t[k..], ptr + k, size, MemAfter(reading, t, ptr, k, m)) == MemAfter(reading, t, ptr, k + size, m)
  {
    if size == 0 {
    } else {
      MoveMore(reading, t, ptr, k, size - 1, m);
    }
  }

  /** The same, all at once. */
  lemma {:induction false} StoredAtOnce(t: seq<nat>, ptr: nat, k: nat, m: Mem)
    requires k <= |t| && Inside(t, |m.space|) && ptr + k <= |m.buf|
    ensures MemAfter(true, t, ptr, k, m) == Mem(Store(m.space, t[..k], m.buf[ptr..ptr + k]), m.buf)
  {
    if k == 0 {
    } else {
      StoredAtOnce(t, ptr, k - 1, m);
      assert t[..k][..k - 1] == t[..k - 1];
      assert m.buf[ptr..ptr + k][..k - 1] == m.buf[ptr..ptr + k - 1];
    }
  }

  lemma {:induction false} LoadedAtOnce(t: seq<nat>, ptr: nat, k: nat, m: Mem)
    requires k <= |t| && Inside(t, |m.space|) && ptr + k <= |m.buf|
    ensures MemAfter(false, t, ptr, k, m) == Mem(m.space, m.buf[..ptr] + Load(m.space, t[..k]) + m.buf[ptr + k..])
  {
    if k == 0 {
      assert m.buf[..ptr] + Load(m.space, t[..0]) + m.buf[ptr..] == m.buf;
    } else {
      LoadedAtOnce(t, ptr, k - 1, m);
      LoadOneMore(m.buf, ptr, k, Load(m.space, t[..k - 1]), Load(m.space, t[..k]));
    }
  }

  lemma LoadOneMore(b: seq<Byte>, ptr: nat, k: nat, some: seq<Byte>, more: seq<Byte>)
    requires 0 < k == |more| && ptr + k <= |b| && some == more[..k - 1]
    ensures (b[..ptr] + some + b[ptr + k - 1..])[ptr + k - 1 := more[k - 1]] == b[..ptr] + more + b[ptr + k..]
  {
  }

  /** A copy is a move of one byte after the other. */
  lemma CopiedIsMoved(reading: bool, base: nat, p: nat, size: nat, m: Mem)
    requires base + size <= |m.space| && p + size <= |m.buf|
    ensures MemAfter(reading, Range(base, size), p, size, m) == Copied(reading, base, p, size, m)
  {
    var t := Range(base, size);
    assert t[..size] == t;
    if reading {
      StoredAtOnce(t, p, size, m);
      StoreRange(m.space, base, m.buf[p..p + size]);
    } else {
      LoadedAtOnce(t, p, size, m);
      assert Load(m.space, t) == m.space[base..base + size];
    }
  }

  /** The first k addresses do not fault. */
  ghost predicate Good(t: seq<nat>, k: nat, bad: set<nat>)
    requires k <= |t|
  {
    k == 0 || (Good(t, k - 1, bad) && t[k - 1] !in bad)
  }

  lemma {:induction false} GoodAll(t: seq<nat>, k: nat, bad: set<nat>)
    requires k <= |t|
    ensures Good(t, k, bad) <==> forall i :: 0 <= i < k ==> t[i] !in bad
  {
    if k == 0 {
    } else {
      GoodAll(t, k - 1, bad);
    }
  }

  lemma {:induction false} GoodPrefix(t: seq<nat>, k: nat, n: nat, bad: set<nat>)
    requires k <= n <= |t|
    ensures Good(t, n, bad) ==> Good(t, k, bad)
  {
    if k == n {
    } else {
      GoodPrefix(t, k, n - 1, bad);
    }
  }

  lemma {:induction false} GoodMore(t: seq<nat>, k: nat, size: nat, bad: set<nat>)
    requires k + size <= |t|
    ensures Good(t, k + size, bad) <==> Good(t, k, bad) && Good(t[k..], size, bad)
  {
    if size == 0 {
    } else {
      GoodMore(t, k, size - 1, bad);
    }
  }

  /** A buffer's worth of addresses more. */
  lemma {:induction false} GoodChunk(t: seq<nat>, k: nat, base: nat, size: nat, bad: set<nat>)
    requires k + size <= |t| && t[k..k + size] == Range(base, size)
    ensures Good(t, k + size, bad) <==> Good(t, k, bad) && !Faulty(base, size, bad)
  {
    if size == 0 {
    } else {
      assert t[k..k + size][..size - 1] == t[k..k + size - 1];
      assert Range(base, size)[..size - 1] == Range(base, size - 1);
      assert t[k + size - 1] == t[k..k + size][size - 1] == base + size - 1;
      GoodChunk(t, k, base, size - 1, bad);
    }
  }

  /** An empty first buffer adds nothing; a shortened one has given up its first addresses. */
  lemma TargetsStep(iovs: seq<Iov>, size: nat)
    requires iovs != [] && size <= iovs[0].len
    ensures var rest := [Iov(iovs[0].base + size, iovs[0].len - size)] + iovs[1..];
            size <= |Targets(iovs)| && Targets(iovs)[..size] == Range(iovs[0].base, size)
            && Targets(rest) == Targets(iovs)[size..]
    ensures iovs[0].len == 0 ==> Targets(iovs[1..]) == Targets(iovs)
  {
    var rest := [Iov(iovs[0].base + size, iovs[0].len - size)] + iovs[1..];
    assert rest[1..] == iovs[1..];
    var r := Range(iovs[0].base, iovs[0].len);
    assert r[..size] == Range(iovs[0].base, size);
    assert r[size..] == Range(iovs[0].base + size, iovs[0].len - size);
  }

  /** The next addresses are those of the first buffer. */
  lemma NextRange(iovs: seq<Iov>, size: nat, t: seq<nat>, done: nat)
    requires iovs != [] && size <= iovs[0].len && done <= |t| && Targets(iovs) == t[done..]
    ensures done + size <= |t| && t[done..done + size] == Range(iovs[0].base, size)
    ensures Targets(Shortened(iovs, size)) == t[done + size..]
    ensures iovs[0].len == 0 ==> Targets(iovs[1..]) == t[done..]
  {
    TargetsStep(iovs, size);
    assert t[done..][..size] == t[done..done + size] && t[done..][size..] == t[done + size..];
  }

  /** A buffer's worth of bytes more. */
  lemma ChunkMoved(reading: bool, t: seq<nat>, ptr: nat, done: nat, base: nat, size: nat, m: Mem)
    requires done + size <= |t| && Inside(t, |m.space|) && ptr + done + size <= |m.buf| && t[done..done + size] == Range(base, size)
    requires size > 0
    ensures base + size <= |m.space|
    ensures MemAfter(reading, t, ptr, done + size, m)
            == MemAfter(reading, Range(base, size), ptr + done, size, MemAfter(reading, t, ptr, done, m))
  {
    MoveMore(reading, t, ptr, done, size, m);
    assert t[done..][..size] == t[done..done + size];
    assert t[done + size - 1] == t[done..done + size][size - 1] == base + size - 1;
    SameStart(reading, t[done..], Range(base, size), ptr + done, size, MemAfter(reading, t, ptr, done, m));
  }

  lemma {:induction false} SameStart(reading: bool, t: seq<nat>, t': seq<nat>, ptr: nat, k: nat, m: Mem)
    requires k <= |t| && k <= |t'| && t[..k] == t'[..k] && Inside(t, |m.space|) && Inside(t', |m.space|) && ptr + k <= |m.buf|
    ensures MemAfter(reading, t, ptr, k, m) == MemAfter(reading, t', ptr, k, m)
  {
    if k == 0 {
    } else {
      assert t[..k - 1] == t[..k][..k - 1] == t'[..k - 1];
      assert t[k - 1] == t[..k][k - 1] == t'[k - 1];
      SameStart(reading, t, t', ptr, k - 1, m);
    }
  }

  /** The two together, for the first buffer. */
  lemma Chunk(iovs: seq<Iov>, reading: bool, t: seq<nat>, ptr: nat, done: nat, size: nat, m: Mem, bad: set<nat>)
    requires iovs != [] && 0 < size <= iovs[0].len && done <= |t| && Targets(iovs) == t[done..]
    requires Inside(t, |m.space|) && ptr + done + size <= |m.buf|
    ensures done + size <= |t| && iovs[0].base + size <= |m.space|
    ensures MemAfter(reading, t, ptr, done + size, m)
            == MemAfter(reading, Range(iovs[0].base, size), ptr + done, size, MemAfter(reading, t, ptr, done, m))
    ensures Good(t, done + size, bad) <==> Good(t, done, bad) && !Faulty(iovs[0].base, size, bad)
  {
    NextRange(iovs, size, t, done);
    ChunkMoved(reading, t, ptr, done, iovs[0].base, size, m);
    GoodChunk(t, done, iovs[0].base, size, bad);
  }

  /** The cursor when done bytes have been moved; t, o and r are what was to be visited, the
      offset and uio_resid at the start. */
  ghost predicate Where(uio: Cursor, t: seq<nat>, o: int, r: Bits.u32, done: nat)
    requires done <= |t|
    reads uio
  {
    uio.All() == t[done..] && uio.offset == o + done && uio.resid == Less(r, done)
  }

  /** And the memories and the addresses, m being memory at the start. */
  ghost predicate Progress(uio: Cursor, reading: bool, space: array<Byte>, bad: set<nat>, buf: array<Byte>, ptr: nat,
                           t: seq<nat>, o: int, r: Bits.u32, m: Mem, done: nat)
    requires done <= |t| && Inside(t, |m.space|) && ptr + done <= |m.buf|
    reads uio, space, buf
  {
    && Where(uio, t, o, r, done)
    && Snap(space, buf) == MemAfter(reading, t, ptr, done, m)
    && (uio.user ==> Good(t, done, bad))
  }

  /** A fault after done bytes, of want to be moved. */
  ghost predicate Stuck(uio: Cursor, reading: bool, space: array<Byte>, bad: set<nat>, buf: array<Byte>,
                        t: seq<nat>, o: int, r: Bits.u32, m: Mem, done: nat, want: nat)
    requires done <= want <= |t|
    reads uio, space, buf
  {
    && Where(uio, t, o, r, done)
    && (if reading then Snap(space, buf).buf == m.buf else Snap(space, buf).space == m.space)
    && uio.user && !Good(t, want, bad)
  }

  /** The copying part of the loop body, done bytes having been moved: size bytes to or from the
      first buffer. */
  method MoveChunk(uio: Cursor, reading: bool, space: array<Byte>, bad: set<nat>, buf: array<Byte>, ghost ptr: nat, p: nat, size: nat,
                   ghost t: seq<nat>, ghost o: int, ghost r: Bits.u32, ghost m: Mem, ghost done: nat)
    returns (fault: bool)
    requires done <= |t| && Inside(t, |m.space|) && p == ptr + done && p + size <= |m.buf| && space != buf
    requires Progress(uio, reading, space, bad, buf, ptr, t, o, r, m, done)
    requires uio.iovs != [] && 0 < size <= uio.iovs[0].len
    modifies uio, space, buf
    ensures done + size <= |t|
    ensures fault ==> Stuck(uio, reading, space, bad, buf, t, o, r, m, done, done + size)
    ensures !fault ==> uio.iovs == Shortened(old(uio.iovs), size) && uio.resid == Less(old(uio.resid), size)
    ensures !fault ==> Progress(uio, reading, space, bad, buf, ptr, t, o, r, m, done + size)
  {
    var iov := uio.iovs[0];
    Chunk(uio.iovs, reading, t, ptr, done, size, m, bad);
    fault := CopyNext(reading, space, iov.base, buf, p, size, uio.user, bad, t, ptr, m, done);
    if fault { return; }
    Bump(uio, size, t, o, r, done);
  }

  /** The copy, as moving the next size of the addresses t. */
  method CopyNext(reading: bool, space: array<Byte>, base: nat, buf: array<Byte>, p: nat, size: nat, user: bool, bad: set<nat>,
                  ghost t: seq<nat>, ghost ptr: nat, ghost m: Mem, ghost done: nat)
    returns (fault: bool)
    requires done <= |t| && Inside(t, |m.space|) && p == ptr + done && p + size <= |m.buf| && space != buf && base + size <= |m.space|
    requires Snap(space, buf) == MemAfter(reading, t, ptr, done, m)
    modifies space, buf
    ensures fault <==> user && Faulty(base, size, bad)
    ensures if reading then Snap(space, buf).buf == m.buf else Snap(space, buf).space == m.space
    ensures !fault ==> Snap(space, buf) == MemAfter(reading, Range(base, size), p, size, MemAfter(reading, t, ptr, done, m))
  {
    MovesOneWay(reading, t, ptr, done, m);
    fault := Copy(reading, space, base, buf, p, size, user, bad, MemAfter(reading, t, ptr, done, m));
  }

  /** The cursor's advance within the first buffer. */
  method Bump(uio: Cursor, size: nat, ghost t: seq<nat>, ghost o: int, ghost r: Bits.u32, ghost done: nat)
    requires done <= |t| && Where(uio, t, o, r, done) && uio.iovs != [] && size <= uio.iovs[0].len
    modifies uio
    ensures uio.iovs == Shortened(old(uio.iovs), size) && uio.resid == Less(old(uio.resid), size)
    ensures done + size <= |t| && Where(uio, t, o, r, done + size)
  {
    var iov := uio.iovs[0];
    NextRange(uio.iovs, size, t, done);
    LessTwice(r, done, size);
    uio.iovs := [Iov(iov.base + size, iov.len - size)] + uio.iovs[1..];
    LessIsModulo(uio.resid, size);
    uio.resid := (uio.resid - size) % Bits.W;
    uio.offset := uio.offset + size;
  }

  /** How a call ends. */
  datatype Outcome = Done | Fault | Panic

  /** One turn of the loop, done bytes having been moved: skips an empty buffer, and panics if it
      was the last, or moves what the first one can take.  end is how the call will end. */
  method MoveTurn(uio: Cursor, reading: bool, space: array<Byte>, bad: set<nat>, buf: array<Byte>, ghost ptr: nat, p: nat, left: nat,
                  ghost t: seq<nat>, ghost o: int, ghost r: Bits.u32, ghost m: Mem, ghost done: nat, ghost end: End)
    returns (outcome: Outcome, size: nat, left': nat, ghost next: nat)
    requires 0 < left && uio.resid > 0 && uio.iovs != [] && p == ptr + done && p + left <= |m.buf| && space != buf
    requires done <= |t| && Inside(t, |m.space|) && Progress(uio, reading, space, bad, buf, ptr, t, o, r, m, done)
    requires end == Plus(Run(uio.iovs, left, uio.resid), done) && end.moved <= |t|
    modifies uio, space, buf
    ensures size <= left && left' == left - size && next == done + size <= |t| && done <= end.moved
    ensures outcome == Fault ==> Stuck(uio, reading, space, bad, buf, t, o, r, m, done, end.moved)
    ensures outcome != Fault ==> end == Plus(Run(uio.iovs, left', uio.resid), next)
    ensures outcome != Fault ==> Progress(uio, reading, space, bad, buf, ptr, t, o, r, m, next)
    ensures outcome == Panic ==> size == 0 && left' == left && next == done && uio.iovs == [] && uio.resid > 0
    ensures outcome == Done ==> uio.iovs != [] && (size == 0 ==> |uio.iovs| < |old(uio.iovs)|)
  {
    var iov := uio.iovs[0];
    size := if iov.len > left then left else iov.len;
    left', next := left - size, done + size;
    EndTurn(uio.iovs, left, uio.resid, size, done, end);
    if size == 0 {
      outcome := SkipBuffer(uio, reading, space, bad, buf, ptr, t, o, r, m, done);
    } else {
      outcome := ChunkTurn(uio, reading, space, bad, buf, ptr, p, size, t, o, r, m, done, end.moved);
    }
  }

  /** A turn that moves size of the want bytes. */
  method ChunkTurn(uio: Cursor, reading: bool, space: array<Byte>, bad: set<nat>, buf: array<Byte>, ghost ptr: nat, p: nat, size: nat,
                   ghost t: seq<nat>, ghost o: int, ghost r: Bits.u32, ghost m: Mem, ghost done: nat, ghost want: nat)
    returns (outcome: Outcome)
    requires done + size <= want <= |t| && Inside(t, |m.space|) && p == ptr + done && p + size <= |m.buf| && space != buf
    requires Progress(uio, reading, space, bad, buf, ptr, t, o, r, m, done)
    requires uio.iovs != [] && 0 < size <= uio.iovs[0].len
    modifies uio, space, buf
    ensures outcome != Panic
    ensures outcome == Fault ==> Stuck(uio, reading, space, bad, buf, t, o, r, m, done, want)
    ensures outcome == Done ==> uio.iovs == Shortened(old(uio.iovs), size) && uio.resid == Less(old(uio.resid), size)
    ensures outcome == Done ==> Progress(uio, reading, space, bad, buf, ptr, t, o, r, m, done + size)
  {
    var fault := MoveChunk(uio, reading, space, bad, buf, ptr, p, size, t, o, r, m, done);
    GoodPrefix(t, done + size, want, bad);
    outcome := if fault then Fault else Done;
  }

  lemma EndTurn(iovs: seq<Iov>, left: nat, resid: Bits.u32, size: nat, done: nat, end: End)
    requires left > 0 && resid > 0 && iovs != [] && size == Min(iovs[0].len, left) && end == Plus(Run(iovs, left, resid), done)
    ensures done + size <= end.moved
    ensures size > 0 ==> end == Plus(Run(Shortened(iovs, size), left - size, Less(resid, size)), done + size)
    ensures size == 0 ==> end == Plus(Run(iovs[1..], left, resid), done)
  {
    RunTurn(iovs, left, resid, size);
  }

  /** uio_iov++, and the panic if that was the last. */
  method SkipBuffer(uio: Cursor, ghost reading: bool, ghost space: array<Byte>, ghost bad: set<nat>, ghost buf: array<Byte>,
                    ghost ptr: nat, ghost t: seq<nat>, ghost o: int, ghost r: Bits.u32, ghost m: Mem, ghost done: nat)
    returns (outcome: Outcome)
    requires done <= |t| && Inside(t, |m.space|) && ptr + done <= |m.buf| && Progress(uio, reading, space, bad, buf, ptr, t, o, r, m, done)
    requires uio.iovs != [] && uio.iovs[0].len == 0
    modifies uio`iovs
    ensures uio.iovs == old(uio.iovs)[1..] && Progress(uio, reading, space, bad, buf, ptr, t, o, r, m, done)
    ensures outcome == if uio.iovs == [] then Panic else Done
  {
    NextRange(uio.iovs, 0, t, done);
    uio.iovs := uio.iovs[1..];
    outcome := if uio.iovs == [] then Panic else Done;
  }

  /** uiomove, for every uio.  done is the number of bytes moved; a fault happens exactly when one
      of the addresses to be visited is bad, and then the cursor stands before the buffer that
      faulted; otherwise buffers, uio_resid and the panic are those of Run. */
  method Move(uio: Cursor, reading: bool, space: array<Byte>, bad: set<nat>, buf: array<Byte>, ptr: nat, n: nat)
    returns (outcome: Outcome, ghost done: nat)
    requires uio.Ready() && Inside(uio.All(), space.Length) && ptr + n <= buf.Length && space != buf
    modifies uio, space, buf
    ensures var t, e := old(uio.All()), Run(old(uio.iovs), n, old(uio.resid));
            && done <= e.moved <= |t| && e.moved <= n && uio.All() == t[done..]
            && uio.offset == old(uio.offset) + done && uio.resid == Less(old(uio.resid), done)
            && (outcome == Fault <==> uio.user && !Good(t, e.moved, bad))
            && (outcome != Fault ==> done == e.moved && uio.iovs == e.iovs && (outcome == Panic <==> e.panic))
            && (outcome != Fault ==> Snap(space, buf) == MemAfter(reading, t, ptr, done, old(Snap(space, buf))))
    ensures if reading then Snap(space, buf).buf == old(Snap(space, buf)).buf else Snap(space, buf).space == old(Snap(space, buf)).space
  {
    ghost var t, o, r, m := uio.All(), uio.offset, uio.resid, Snap(space, buf);
    ghost var end := Run(uio.iovs, n, r);
    assert t[0..] == t;
    RunRest(uio.iovs, n, r);
    outcome, done := MoveFrom(uio, reading, space, bad, buf, ptr, n, t, o, r, m, end);
  }

  /** The call, in terms of how things stood at its start. */
  method MoveFrom(uio: Cursor, reading: bool, space: array<Byte>, bad: set<nat>, buf: array<Byte>, ptr: nat, n: nat,
                  ghost t: seq<nat>, ghost o: int, ghost r: Bits.u32, ghost m: Mem, ghost end: End)
    returns (outcome: Outcome, ghost done: nat)
    requires uio.Ready() && Inside(t, |m.space|) && ptr + n <= |m.buf| && space != buf
    requires Progress(uio, reading, space, bad, buf, ptr, t, o, r, m, 0)
    requires end == Plus(Run(uio.iovs, n, uio.resid), 0) && end.moved <= |t|
    modifies uio, space, buf
    ensures done <= end.moved && done <= n && Where(uio, t, o, r, done)
    ensures if reading then Snap(space, buf).buf == m.buf else Snap(space, buf).space == m.space
    ensures outcome == Fault ==> uio.user && !Good(t, end.moved, bad)
    ensures outcome != Fault ==> end == End(uio.iovs, uio.resid, done, outcome == Panic) && (uio.user ==> Good(t, done, bad))
    ensures outcome != Fault ==> Snap(space, buf) == MemAfter(reading, t, ptr, done, m)
  {
    var left;
    outcome, left, done := MoveLoop(uio, reading, space, bad, buf, ptr, n, t, o, r, m, end);
    MovesOneWay(reading, t, ptr, done, m);
    RunOver(uio.iovs, left, uio.resid);
  }

  /** Nothing left to be done, or nothing left to do it with. */
  lemma RunOver(iovs: seq<Iov>, left: nat, resid: Bits.u32)
    ensures left == 0 || resid == 0 || iovs == [] ==> Run(iovs, left, resid) == End(iovs, resid, 0, left > 0 && resid > 0)
  {
  }

  /** The loop of uiomove, and how many bytes it has left undone. */
  method MoveLoop(uio: Cursor, reading: bool, space: array<Byte>, bad: set<nat>, buf: array<Byte>, ptr: nat, n: nat,
                  ghost t: seq<nat>, ghost o: int, ghost r: Bits.u32, ghost m: Mem, ghost end: End)
    returns (outcome: Outcome, left: nat, ghost done: nat)
    requires uio.Ready() && Inside(t, |m.space|) && ptr + n <= |m.buf| && space != buf
    requires Progress(uio, reading, space, bad, buf, ptr, t, o, r, m, 0)
    requires end == Plus(Run(uio.iovs, n, uio.resid), 0) && end.moved <= |t|
    modifies uio, space, buf
    ensures done <= end.moved && done + left == n
    ensures outcome == Fault ==> Stuck(uio, reading, space, bad, buf, t, o, r, m, done, end.moved)
    ensures outcome != Fault ==> end == Plus(Run(uio.iovs, left, uio.resid), done)
    ensures outcome != Fault ==> Progress(uio, reading, space, bad, buf, ptr, t, o, r, m, done)
    ensures outcome == Done ==> left == 0 || uio.resid == 0
    ensures outcome == Panic ==> uio.iovs == [] && left > 0 && uio.resid > 0
  {
    done := 0;
    var p: nat := ptr;
    left, outcome := n, Done;
    while left > 0 && uio.resid > 0
      invariant done + left == n && p == ptr + done && done <= |t| && outcome == Done && uio.Ready()
      invariant end == Plus(Run(uio.iovs, left, uio.resid), done)
      invariant Progress(uio, reading, space, bad, buf, ptr, t, o, r, m, done)
      decreases left, |uio.iovs|
    {
      var size, rest;
      ghost var next;
      outcome, size, rest, next := MoveTurn(uio, reading, space, bad, buf, ptr, p, left, t, o, r, m, done, end);
      if outcome != Done { return; }
      left, p, done := rest, p + size, next;
    }
  }

  /** What Move achieves when reading, in terms of the data alone. */
  lemma MovedView(v: View, buf: seq<Byte>, ptr: nat, n: nat)
    requires Ok(v) && ptr + n <= |buf|
    ensures var k := Min(n, |v.targets|);
            View(v.targets[k..], v.offset + k, MemAfter(true, v.targets, ptr, k, Mem(v.space, buf)).space) == Moved(v, buf[ptr..ptr + n])
  {
    var k := Min(n, |v.targets|);
    StoredAtOnce(v.targets, ptr, k, Mem(v.space, buf));
    assert buf[ptr..ptr + n][..k] == buf[ptr..ptr + k];
  }

  function Zeros(n: nat): seq<Byte> {
    seq(n, _ => 0)
  }

  /** One zero after the other. */
  ghost function ZerosMoved(v: View, n: nat): (r: View)
    requires Ok(v)
    ensures Ok(r)
  {
    if n == 0 then v else Moved(ZerosMoved(v, n - 1), [0])
  }

  lemma {:induction false} ZerosAtOnce(v: View, n: nat)
    requires Ok(v)
    ensures ZerosMoved(v, n) == Moved(v, Zeros(n))
  {
    if n == 0 {
      NoZeros(v);
    } else {
      ZerosAtOnce(v, n - 1);
      MoveCompose(v, Zeros(n - 1), [0]);
      assert Zeros(n - 1) + [0] == Zeros(n);
    }
  }

  ghost function Look(uio: Cursor, space: array<Byte>): View
    reads uio, space
  {
    View(uio.All(), uio.offset, space[..])
  }

  /** uiomovezeros: calls of uiomove for sixteen bytes each, and fewer at the end. */
  function RunZeros(iovs: seq<Iov>, n: nat, resid: Bits.u32): End
    decreases n
  {
    if n == 0 then End(iovs, resid, 0, false)
    else var amt := Min(16, n);
         var e := Run(iovs, amt, resid);
         if e.panic then e else Plus(RunZeros(e.iovs, n - amt, e.resid), e.moved)
  }

  /** Where such calls stop: at the end of a buffer, or after a multiple of sixteen. */
  predicate Stops(iovs: seq<Iov>, resid: nat) {
    Boundary(iovs, resid) || (resid % 16 == 0 && resid <= |Targets(iovs)|)
  }

  /** How much they move, and when they panic. */
  lemma {:induction false} ZerosExact(iovs: seq<Iov>, n: nat, resid: Bits.u32)
    requires |Targets(iovs)| < Bits.W
    ensures RunZeros(iovs, n, resid).moved == (if Stops(iovs, resid) then Min(n, resid) else Min(n, |Targets(iovs)|))
    ensures RunZeros(iovs, n, resid).panic <==> n > |Targets(iovs)| && !Stops(iovs, resid)
    decreases n
  {
    if n == 0 {
    } else {
      var amt := Min(16, n);
      var e := Run(iovs, amt, resid);
      RunExact(iovs, amt, resid);
      if !e.panic {
        RunRest(iovs, amt, resid);
        ZerosExact(e.iovs, n - amt, e.resid);
        StopsAfter(iovs, amt, resid);
        BoundaryBelow(iovs, resid);
        var rest := RunZeros(e.iovs, n - amt, e.resid);
        ZerosSum(n, amt, resid, |Targets(iovs)|, e.moved, e.resid, Boundary(iovs, resid), Stops(iovs, resid), Stops(e.iovs, e.resid),
                 rest.moved, rest.panic);
      }
    }
  }

  /** The sums, for one call of amt bytes that moves k and calls for the rest. */
  lemma ZerosSum(n: nat, amt: nat, r: nat, total: nat, k: nat, r': nat, ends: bool, stops: bool, stops': bool, moved: nat, panic: bool)
    requires n > 0 && amt == Min(16, n) && total < Bits.W && (ends ==> stops && r <= total) && (amt <= total || ends) && (r == 0 ==> ends)
    requires !ends ==> (stops <==> r % 16 == 0 && r <= total)
    requires k == (if ends then Min(amt, r) else Min(amt, total)) && r' == if k <= r then r - k else r - k + Bits.W
    requires amt == 16 || r == 0 || ends ==> (stops' <==> stops)
    requires moved == (if stops' then Min(n - amt, r') else Min(n - amt, total - k)) && (panic <==> n - amt > total - k && !stops')
    ensures k + moved == (if stops then Min(n, r) else Min(n, total)) && (panic <==> n > total && !stops)
  {
  }

  /** A call that is not the last does not change where they will stop. */
  lemma StopsAfter(iovs: seq<Iov>, amt: nat, resid: Bits.u32)
    requires |Targets(iovs)| < Bits.W && 0 < amt <= 16 && !Run(iovs, amt, resid).panic
    ensures var e := Run(iovs, amt, resid);
            && (amt == 16 || resid == 0 || Boundary(iovs, resid) ==> (Stops(e.iovs, e.resid) <==> Stops(iovs, resid)))
            && (resid < e.moved ==> !Boundary(iovs, resid))
  {
    var e := Run(iovs, amt, resid);
    RunExact(iovs, amt, resid);
    RunRest(iovs, amt, resid);
    BoundaryBelow(e.iovs, e.resid);
    if e.resid > 0 { RunEnds(iovs, amt, resid, e.resid); }
  }

  /** m zeros have been moved, starting from v; left more calls will end as end says. */
  ghost predicate Zeroed(uio: Cursor, space: array<Byte>, bad: set<nat>, zeros: array<Byte>, v: View, end: End, m: nat, left: nat)
    reads uio, space, zeros
    requires Ok(v)
  {
    && uio.Ready() && zeros.Length == 16 && zeros[..] == Zeros(16) && m <= |v.targets|
    && end == Plus(RunZeros(uio.iovs, left, uio.resid), m)
    && Look(uio, space) == ZerosMoved(v, m) && (uio.user ==> Good(v.targets, m, bad))
  }

  /** At most sixteen zeros more. */
  method MoveSomeZeros(uio: Cursor, space: array<Byte>, bad: set<nat>, zeros: array<Byte>, amt: nat,
                       ghost v: View, ghost end: End, ghost m: nat, ghost left: nat)
    returns (outcome: Outcome, ghost k: nat)
    requires Ok(v) && zeros != space && left > 0 && amt == Min(16, left) && Zeroed(uio, space, bad, zeros, v, end, m, left)
    requires end.moved <= |v.targets|
    modifies uio, space, zeros
    ensures outcome == Fault ==> uio.user && !Good(v.targets, end.moved, bad)
    ensures outcome == Done ==> Zeroed(uio, space, bad, zeros, v, end, m + k, left - amt)
    ensures outcome == Panic ==> end == End(uio.iovs, uio.resid, m + k, true) && Look(uio, space) == ZerosMoved(v, m + k)
    ensures outcome == Panic ==> (uio.user ==> Good(v.targets, m + k, bad))
  {
    k := ZerosTurn(uio.iovs, left, amt, uio.resid, m, end);
    ZerosCall(v, m, k, end.moved, bad);
    ghost var done;
    outcome, done := Move(uio, true, space, bad, zeros, 0, amt);
  }

  /** How one call carries on. */
  lemma ZerosTurn(iovs: seq<Iov>, left: nat, amt: nat, resid: Bits.u32, m: nat, end: End) returns (k: nat)
    requires left > 0 && amt == Min(16, left) && end == Plus(RunZeros(iovs, left, resid), m)
    ensures var e := Run(iovs, amt, resid);
            && k == e.moved <= amt && m + k <= end.moved && e.resid == Less(resid, k) && (iovs != [] && !e.panic ==> e.iovs != [])
            && (e.panic ==> end == End(e.iovs, e.resid, m + k, true))
            && (!e.panic ==> end == Plus(RunZeros(e.iovs, left - amt, e.resid), m + k))
            && (resid == 0 ==> e.resid == 0)
  {
    RunRest(iovs, amt, resid);
    k := Run(iovs, amt, resid).moved;
  }

  /** What k zeros out of the buffer of sixteen add. */
  lemma ZerosCall(v: View, m: nat, k: nat, total: nat, bad: set<nat>)
    requires Ok(v) && k <= 16 && m + k <= total <= |v.targets|
    ensures var now := ZerosMoved(v, m);
            && now.targets == v.targets[m..]
            && View(now.targets[k..], now.offset + k, MemAfter(true, now.targets, 0, k, Mem(now.space, Zeros(16))).space)
               == ZerosMoved(v, m + k)
    ensures Good(v.targets, m + k, bad) <==> Good(v.targets, m, bad) && Good(v.targets[m..], k, bad)
    ensures Good(v.targets, total, bad) ==> Good(v.targets, m + k, bad)
  {
    ZerosTargets(v, m);
    SixteenZeros(ZerosMoved(v, m), k);
    ZerosAdd(v, m, k);
    GoodMore(v.targets, m, k, bad);
    GoodPrefix(v.targets, m + k, total, bad);
  }

  /** The first amt bytes of the zero buffer. */
  lemma SixteenZeros(now: View, amt: nat)
    requires Ok(now) && amt <= 16
    ensures var k := Min(amt, |now.targets|);
            View(now.targets[k..], now.offset + k, MemAfter(true, now.targets, 0, k, Mem(now.space, Zeros(16))).space)
            == ZerosMoved(now, amt)
  {
    MovedView(now, Zeros(16), 0, amt);
    assert Zeros(16)[0..amt] == Zeros(amt);
    ZerosAtOnce(now, amt);
  }

  lemma {:induction false} ZerosAdd(v: View, a: nat, b: nat)
    requires Ok(v)
    ensures ZerosMoved(ZerosMoved(v, a), b) == ZerosMoved(v, a + b)
  {
    if b == 0 {
    } else {
      ZerosAdd(v, a, b - 1);
    }
  }

  lemma ZerosTargets(v: View, n: nat)
    requires Ok(v)
    ensures ZerosMoved(v, n).targets == v.targets[Min(n, |v.targets|)..]
  {
    ZerosAtOnce(v, n);
  }

  /** uiomovezeros moves sixteen zeros at a time, for every uio; the effect is that of one move of
      as many zeros as RunZeros says. */
  method MoveZeros(uio: Cursor, space: array<Byte>, bad: set<nat>, n: nat) returns (outcome: Outcome)
    requires uio.Ready() && Inside(uio.All(), space.Length)
    modifies uio, space
    ensures var e := RunZeros(old(uio.iovs), n, old(uio.resid));
            && e.moved <= |old(uio.All())|
            && (outcome == Fault <==> uio.user && !Good(old(uio.All()), e.moved, bad))
            && (outcome != Fault ==> uio.iovs == e.iovs && uio.resid == e.resid && (outcome == Panic <==> e.panic))
            && (outcome != Fault ==> Look(uio, space) == Moved(old(Look(uio, space)), Zeros(e.moved)))
  {
    ghost var v, end := Look(uio, space), RunZeros(uio.iovs, n, uio.resid);
    ZerosRest(uio.iovs, n, uio.resid);
    ZerosAtOnce(v, end.moved);
    var zeros := new Byte[16](_ => 0);
    assert zeros[..] == Zeros(16);
    assert Look(uio, space) == v;
    ghost var m;
    outcome, m := ZerosLoop(uio, space, bad, zeros, n, v, end);
  }

  lemma {:induction false} ZerosRest(iovs: seq<Iov>, n: nat, resid: Bits.u32)
    ensures RunZeros(iovs, n, resid).moved <= |Targets(iovs)|
    decreases n
  {
    if n == 0 {
    } else {
      var e := Run(iovs, Min(16, n), resid);
      RunRest(iovs, Min(16, n), resid);
      ZerosRest(e.iovs, n - Min(16, n), e.resid);
    }
  }

  method ZerosLoop(uio: Cursor, space: array<Byte>, bad: set<nat>, zeros: array<Byte>, n: nat, ghost v: View, ghost end: End)
    returns (outcome: Outcome, ghost m: nat)
    requires Ok(v) && zeros != space && Zeroed(uio, space, bad, zeros, v, end, 0, n) && end.moved <= |v.targets|
    modifies uio, space, zeros
    ensures outcome == Fault ==> uio.user && !Good(v.targets, end.moved, bad)
    ensures outcome != Fault ==> end == End(uio.iovs, uio.resid, m, outcome == Panic) && Look(uio, space) == ZerosMoved(v, m)
    ensures outcome != Fault ==> (uio.user ==> Good(v.targets, m, bad))
  {
    var left: nat := n;
    m, outcome := 0, Done;
    while left > 0
      invariant left <= n && outcome == Done && Zeroed(uio, space, bad, zeros, v, end, m, left)
    {
      var amt := if 16 > left then left else 16;
      ghost var k;
      outcome, k := MoveSomeZeros(uio, space, bad, zeros, amt, v, end, m, left);
      if outcome == Fault { return; }
      m := m + k;
      if outcome == Panic { return; }
      left := left - amt;
    }
  }

  lemma NoZeros(v: View)
    requires Ok(v)
    ensures Moved(v, Zeros(0)) == v
  {
  }
}
