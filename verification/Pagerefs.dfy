/** The bitmaps of pageref structures: eight 32-bit words and a count for each of the sixteen
    pageref pages.  Words are numbers; and, or and shift are those of module Bits. */
module Pagerefs {

  import Bits
  import Kmalloc

  const WORDS := 8
  const SLOTS := 256

  /** Bit j of a number. */
  predicate Bit(w: nat, j: nat) {
    if j == 0 then w % 2 == 1 else Bit(w / 2, j - 1)
  }

  function Popcount(w: nat): nat {
    if w == 0 then 0 else w % 2 + Popcount(w / 2)
  }

  lemma {:induction false} ZeroBits(j: nat)
    ensures !Bit(0, j)
  {
    if j == 0 {
    } else {
      ZeroBits(j - 1);
    }
  }

  lemma {:induction false} OrZero(w: nat)
    ensures Bits.Or(w, 0) == w && Bits.And(w, 0) == 0
  {
    if w == 0 {
    } else {
      OrZero(w / 2);
    }
  }

  /** inuse & k is zero exactly when the bit is clear. */
  lemma {:induction false} TestBit(w: nat, j: nat)
    ensures Bits.And(w, Bits.Pow2(j)) == 0 <==> !Bit(w, j)
  {
    if w == 0 {
      ZeroBits(j);
    } else if j == 0 {
      OrZero(w / 2);
    } else {
      assert Bits.Pow2(j) / 2 == Bits.Pow2(j - 1) && Bits.Pow2(j) % 2 == 0;
      TestBit(w / 2, j - 1);
    }
  }

  /** inuse |= k sets the bit and no other, and raises the population by one. */
  lemma {:induction false} SetBit(w: nat, j: nat)
    requires !Bit(w, j)
    ensures Bits.Or(w, Bits.Pow2(j)) == w + Bits.Pow2(j)
    ensures Popcount(w + Bits.Pow2(j)) == Popcount(w) + 1
  {
    var p := Bits.Pow2(j);
    if j == 0 {
      OrZero(w / 2);
      assert (w + 1) / 2 == w / 2 && (w + 1) % 2 == 1;
    } else {
      var q := Bits.Pow2(j - 1);
      assert p == 2 * q && p / 2 == q && p % 2 == 0;
      assert (w + p) / 2 == w / 2 + q && (w + p) % 2 == w % 2;
      SetBit(w / 2, j - 1);
    }
  }

  lemma {:induction false} SetBitOnly(w: nat, j: nat, i: nat)
    requires !Bit(w, j)
    ensures Bit(w + Bits.Pow2(j), i) <==> Bit(w, i) || i == j
  {
    var p := Bits.Pow2(j);
    if j == 0 {
      assert (w + 1) / 2 == w / 2 && (w + 1) % 2 == 1;
    } else {
      var q := Bits.Pow2(j - 1);
      assert (w + p) / 2 == w / 2 + q && (w + p) % 2 == w % 2;
      if i > 0 { SetBitOnly(w / 2, j - 1, i - 1); }
    }
  }

  lemma ClearLow(w: nat, m: nat, n: nat)
    requires w % 2 == 1 && m == Bits.Pow2(n) && w < 2 * m
    ensures Bits.And(w, 2 * m - 2) == w - 1
  {
    var h := w / 2;
    Bits.AndMask(h, n);
    Bits.DivModUnique(h, m, 0, h);
    var mask := 2 * m - 2;
    assert mask / 2 == m - 1 && mask % 2 == 0;
    if mask == 0 {
      assert w == 1;
    } else {
      assert Bits.And(w, mask) == 2 * Bits.And(h, m - 1);
    }
  }

  lemma AndStep(h: nat, r: nat, half: nat)
    requires r <= 1 && 2 * h + r > 0
    ensures Bits.And(2 * h + r, 2 * half + 1) == 2 * Bits.And(h, half) + r
  {
    var w, mask := 2 * h + r, 2 * half + 1;
    assert w / 2 == h && w % 2 == r && mask / 2 == half && mask % 2 == 1;
  }

  /** inuse &= ~k on n-bit words clears the bit. */
  lemma {:induction false} ClearBit(w: nat, j: nat, n: nat)
    requires Bit(w, j) && j < n && w < Bits.Pow2(n)
    ensures w >= Bits.Pow2(j) && Bits.Pow2(j) < Bits.Pow2(n)
    ensures Bits.And(w, Bits.Pow2(n) - 1 - Bits.Pow2(j)) == w - Bits.Pow2(j)
    ensures !Bit(w - Bits.Pow2(j), j)
  {
    var m := Bits.Pow2(n - 1);
    if j == 0 {
      ClearLow(w, m, n - 1);
    } else {
      var q := Bits.Pow2(j - 1);
      ClearBit(w / 2, j - 1, n - 1);
      AndStep(w / 2, w % 2, m - 1 - q);
      assert (w - 2 * q) / 2 == w / 2 - q;
    }
  }

  /** A word that is not all ones has a clear bit; its population is below its width. */
  lemma {:induction false} NotFull(w: nat, n: nat) returns (j: nat)
    requires w < Bits.Pow2(n) && w != Bits.Pow2(n) - 1
    ensures j < n && !Bit(w, j)
  {
    if w % 2 == 0 {
      j := 0;
    } else {
      j := NotFull(w / 2, n - 1);
      j := j + 1;
    }
  }

  lemma {:induction false} PopulationBound(w: nat, n: nat)
    requires w < Bits.Pow2(n)
    ensures Popcount(w) <= n && (Popcount(w) == n <==> w == Bits.Pow2(n) - 1)
  {
    if n == 0 {
    } else {
      PopulationBound(w / 2, n - 1);
    }
  }

  lemma {:induction false} FullBits(n: nat, j: nat)
    requires j < n
    ensures Bit(Bits.Pow2(n) - 1, j)
  {
    var m := Bits.Pow2(n - 1);
    assert (2 * m - 1) / 2 == m - 1 && (2 * m - 1) % 2 == 1;
    if j == 0 {
    } else {
      FullBits(n - 1, j - 1);
    }
  }

  /** Population of a bitmap. */
  function PopAll(ws: seq<nat>): nat {
    if ws == [] then 0 else PopAll(ws[..|ws| - 1]) + Popcount(ws[|ws| - 1])
  }

  lemma {:induction false} PopUpdate(ws: seq<nat>, i: nat, w: nat)
    requires i < |ws|
    ensures PopAll(ws[i := w]) == PopAll(ws) - Popcount(ws[i]) + Popcount(w)
  {
    var n := |ws| - 1;
    if i == n {
      assert ws[i := w][..n] == ws[..n];
    } else {
      assert ws[i := w][..n] == ws[..n][i := w];
      PopUpdate(ws[..n], i, w);
    }
  }

  /** The bitmap is full exactly when its population is its size. */
  lemma {:induction false} PopFull(ws: seq<nat>)
    requires forall i :: 0 <= i < |ws| ==> ws[i] < Bits.W
    ensures PopAll(ws) <= 32 * |ws|
    ensures PopAll(ws) == 32 * |ws| <==> forall i :: 0 <= i < |ws| ==> ws[i] == Bits.W - 1
  {
    if ws == [] {
    } else {
      var n := |ws| - 1;
      PopFull(ws[..n]);
      Bits.Pow2Values();
      PopulationBound(ws[n], 32);
      assert forall i :: 0 <= i < n ==> ws[..n][i] == ws[i];
    }
  }

  /** The bit of pageref s in a bitmap. */
  predicate Used(ws: seq<nat>, s: nat)
    requires s < 32 * |ws|
  {
    Bit(ws[s / 32], s % 32)
  }

  ghost predicate WellFormed(ws: seq<nat>) {
    |ws| == WORDS && forall i :: 0 <= i < WORDS ==> ws[i] < Bits.W
  }

  /** The loop over the bits of a word that is not full: the lowest clear one. */
  method FirstClear(w: nat) returns (j: nat, k: nat)
    requires w < Bits.W && w != Bits.W - 1
    ensures j < 32 && k == Bits.Pow2(j) && !Bit(w, j) && forall i :: 0 <= i < j ==> Bit(w, i)
  {
    Bits.Pow2Values();
    k, j := 1, 0;
    ghost var hole := NotFull(w, 32);
    while k != 0
      invariant j <= hole && k == Bits.Pow2(j) && forall i :: 0 <= i < j ==> Bit(w, i)
      decreases 32 - j
    {
      TestBit(w, j);
      if Bits.And(w, k) == 0 { return; }
      NextPower(j);
      k, j := (2 * k) % Bits.W, j + 1;
    }
  }

  lemma NextPower(j: nat)
    requires j < 31
    ensures (2 * Bits.Pow2(j)) % Bits.W == Bits.Pow2(j + 1)
  {
    Bits.Pow2Values();
    PowerBelow(j + 1, 32);
  }

  lemma {:induction false} PowerBelow(i: nat, j: nat)
    requires i < j
    ensures 2 * Bits.Pow2(i) <= Bits.Pow2(j)
  {
    if i + 1 < j { PowerBelow(i, j - 1); }
  }

  /** Setting the bit of pageref s. */
  lemma MarkUsed(ws: seq<nat>, i: nat, j: nat)
    requires WellFormed(ws) && i < WORDS && j < 32 && !Bit(ws[i], j)
    ensures var ws' := ws[i := ws[i] + Bits.Pow2(j)];
            && WellFormed(ws') && PopAll(ws') == PopAll(ws) + 1
            && forall s: nat :: s < SLOTS ==> (Used(ws', s) <==> Used(ws, s) || s == 32 * i + j)
  {
    var w := ws[i] + Bits.Pow2(j);
    Bits.Pow2Values();
    SetBit(ws[i], j);
    PopUpdate(ws, i, w);
    BelowWord(ws[i], j, 32);
    var ws' := ws[i := w];
    forall s: nat | s < SLOTS ensures Used(ws', s) <==> Used(ws, s) || s == 32 * i + j {
      UsedAfter(ws, i, j, s);
    }
  }

  lemma UsedAfter(ws: seq<nat>, i: nat, j: nat, s: nat)
    requires WellFormed(ws) && i < WORDS && j < 32 && !Bit(ws[i], j) && s < SLOTS
    ensures Used(ws[i := ws[i] + Bits.Pow2(j)], s) <==> Used(ws, s) || s == 32 * i + j
  {
    assert s == 32 * i + j <==> s / 32 == i && s % 32 == j;
    if s / 32 == i { SetBitOnly(ws[i], j, s % 32); }
  }

  lemma {:induction false} BelowWord(w: nat, j: nat, n: nat)
    requires j < n && w < Bits.Pow2(n) && !Bit(w, j)
    ensures w + Bits.Pow2(j) < Bits.Pow2(n)
  {
    var m := Bits.Pow2(n - 1);
    if j == 0 {
    } else {
      BelowWord(w / 2, j - 1, n - 1);
    }
  }

  /** Clearing it undoes that. */
  lemma MarkFree(ws: seq<nat>, i: nat, j: nat)
    requires WellFormed(ws) && i < WORDS && j < 32 && Bit(ws[i], j)
    ensures ws[i] >= Bits.Pow2(j)
    ensures var ws' := ws[i := ws[i] - Bits.Pow2(j)];
            && WellFormed(ws') && PopAll(ws') == PopAll(ws) - 1
            && forall s: nat :: s < SLOTS ==> (Used(ws', s) <==> Used(ws, s) && s != 32 * i + j)
  {
    var p := Bits.Pow2(j);
    ClearedWord(ws[i], j);
    var ws' := ws[i := ws[i] - p];
    assert ws'[i := ws'[i] + p] == ws;
    MarkUsed(ws', i, j);
    NotUsed(ws', i, j);
    FlipBack(ws', ws, 32 * i + j);
  }

  lemma ClearedWord(w: nat, j: nat)
    requires w < Bits.W && j < 32 && Bit(w, j)
    ensures w >= Bits.Pow2(j) && !Bit(w - Bits.Pow2(j), j)
  {
    Bits.Pow2Values();
    ClearBit(w, j, 32);
  }

  lemma FlipBack(ws: seq<nat>, ws': seq<nat>, x: nat)
    requires |ws| == |ws'| == WORDS && x < SLOTS && !Used(ws, x)
    requires forall s: nat :: s < SLOTS ==> (Used(ws', s) <==> Used(ws, s) || s == x)
    ensures forall s: nat :: s < SLOTS ==> (Used(ws, s) <==> Used(ws', s) && s != x)
  {
  }

  lemma NotUsed(ws: seq<nat>, i: nat, j: nat)
    requires WellFormed(ws) && i < WORDS && j < 32 && !Bit(ws[i], j)
    ensures !Used(ws, 32 * i + j)
  {
    assert (32 * i + j) / 32 == i && (32 * i + j) % 32 == j;
  }

  /** struct kheap_root. */
  class Root {
    var page: nat
    const inuse: array<nat>
    var numinuse: nat

    constructor ()
      ensures Valid() && page == 0 && fresh(inuse) && forall s: nat :: s < SLOTS ==> !Used(inuse[..], s)
    {
      page, numinuse := 0, 0;
      inuse := new nat[WORDS](_ => 0);
      new;
      NoneUsed(inuse[..]);
    }

    /** numinuse is the population of the bitmap. */
    ghost predicate Valid()
      reads this, inuse
    {
      WellFormed(inuse[..]) && numinuse == PopAll(inuse[..])
    }

    /** The search of allocpageref within a root that is not full: marks the first free
        pageref. */
    method Alloc() returns (slot: nat)
      requires Valid() && numinuse < SLOTS
      modifies this`numinuse, inuse
      ensures Valid() && numinuse == old(numinuse) + 1
      ensures slot < SLOTS && !Used(old(inuse[..]), slot) && forall s: nat :: s < slot ==> Used(old(inuse[..]), s)
      ensures forall s: nat :: s < SLOTS ==> (Used(inuse[..], s) <==> Used(old(inuse[..]), s) || s == slot)
    {
      ghost var ws := inuse[..];
      var i := FindWord();
      var j, k := FirstClear(inuse[i]);
      SetBit(inuse[i], j);
      MarkUsed(ws, i, j);
      FirstFree(ws, i, j);
      inuse[i] := Bits.Or(inuse[i], k);
      numinuse := numinuse + 1;
      slot := 32 * i + j;
      assert inuse[..] == ws[i := ws[i] + Bits.Pow2(j)];
    }

    /** The loop over the words, skipping full ones. */
    method FindWord() returns (i: nat)
      requires Valid() && numinuse < SLOTS
      ensures i < WORDS && inuse[i] != Bits.W - 1 && forall k :: 0 <= k < i ==> inuse[k] == Bits.W - 1
    {
      ghost var ws := inuse[..];
      PopFull(ws);
      i := 0;
      while inuse[i] == Bits.W - 1
        invariant 0 <= i < WORDS && forall k :: 0 <= k < i ==> inuse[k] == Bits.W - 1
        decreases WORDS - i
      {
        assert i + 1 < WORDS by { assert exists k :: 0 <= k < WORDS && ws[k] != Bits.W - 1; }
        i := i + 1;
      }
    }

    /** freepageref on this root. */
    method Free(slot: nat)
      requires Valid() && slot < SLOTS && Used(inuse[..], slot)
      modifies this`numinuse, inuse
      ensures Valid() && numinuse == old(numinuse) - 1
      ensures forall s: nat :: s < SLOTS ==> (Used(inuse[..], s) <==> Used(old(inuse[..]), s) && s != slot)
    {
      ghost var ws := inuse[..];
      var i, j := slot / 32, slot % 32;
      Bits.Pow2Values();
      ClearBit(inuse[i], j, 32);
      MarkFree(ws, i, j);
      inuse[i] := Bits.And(inuse[i], Bits.W - 1 - Bits.Pow2(j));
      numinuse := numinuse - 1;
      assert inuse[..] == ws[i := ws[i] - Bits.Pow2(j)];
    }
  }

  lemma NoneUsed(ws: seq<nat>)
    requires |ws| == WORDS && forall i :: 0 <= i < WORDS ==> ws[i] == 0
    ensures PopAll(ws) == 0 && forall s: nat :: s < SLOTS ==> !Used(ws, s)
  {
    forall s: nat | s < SLOTS ensures !Used(ws, s) { ZeroBits(s % 32); }
    AllZero(ws);
  }

  lemma {:induction false} AllZero(ws: seq<nat>)
    requires forall i :: 0 <= i < |ws| ==> ws[i] == 0
    ensures PopAll(ws) == 0
  {
    if ws == [] {
    } else {
      AllZero(ws[..|ws| - 1]);
    }
  }

  lemma FirstFree(ws: seq<nat>, i: nat, j: nat)
    requires WellFormed(ws) && i < WORDS && j < 32
    requires forall k :: 0 <= k < i ==> ws[k] == Bits.W - 1
    requires !Bit(ws[i], j) && forall b :: 0 <= b < j ==> Bit(ws[i], b)
    ensures !Used(ws, 32 * i + j) && forall s: nat :: s < 32 * i + j ==> Used(ws, s)
  {
    Bits.Pow2Values();
    assert (32 * i + j) / 32 == i && (32 * i + j) % 32 == j;
    forall s: nat | s < 32 * i + j ensures Used(ws, s) {
      if s / 32 < i { FullBits(32, s % 32); }
    }
  }

  ghost predicate AllInUse(ws: seq<nat>) {
    WellFormed(ws) && forall s: nat :: s < SLOTS ==> Used(ws, s)
  }

  /** allocpageref looks for the first root that is not full; when there is none, every
      pageref is in use. */
  method PickRoot(roots: seq<Root>) returns (r: nat)
    requires forall i :: 0 <= i < |roots| ==> roots[i].Valid()
    ensures r <= |roots| && (r < |roots| ==> roots[r].numinuse < SLOTS)
    ensures forall i :: 0 <= i < r ==> AllInUse(roots[i].inuse[..])
  {
    r := 0;
    while r < |roots| && roots[r].numinuse >= SLOTS
      invariant 0 <= r <= |roots|
      invariant forall i :: 0 <= i < r ==> AllInUse(roots[i].inuse[..])
    {
      AllUsed(roots[r].inuse[..]);
      r := r + 1;
    }
  }

  lemma AllUsed(ws: seq<nat>)
    requires WellFormed(ws) && PopAll(ws) >= SLOTS
    ensures AllInUse(ws)
  {
    PopFull(ws);
    Bits.Pow2Values();
    forall s: nat | s < SLOTS ensures Used(ws, s) { FullBits(32, s % 32); }
  }

  // ---- The bitmaps as the set of pagerefs the machine of module Kmalloc has.

  function Shifted(a: set<nat>, c: nat): set<nat> {
    set x | x in a :: x + c
  }

  lemma {:induction false} ShiftedSize(a: set<nat>, c: nat)
    ensures |Shifted(a, c)| == |a|
    decreases |a|
  {
    if a == {} {
      assert Shifted(a, c) == {};
    } else {
      var x :| x in a;
      ShiftedSize(a - {x}, c);
      forall y: nat ensures y in Shifted(a, c) <==> y in Shifted(a - {x}, c) + {x + c} {
        assert y in Shifted(a, c) <==> y >= c && y - c in a;
        assert y in Shifted(a - {x}, c) <==> y >= c && y - c in a - {x};
      }
      assert Shifted(a, c) == Shifted(a - {x}, c) + {x + c};
      assert x + c !in Shifted(a - {x}, c);
    }
  }

  function BitSet(w: nat, n: nat): set<nat> {
    set j | 0 <= j < n && Bit(w, j)
  }

  /** The population counts the bits. */
  lemma {:induction false} PopcountCounts(w: nat, n: nat)
    requires w < Bits.Pow2(n)
    ensures |BitSet(w, n)| == Popcount(w)
  {
    if n == 0 {
      assert BitSet(w, 0) == {};
    } else {
      var high, low := Shifted(BitSet(w / 2, n - 1), 1), if w % 2 == 1 then {0} else {};
      PopcountCounts(w / 2, n - 1);
      ShiftedSize(BitSet(w / 2, n - 1), 1);
      forall j: nat ensures j in BitSet(w, n) <==> j in high + low { OneBitUp(w, n, j); }
      assert BitSet(w, n) == high + low;
    }
  }

  lemma OneBitUp(w: nat, n: nat, j: nat)
    requires n > 0
    ensures j in BitSet(w, n) <==> j in Shifted(BitSet(w / 2, n - 1), 1) || (j == 0 && w % 2 == 1)
  {
    if j > 0 { assert j in BitSet(w, n) <==> j - 1 in BitSet(w / 2, n - 1); }
  }

  function UsedSet(ws: seq<nat>): set<nat> {
    set s | 0 <= s < 32 * |ws| && Used(ws, s)
  }

  /** numinuse, the population of the bitmap, is the number of pagerefs in use. */
  lemma {:induction false} PopulationCounts(ws: seq<nat>)
    requires forall i :: 0 <= i < |ws| ==> ws[i] < Bits.W
    ensures |UsedSet(ws)| == PopAll(ws)
  {
    if ws == [] {
      assert UsedSet(ws) == {};
    } else {
      var n := |ws| - 1;
      var last := Shifted(BitSet(ws[n], 32), 32 * n);
      PopulationCounts(ws[..n]);
      Bits.Pow2Values();
      PopcountCounts(ws[n], 32);
      ShiftedSize(BitSet(ws[n], 32), 32 * n);
      forall s: nat ensures s in UsedSet(ws) <==> s in UsedSet(ws[..n]) + last { LastWord(ws, s); }
      assert UsedSet(ws) == UsedSet(ws[..n]) + last;
      assert UsedSet(ws[..n]) !! last;
    }
  }

  lemma LastWord(ws: seq<nat>, s: nat)
    requires ws != []
    ensures var n := |ws| - 1;
            s in UsedSet(ws) <==> s in UsedSet(ws[..n]) || s in Shifted(BitSet(ws[n], 32), 32 * n)
  {
    var n := |ws| - 1;
    if s >= 32 * n {
      var j := s - 32 * n;
      assert s in UsedSet(ws) <==> j in BitSet(ws[n], 32);
    }
  }

  /** kheaproots: separate roots with their counts right. */
  ghost predicate Ready(roots: seq<Root>)
    reads roots, set i | 0 <= i < |roots| :: roots[i].inuse
  {
    && |roots| == Kmalloc.ROOTS
    && (forall i :: 0 <= i < |roots| ==> roots[i].Valid())
    && (forall i, j :: 0 <= i < j < |roots| ==> roots[i] != roots[j] && roots[i].inuse != roots[j].inuse)
  }

  /** The pagerefs whose bit is set. */
  ghost function Marked(roots: seq<Root>): set<Kmalloc.Slot>
    requires Ready(roots)
    reads roots, set i | 0 <= i < |roots| :: roots[i].inuse
  {
    set x: nat | x < Kmalloc.NSLOTS && Used(roots[x / SLOTS].inuse[..], x % SLOTS)
  }

  /** allocpageref under the lock: the first unused pageref is marked, and NSLOTS returned when
      all are in use. */
  method AllocRef(roots: seq<Root>) returns (slot: nat)
    requires Ready(roots)
    modifies roots, set i | 0 <= i < |roots| :: roots[i].inuse
    ensures Ready(roots)
    ensures slot < Kmalloc.NSLOTS ==>
              Kmalloc.FirstUnused(old(Marked(roots)), slot) && Marked(roots) == old(Marked(roots)) + {slot}
    ensures slot >= Kmalloc.NSLOTS ==>
              Marked(roots) == old(Marked(roots)) && forall x: nat :: x < Kmalloc.NSLOTS ==> x in Marked(roots)
  {
    ghost var was := Marked(roots);
    var r := PickRoot(roots);
    assert forall x: nat :: x < Kmalloc.NSLOTS && x / SLOTS < r ==> x in was;
    if r == |roots| { return Kmalloc.NSLOTS; }
    slot := MarkIn(roots, r);
    assert forall x: nat :: x < slot ==> x / SLOTS < r || x >= SLOTS * r;
  }

  /** Marks the first free pageref of root r. */
  method MarkIn(roots: seq<Root>, r: nat) returns (slot: nat)
    requires Ready(roots) && r < |roots| && roots[r].numinuse < SLOTS
    modifies roots, set i | 0 <= i < |roots| :: roots[i].inuse
    ensures Ready(roots) && SLOTS * r <= slot < SLOTS * (r + 1) && slot !in old(Marked(roots))
    ensures Marked(roots) == old(Marked(roots)) + {slot}
    ensures forall x: nat :: SLOTS * r <= x < slot ==> x in old(Marked(roots))
  {
    var s := roots[r].Alloc();
    slot := SLOTS * r + s;
    assert slot / SLOTS == r && slot % SLOTS == s;
    assert forall x: nat :: SLOTS * r <= x < slot ==> x / SLOTS == r && x % SLOTS < s;
  }

  /** What a root's numinuse is in terms of the set. */
  lemma NumInUse(roots: seq<Root>, r: nat)
    requires Ready(roots) && r < |roots|
    ensures roots[r].numinuse == |Kmalloc.InUse(Marked(roots), r)|
  {
    var ws := roots[r].inuse[..];
    PopulationCounts(ws);
    ShiftedSize(UsedSet(ws), SLOTS * r);
    forall x: nat ensures x in Kmalloc.InUse(Marked(roots), r) <==> x in Shifted(UsedSet(ws), SLOTS * r) {
      if x >= SLOTS * r { assert x in Kmalloc.InUse(Marked(roots), r) <==> x - SLOTS * r in UsedSet(ws); }
    }
    assert Kmalloc.InUse(Marked(roots), r) == Shifted(UsedSet(ws), SLOTS * r);
  }

  /** Their pages, 0 where there is none. */
  function Pages(roots: seq<Root>): (r: seq<nat>)
    reads roots
    ensures |r| == |roots| && forall i :: 0 <= i < |r| ==> r[i] == roots[i].page
  {
    seq(|roots|, i requires 0 <= i < |roots| reads roots => roots[i].page)
  }

  /** The search of freepageref for the root whose page holds p; held is whether its assertion
      held in each root without a page that it passed. */
  method FindRoot(roots: seq<Root>, p: nat, ghost mine: nat) returns (r: nat, held: bool)
    requires Ready(roots) && mine < |roots| && OnPage(roots[mine].page, p)
    requires forall i :: 0 <= i < mine ==> !OnPage(roots[i].page, p)
    ensures r == mine
    ensures held <==> forall i :: 0 <= i < mine && roots[i].page == 0 ==> roots[i].numinuse == 0
  {
    r, held := 0, true;
    while roots[r].page == 0 || !(roots[r].page <= p < roots[r].page + Kmalloc.PAGE)
      invariant 0 <= r <= mine
      invariant held <==> forall i :: 0 <= i < r && roots[i].page == 0 ==> roots[i].numinuse == 0
      decreases mine - r
    {
      if roots[r].page == 0 { held := held && roots[r].numinuse == 0; }
      r := r + 1;
    }
  }

  predicate OnPage(page: nat, p: nat) {
    page != 0 && page <= p < page + Kmalloc.PAGE
  }

  /** freepageref: the pageref at p, sixteen bytes long, is unmarked. */
  method FreeRef(roots: seq<Root>, p: nat, ghost slot: Kmalloc.Slot) returns (held: bool)
    requires Ready(roots) && slot in Marked(roots)
    requires roots[slot / SLOTS].page != 0 && p == roots[slot / SLOTS].page + 16 * (slot % SLOTS)
    requires forall i :: 0 <= i < slot / SLOTS ==> !OnPage(roots[i].page, p)
    modifies roots, set i | 0 <= i < |roots| :: roots[i].inuse
    ensures Ready(roots) && Marked(roots) == old(Marked(roots)) - {slot}
    ensures held <==> Kmalloc.FreepagerefAsserts(old(Marked(roots)), old(Pages(roots)), slot)
  {
    var r;
    r, held := FindRoot(roots, p, slot / SLOTS);
    forall i: nat | i < slot / SLOTS ensures roots[i].numinuse == |Kmalloc.InUse(Marked(roots), i)| { NumInUse(roots, i); }
    Unmark(roots, r, (p - roots[r].page) / 16, slot);
  }

  /** Unmarks pageref s of root r. */
  method Unmark(roots: seq<Root>, r: nat, s: nat, ghost slot: Kmalloc.Slot)
    requires Ready(roots) && slot in Marked(roots) && r == slot / SLOTS && s == slot % SLOTS
    modifies roots, set i | 0 <= i < |roots| :: roots[i].inuse
    ensures Ready(roots) && Marked(roots) == old(Marked(roots)) - {slot}
  {
    roots[r].Free(s);
    assert forall x: nat :: x / SLOTS == r && x % SLOTS == s ==> x == slot;
  }
}
