/** The subpage allocator: pages cut into blocks of one size, a free list threaded through the
    free blocks of each page, two lists of pagerefs.  Several threads are inside kmalloc and
    kfree at once; a step is what one of them does between taking kmalloc_spinlock and letting
    go of it, or one call of the page allocator, which is made without it. */
module Kmalloc {

  import opened Collections
  import Bits

  type Tid = nat
  type Slot = nat               // a pageref: 256 times its root, plus its index

  const PAGE := 4096
  const NSIZES := 8
  const NSLOTS := 4096          // 16 roots of 256 pagerefs
  const ROOTS := 16
  const PER_ROOT := 256
  const INVALID_OFFSET := 0xffff
  const DEADBEEF := 0xdeadbeef
  const LARGEST := 2048

  const SIZES := [16, 32, 64, 128, 256, 512, 1024, 2048]
  const COUNTS := [256, 128, 64, 32, 16, 8, 4, 2]

  /** Block size of a block type, and how many blocks a page has. */
  function Size(bt: nat): (r: nat)
    requires bt < NSIZES
    ensures 16 <= r <= LARGEST
  {
    SIZES[bt]
  }

  function Count(bt: nat): (r: nat)
    requires bt < NSIZES
    ensures 2 <= r <= 256
  {
    COUNTS[bt]
  }

  /** The offset of block i. */
  function Offset(bt: nat, i: nat): nat
    requires bt < NSIZES
  {
    if i == 0 then 0 else Offset(bt, i - 1) + Size(bt)
  }

  lemma {:induction false} OffsetIsProduct(bt: nat, i: nat)
    requires bt < NSIZES
    ensures Offset(bt, i) == Size(bt) * i
  {
    if i == 0 {
    } else {
      OffsetIsProduct(bt, i - 1);
      assert Size(bt) * i == Size(bt) * (i - 1) + Size(bt);
    }
  }

  lemma ProductFacts(bt: nat, i: nat, j: nat)
    requires bt < NSIZES && i < Count(bt) && j < Count(bt)
    ensures Size(bt) * i + Size(bt) <= PAGE && (Size(bt) * i) % 4 == 0
    ensures i < j ==> Size(bt) * i + Size(bt) <= Size(bt) * j
    ensures Size(bt) * Count(bt) == PAGE
  {
    if bt == 0 {} else if bt == 1 {} else if bt == 2 {} else if bt == 3 {}
    else if bt == 4 {} else if bt == 5 {} else if bt == 6 {} else {}
  }

  lemma OffsetFacts(bt: nat, i: nat, j: nat)
    requires bt < NSIZES && i < Count(bt) && j < Count(bt)
    ensures Offset(bt, i) + Size(bt) <= PAGE && Offset(bt, i) % 4 == 0
    ensures i < j ==> Offset(bt, i) + Size(bt) <= Offset(bt, j)
    ensures Offset(bt, i) / Size(bt) == i && Offset(bt, i) % Size(bt) == 0
    ensures Size(bt) * Count(bt) == PAGE && PAGE / Size(bt) == Count(bt)
  {
    OffsetIsProduct(bt, i);
    OffsetIsProduct(bt, j);
    ProductFacts(bt, i, j);
    Bits.MultipleMod(i, Size(bt));
    Bits.MultipleMod(Count(bt), Size(bt));
  }

  /** Memory, one word at each multiple of four. */
  type Ram = map<nat, nat>

  function Get(ram: Ram, a: nat): nat {
    if a in ram then ram[a] else 0
  }

  /** pageaddr_and_blocktype, and the other fields of a pageref but for its two links. */
  datatype Pageref = Pageref(pab: nat, freelistOffset: nat, nfree: nat)

  function PageAddr(pr: Pageref): nat {
    pr.pab - pr.pab % PAGE
  }

  function BlockType(pr: Pageref): nat {
    pr.pab % PAGE
  }

  /** The allocator's globals.  rootPage is 0 where a root has no page yet; used are the
      pagerefs whose bit is set in their root's bitmap. */
  datatype Heap = Heap(
    ram: Ram, refs: map<Slot, Pageref>, sizebases: seq<seq<Slot>>, allbase: seq<Slot>, used: set<Slot>, rootPage: seq<nat>)

  /** fill_deadbeef on n words from a. */
  function Fill(ram: Ram, a: nat, n: nat): Ram {
    if n == 0 then ram else Fill(ram, a, n - 1)[a + 4 * (n - 1) := DEADBEEF]
  }

  /** Memory when the free list of a fresh page has been built through block k. */
  function Thread(ram: Ram, page: nat, bt: nat, k: nat): Ram
    requires bt < NSIZES
  {
    if k == 0 then ram[page := 0]
    else Thread(ram, page, bt, k - 1)[page + Offset(bt, k) := page + Offset(bt, k - 1)]
  }

  /** The address of the first free block. */
  function First(pr: Pageref): nat {
    PageAddr(pr) + pr.freelistOffset
  }

  predicate CanPop(ram: Ram, pr: Pageref) {
    pr.nfree > 0 && (Get(ram, First(pr)) == 0 || Get(ram, First(pr)) >= PageAddr(pr))
  }

  /** doalloc: takes the first block off the free list of a pageref. */
  function PopRef(ram: Ram, pr: Pageref): Pageref
    requires CanPop(ram, pr)
  {
    var next := Get(ram, First(pr));
    pr.(nfree := pr.nfree - 1, freelistOffset := if next == 0 then INVALID_OFFSET else next - PageAddr(pr))
  }

  function Pop(h: Heap, slot: Slot): Heap
    requires slot in h.refs && CanPop(h.ram, h.refs[slot])
  {
    h.(refs := h.refs[slot := PopRef(h.ram, h.refs[slot])])
  }

  /** The first pageref of a list with a free block. */
  function FindRoom(refs: map<Slot, Pageref>, list: seq<Slot>): Option<Slot> {
    if list == [] then None
    else if list[0] in refs && refs[list[0]].nfree > 0 then Some(list[0])
    else FindRoom(refs, list[1..])
  }

  /** The first pageref of a list whose page holds an address. */
  function FindPage(refs: map<Slot, Pageref>, list: seq<Slot>, ptr: nat): Option<Slot> {
    if list == [] then None
    else if list[0] in refs && PageAddr(refs[list[0]]) <= ptr < PageAddr(refs[list[0]]) + PAGE then Some(list[0])
    else FindPage(refs, list[1..], ptr)
  }

  /** The smallest block type that holds sz bytes. */
  function TypeFor(sz: nat): (bt: nat)
    requires sz <= LARGEST
    ensures bt < NSIZES && sz <= Size(bt) && forall i :: 0 <= i < bt ==> Size(i) < sz
  {
    if sz <= 16 then 0 else if sz <= 32 then 1 else if sz <= 64 then 2 else if sz <= 128 then 3
    else if sz <= 256 then 4 else if sz <= 512 then 5 else if sz <= 1024 then 6 else 7
  }

  /** A fresh page becomes the first of both lists. */
  function Install(h: Heap, page: nat, bt: nat, slot: Slot): Heap
    requires bt < NSIZES && |h.sizebases| == NSIZES
  {
    h.(ram := Thread(h.ram, page, bt, Count(bt) - 1),
       refs := h.refs[slot := Pageref(page + bt, Offset(bt, Count(bt) - 1), Count(bt))],
       sizebases := h.sizebases[bt := [slot] + h.sizebases[bt]],
       allbase := [slot] + h.allbase)
  }

  /** The block at ptr goes to the front of the free list. */
  function PushRef(pr: Pageref, ptr: nat): Pageref
    requires ptr >= PageAddr(pr)
  {
    pr.(freelistOffset := ptr - PageAddr(pr), nfree := pr.nfree + 1)
  }

  function PushRam(ram: Ram, pr: Pageref, ptr: nat): Ram
    requires BlockType(pr) < NSIZES
  {
    Fill(ram, ptr, Size(BlockType(pr)) / 4)[ptr := if pr.freelistOffset == INVALID_OFFSET then 0 else First(pr)]
  }

  function Push(h: Heap, slot: Slot, ptr: nat): Heap
    requires slot in h.refs && BlockType(h.refs[slot]) < NSIZES && ptr >= PageAddr(h.refs[slot])
  {
    h.(ram := PushRam(h.ram, h.refs[slot], ptr), refs := h.refs[slot := PushRef(h.refs[slot], ptr)])
  }

  /** A list once a pageref has been unlinked from it. */
  function Unlinked(list: seq<Slot>, slot: Slot): seq<Slot> {
    if list == [] then [] else if list[0] == slot then list[1..] else [list[0]] + Unlinked(list[1..], slot)
  }

  /** remove_lists and freepageref. */
  function Retire(h: Heap, slot: Slot): Heap
    requires slot in h.refs && BlockType(h.refs[slot]) < NSIZES && |h.sizebases| == NSIZES
  {
    var bt := BlockType(h.refs[slot]);
    h.(refs := h.refs - {slot}, used := h.used - {slot}, allbase := Unlinked(h.allbase, slot),
       sizebases := h.sizebases[bt := Unlinked(h.sizebases[bt], slot)])
  }

  /** What a page handed out by the page allocator is used for. */
  datatype Use = HeapPage(slot: Slot) | RefPage(root: nat) | CallPage(t: Tid) | CallRefPage(t: Tid) | BigPage(va: nat)

  /** Where a call of kmalloc or kfree is, while it does not have the lock. */
  datatype Call =
    | WantPage(sz: nat)                                      // calling alloc_kpages for a heap page
    | HavePage(sz: nat, page: nat)                           // has it
    | WantRefPage(sz: nat, page: nat, slot: Slot)            // in allocpagerefpage, calling alloc_kpages
    | HaveRefPage(sz: nat, page: nat, slot: Slot, va: nat)   // has its answer
    | ExtraRefPage(sz: nat, page: nat, slot: Slot, va: nat)  // somebody else was faster
    | GiveBack(page: nat)                                    // calling free_kpages

  /** A multi-page allocation: its pages, and the size asked for. */
  datatype Extent = Extent(pages: nat, size: nat)

  /** The allocator, and what its clients have: per pageref the blocks on its free list, in
      order, and the live blocks with the sizes asked for; the use of every allocated page;
      the multi-page allocations; the addresses returned with no page behind them, with the
      sizes asked for. */
  datatype State = State(
    h: Heap, free: map<Slot, seq<nat>>, live: map<Slot, map<nat, nat>>, use: map<nat, Use>, big: map<nat, Extent>, hollow: map<nat, nat>,
    calls: map<Tid, Call>)

  datatype Step =
    | Malloc(t: Tid, sz: nat)
    | GetPage(t: Tid, va: nat)
    | GetRef(t: Tid, slot: Slot)
    | NoRef(t: Tid)
    | GetRefPage(t: Tid, va: nat)
    | SetRefPage(t: Tid)
    | DropExtra(t: Tid)
    | FreePage(t: Tid)
    | Free(t: Tid, ptr: nat)
    | BigMalloc(t: Tid, sz: nat, va: nat)
    | ClientWrite(a: nat, v: nat)

  /** alloc_kpages returns zero or a fresh aligned page. */
  predicate FreshOrNull(s: State, va: nat) {
    va == 0 || (va % PAGE == 0 && va !in s.use)
  }

  /** Address of block i of a pageref's page. */
  function Block(pr: Pageref, i: nat): nat
    requires BlockType(pr) < NSIZES
  {
    PageAddr(pr) + Offset(BlockType(pr), i)
  }

  /** The pointers kmalloc has handed out and not taken back. */
  ghost predicate LiveAt(s: State, slot: Slot, i: nat, ptr: nat) {
    && slot in s.live && i in s.live[slot] && slot in s.h.refs && BlockType(s.h.refs[slot]) < NSIZES
    && ptr == Block(s.h.refs[slot], i)
  }

  ghost predicate IsLive(s: State, ptr: nat) {
    exists slot: Slot, i: nat :: LiveAt(s, slot, i, ptr)
  }

  predicate BigRange(va: nat, n: nat, p: nat) {
    va <= p < va + PAGE * n && p % PAGE == 0
  }

  function Pages(va: nat, n: nat): set<nat> {
    set p | va <= p < va + PAGE * n && BigRange(va, n, p)
  }

  /** The number of pages for sz bytes; the sum wraps around at 2^32. */
  function Rounded(sz: nat): nat {
    ((sz + PAGE - 1) % Bits.W) / PAGE
  }

  /** The block containing address a, if a is on a heap page and its block is live. */
  ghost predicate InLiveBlock(s: State, slot: Slot, i: nat, a: nat) {
    && slot in s.live && i in s.live[slot] && slot in s.h.refs && BlockType(s.h.refs[slot]) < NSIZES
    && Block(s.h.refs[slot], i) <= a < Block(s.h.refs[slot], i) + Size(BlockType(s.h.refs[slot]))
  }

  ghost predicate MayWrite(s: State, a: nat) {
    (exists slot: Slot, i: nat :: InLiveBlock(s, slot, i, a)) || (a - a % PAGE in s.use ==> !s.use[a - a % PAGE].HeapPage?)
  }

  /** Asked for several pages, alloc_kpages returns zero or fresh ones; asked for none, any
      aligned address, and nothing is reserved. */
  predicate FreshPages(s: State, va: nat, n: nat) {
    va % PAGE == 0 && Pages(va, n) !! s.use.Keys
  }

  /** What allocpageref looks for: the first clear bit of the first root that is not full. */
  ghost predicate FirstUnused(used: set<Slot>, slot: Slot) {
    slot < NSLOTS && slot !in used && forall x: Slot :: x < slot ==> x in used
  }

  /** What clients must respect: pointers are freed once and were handed out, with memory behind
      them; only live memory is written. */
  ghost predicate Enabled(s: State, step: Step) {
    match step
    case Malloc(t, sz) => t !in s.calls && sz < LARGEST
    case GetPage(t, va) => t in s.calls && s.calls[t].WantPage? && FreshOrNull(s, va)
    case GetRef(t, slot) => t in s.calls && s.calls[t].HavePage? && FirstUnused(s.h.used, slot)
    case NoRef(t) => t in s.calls && s.calls[t].HavePage? && forall slot: Slot :: slot < NSLOTS ==> slot in s.h.used
    case GetRefPage(t, va) => t in s.calls && s.calls[t].WantRefPage? && FreshOrNull(s, va)
    case SetRefPage(t) => t in s.calls && s.calls[t].HaveRefPage?
    case DropExtra(t) => t in s.calls && s.calls[t].ExtraRefPage?
    case FreePage(t) => t in s.calls && s.calls[t].GiveBack?
    case Free(t, ptr) => t !in s.calls && (IsLive(s, ptr) || ptr in s.big)
    case BigMalloc(t, sz, va) =>
      t !in s.calls && LARGEST <= sz < Bits.W && (va == 0 || FreshPages(s, va, Rounded(sz)))
    case ClientWrite(a, _) => MayWrite(s, a)
  }

  /** The end of subpage_kmalloc on a pageref with a free block. */
  function Take(s: State, slot: Slot, sz: nat): State
    requires slot in s.h.refs && CanPop(s.h.ram, s.h.refs[slot]) && slot in s.free && s.free[slot] != [] && slot in s.live
  {
    var blocks: map<nat, nat> := s.live[slot];
    var taken: map<nat, nat> := blocks[s.free[slot][0] := sz];
    s.(h := Pop(s.h, slot), free := s.free[slot := s.free[slot][1..]], live := s.live[slot := taken])
  }

  /** n - 1, n - 2, ..., 0: a new page's free list. */
  function Countdown(n: nat): (r: seq<nat>)
    ensures |r| == n && forall i :: 0 <= i < n ==> r[i] == n - 1 - i
  {
    if n == 0 then [] else [n - 1] + Countdown(n - 1)
  }

  /** The first word of a free block is the address of the next, or 0. */
  ghost predicate LinkOk(ram: Ram, pr: Pageref, free: seq<nat>, k: nat)
    requires BlockType(pr) < NSIZES && k < |free|
  {
    Get(ram, Block(pr, free[k])) == (if k + 1 < |free| then Block(pr, free[k + 1]) else 0)
  }

  /** The free list as it lies in memory. */
  ghost predicate Threaded(ram: Ram, pr: Pageref, free: seq<nat>)
    requires BlockType(pr) < NSIZES
  {
    && pr.nfree == |free|
    && pr.freelistOffset == (if free == [] then INVALID_OFFSET else Offset(BlockType(pr), free[0]))
    && forall k: nat {:trigger LinkOk(ram, pr, free, k)} :: k < |free| ==> LinkOk(ram, pr, free, k)
  }

  /** The blocks of a page are either on its free list, once, or live, and big enough. */
  ghost predicate Partitioned(bt: nat, free: seq<nat>, live: map<nat, nat>)
    requires bt < NSIZES
  {
    && NoDuplicates(free)
    && (forall i: nat {:trigger i in free} {:trigger i in live} :: i < Count(bt) ==> (i in free <==> i !in live))
    && (forall i :: i in free ==> i < Count(bt))
    && (forall i :: i in live ==> i < Count(bt) && live[i] <= Size(bt))
  }

  /** Outside the lock a heap page on the lists always has a live block. */
  ghost predicate SlotFine(s: State, exempt: set<Slot>, slot: Slot) {
    SlotFits(s, slot) && (slot !in exempt ==> s.live[slot] != map[])
  }

  /** A heap page on the lists. */
  ghost predicate SlotFits(s: State, slot: Slot) {
    && slot in s.h.refs && slot in s.free && slot in s.live && slot in s.h.used
    && slot < NSLOTS && |s.h.rootPage| == ROOTS && s.h.rootPage[slot / PER_ROOT] != 0
    && |s.h.sizebases| == NSIZES
    && var pr := s.h.refs[slot];
       && BlockType(pr) < NSIZES && PageAddr(pr) > 0
       && PageAddr(pr) in s.use && s.use[PageAddr(pr)] == HeapPage(slot)
       && slot in s.h.sizebases[BlockType(pr)]
       && Threaded(s.h.ram, pr, s.free[slot])
       && Partitioned(BlockType(pr), s.free[slot], s.live[slot])
  }

  /** allbase is the disjoint union of the lists by size. */
  ghost predicate Lists(s: State) {
    && |s.h.sizebases| == NSIZES && |s.h.rootPage| == ROOTS
    && NoDuplicates(s.h.allbase)
    && (forall bt :: 0 <= bt < NSIZES ==> NoDuplicates(s.h.sizebases[bt]))
    && (forall bt: nat, slot: Slot :: bt < NSIZES && slot in s.h.sizebases[bt] ==>
          slot in s.h.allbase && slot in s.h.refs && BlockType(s.h.refs[slot]) == bt)
    && s.h.refs.Keys == s.free.Keys == s.live.Keys
    && (forall slot :: slot in s.h.refs ==> slot in s.h.allbase)
  }

  predicate HasSlot(c: Call) {
    c.WantRefPage? || c.HaveRefPage? || c.ExtraRefPage?
  }

  predicate HasPage(c: Call) {
    !c.WantPage?
  }

  ghost predicate CallOk(s: State, t: Tid) {
    && t in s.calls
    && var c := s.calls[t];
       && (!c.GiveBack? ==> c.sz < LARGEST)
       && (HasPage(c) ==> c.page > 0 && c.page % PAGE == 0 && c.page in s.use && s.use[c.page] == CallPage(t))
       && (HasSlot(c) ==> c.slot < NSLOTS && c.slot in s.h.used && c.slot !in s.h.allbase)
       && (c.HaveRefPage? && c.va != 0 ==> c.va % PAGE == 0 && c.va in s.use && s.use[c.va] == CallRefPage(t))
       && (c.ExtraRefPage? ==> c.va in s.use && s.use[c.va] == CallRefPage(t))
       && (c.ExtraRefPage? ==> |s.h.rootPage| == ROOTS && s.h.rootPage[c.slot / PER_ROOT] != 0)
  }

  ghost predicate BigOk(s: State, va: nat) {
    && va in s.big && s.big[va].pages > 0 && va % PAGE == 0
    && forall p :: p in Pages(va, s.big[va].pages) ==> p in s.use && s.use[p] == BigPage(va)
  }

  ghost predicate CallsOk(s: State) {
    && (forall t: Tid {:trigger CallOk(s, t)} :: t in s.calls ==> CallOk(s, t))
    && (forall t: Tid, u: Tid {:trigger SlotsApart(s.calls, t, u)} :: SlotsApart(s.calls, t, u))
  }

  /** No two calls have been given the same pageref. */
  predicate SlotsApart(calls: map<Tid, Call>, t: Tid, u: Tid) {
    t in calls && u in calls && t != u && HasSlot(calls[t]) && HasSlot(calls[u]) ==> calls[t].slot != calls[u].slot
  }

  ghost predicate RootPageOk(rootPage: seq<nat>, use: map<nat, Use>, r: nat)
    requires r < |rootPage|
  {
    rootPage[r] != 0 ==> rootPage[r] % PAGE == 0 && rootPage[r] in use && use[rootPage[r]] == RefPage(r)
  }

  ghost predicate RootPagesOk(rootPage: seq<nat>, use: map<nat, Use>)
    requires |rootPage| == ROOTS
  {
    forall r: nat {:trigger RootPageOk(rootPage, use, r)} :: r < ROOTS ==> RootPageOk(rootPage, use, r)
  }

  ghost predicate PagesOk(s: State)
    requires |s.h.rootPage| == ROOTS
  {
    && RootPagesOk(s.h.rootPage, s.use)
    && (forall va: nat {:trigger BigOk(s, va)} :: va in s.big ==> BigOk(s, va))
  }

  /** A root without a page, below a root with a used pageref, has all of its pagerefs used. */
  ghost predicate Filled(used: set<Slot>, rootPage: seq<nat>, x: Slot, y: Slot)
    requires |rootPage| == ROOTS
  {
    x in used && y < NSLOTS && y / PER_ROOT < x / PER_ROOT && rootPage[y / PER_ROOT] == 0 ==> y in used
  }

  ghost predicate RootsOk(used: set<Slot>, rootPage: seq<nat>)
    requires |rootPage| == ROOTS
  {
    forall x: Slot, y: Slot {:trigger Filled(used, rootPage, x, y)} :: Filled(used, rootPage, x, y)
  }

  /** The invariant, except that a page of exempt may be without live blocks. */
  ghost predicate InvBut(s: State, exempt: set<Slot>) {
    && Lists(s)
    && (forall slot: Slot {:trigger SlotFine(s, exempt, slot)} :: slot in s.h.allbase ==> SlotFine(s, exempt, slot))
    && CallsOk(s)
    && PagesOk(s)
    && RootsOk(s.h.used, s.h.rootPage)
  }

  ghost predicate Inv(s: State) {
    InvBut(s, {})
  }

  // ---- One page.

  lemma PopThreaded(ram: Ram, pr: Pageref, free: seq<nat>, live: map<nat, nat>)
    requires BlockType(pr) < NSIZES && PageAddr(pr) > 0 && free != []
    requires Threaded(ram, pr, free) && Partitioned(BlockType(pr), free, live)
    ensures CanPop(ram, pr) && First(pr) == Block(pr, free[0]) && Threaded(ram, PopRef(ram, pr), free[1..])
  {
    var rest := free[1..];
    assert LinkOk(ram, pr, free, 0);
    var pr' := PopRef(ram, pr);
    forall k: nat | k < |rest| ensures LinkOk(ram, pr', rest, k) {
      assert LinkOk(ram, pr, free, k + 1);
      assert rest[k] == free[k + 1];
    }
  }

  lemma PopPartitioned(bt: nat, free: seq<nat>, live: map<nat, nat>, sz: nat)
    requires bt < NSIZES && free != [] && Partitioned(bt, free, live) && sz <= Size(bt)
    ensures Partitioned(bt, free[1..], live[free[0] := sz])
  {
    var rest := free[1..];
    assert free == [free[0]] + rest;
    assert free[0] in free;
    assert forall i :: i in rest ==> i in free;
    assert free[0] !in rest;
    forall i: nat | i < Count(bt) ensures i in rest <==> i !in live[free[0] := sz] {
      assert i in free <==> i == free[0] || i in rest;
    }
  }

  lemma {:induction false} FillFrame(ram: Ram, a: nat, n: nat, x: nat)
    requires x < a || a + 4 * n <= x
    ensures Get(Fill(ram, a, n), x) == Get(ram, x)
  {
    if n == 0 {
    } else {
      FillFrame(ram, a, n - 1, x);
    }
  }

  /** Freeing writes nowhere but in the block being freed. */
  lemma PushFrame(ram: Ram, pr: Pageref, i: nat, x: nat)
    requires BlockType(pr) < NSIZES && i < Count(BlockType(pr))
    requires x < Block(pr, i) || Block(pr, i) + Size(BlockType(pr)) <= x
    ensures Get(PushRam(ram, pr, Block(pr, i)), x) == Get(ram, x)
  {
    var n := Size(BlockType(pr)) / 4;
    SizeWords(BlockType(pr));
    FillFrame(ram, Block(pr, i), n, x);
  }

  lemma SizeWords(bt: nat)
    requires bt < NSIZES
    ensures 4 * (Size(bt) / 4) == Size(bt)
  {
    if bt == 0 {} else if bt == 1 {} else if bt == 2 {} else if bt == 3 {}
    else if bt == 4 {} else if bt == 5 {} else if bt == 6 {} else {}
  }

  lemma BlocksApart(pr: Pageref, i: nat, j: nat)
    requires BlockType(pr) < NSIZES && i < Count(BlockType(pr)) && j < Count(BlockType(pr)) && i != j
    ensures Block(pr, i) + Size(BlockType(pr)) <= Block(pr, j) || Block(pr, j) + Size(BlockType(pr)) <= Block(pr, i)
  {
    OffsetFacts(BlockType(pr), i, j);
    OffsetFacts(BlockType(pr), j, i);
  }

  lemma PushThreaded(ram: Ram, pr: Pageref, free: seq<nat>, live: map<nat, nat>, i: nat)
    requires BlockType(pr) < NSIZES && PageAddr(pr) > 0 && i in live
    requires Threaded(ram, pr, free) && Partitioned(BlockType(pr), free, live)
    ensures Threaded(PushRam(ram, pr, Block(pr, i)), PushRef(pr, Block(pr, i)), [i] + free)
  {
    var bt, ram', pr', all := BlockType(pr), PushRam(ram, pr, Block(pr, i)), PushRef(pr, Block(pr, i)), [i] + free;
    if free != [] { assert free[0] in free; OffsetFacts(bt, free[0], free[0]); }
    forall k: nat | k < |all| ensures LinkOk(ram', pr', all, k) {
      if k > 0 {
        assert LinkOk(ram, pr, free, k - 1);
        assert all[k] == free[k - 1] && all[k] in free;
        BlocksApart(pr, i, all[k]);
        PushFrame(ram, pr, i, Block(pr, all[k]));
      }
    }
  }

  lemma PushPartitioned(bt: nat, free: seq<nat>, live: map<nat, nat>, i: nat)
    requires bt < NSIZES && Partitioned(bt, free, live) && i in live
    ensures Partitioned(bt, [i] + free, live - {i})
  {
    assert i !in free;
    assert forall j :: j in [i] + free <==> j == i || j in free;
  }

  /** The loop that threads a fresh page. */
  lemma {:induction false} ThreadWrites(ram: Ram, page: nat, bt: nat, k: nat, i: nat)
    requires bt < NSIZES && k < Count(bt) && i <= k
    ensures Get(Thread(ram, page, bt, k), page + Offset(bt, i)) == (if i == 0 then 0 else page + Offset(bt, i - 1))
  {
    OffsetFacts(bt, i, k);
    OffsetFacts(bt, 0, k);
    if i < k { ThreadWrites(ram, page, bt, k - 1, i); }
  }

  lemma {:induction false} ThreadFrame(ram: Ram, page: nat, bt: nat, k: nat, x: nat)
    requires bt < NSIZES && k < Count(bt) && (x < page || page + PAGE <= x)
    ensures Get(Thread(ram, page, bt, k), x) == Get(ram, x)
  {
    OffsetFacts(bt, k, k);
    if k == 0 {
    } else {
      ThreadFrame(ram, page, bt, k - 1, x);
    }
  }

  /** MKPAB can be taken apart again. */
  lemma Packed(page: nat, bt: nat, pr: Pageref)
    requires bt < NSIZES && page % PAGE == 0 && pr.pab == page + bt
    ensures PageAddr(pr) == page && BlockType(pr) == bt
  {
  }

  lemma FreshLink(ram: Ram, pr: Pageref, free: seq<nat>, bt: nat, n: nat, k: nat)
    requires bt < NSIZES && BlockType(pr) == bt && n == Count(bt) && k < n == |free|
    requires free[k] == n - 1 - k && (k + 1 < n ==> free[k + 1] == n - 2 - k)
    ensures LinkOk(Thread(ram, PageAddr(pr), bt, n - 1), pr, free, k)
  {
    ThreadWrites(ram, PageAddr(pr), bt, n - 1, n - 1 - k);
  }

  lemma FreshThreaded(ram: Ram, bt: nat, pr: Pageref)
    requires bt < NSIZES && BlockType(pr) == bt
    requires pr.freelistOffset == Offset(bt, Count(bt) - 1) && pr.nfree == Count(bt)
    ensures Threaded(Thread(ram, PageAddr(pr), bt, Count(bt) - 1), pr, Countdown(Count(bt)))
  {
    var n, free := Count(bt), Countdown(Count(bt));
    var ram' := Thread(ram, PageAddr(pr), bt, n - 1);
    forall k: nat | k < n ensures LinkOk(ram', pr, free, k) {
      FreshLink(ram, pr, free, bt, n, k);
    }
  }

  lemma FreshPartitioned(bt: nat)
    requires bt < NSIZES
    ensures Partitioned(bt, Countdown(Count(bt)), map[])
  {
    var n, free := Count(bt), Countdown(Count(bt));
    forall i: nat | i < n ensures i in free { assert free[n - 1 - i] == i; }
  }

  function Upto(n: nat): (r: set<nat>)
    ensures |r| == n && forall i: nat :: i in r <==> i < n
  {
    if n == 0 then {} else Upto(n - 1) + {n - 1}
  }

  function Members(q: seq<nat>): (r: set<nat>)
    ensures forall x: nat :: x in r <==> x in q
  {
    if q == [] then {} else Members(q[1..]) + {q[0]}
  }

  lemma {:induction false} DistinctSize(q: seq<nat>)
    requires NoDuplicates(q)
    ensures |Members(q)| == |q|
  {
    if q == [] {
    } else {
      DistinctSize(q[1..]);
      assert q[0] !in q[1..];
    }
  }

  /** The free list is as long as the page has blocks exactly when no block is live. */
  lemma AllFree(bt: nat, free: seq<nat>, live: map<nat, nat>)
    requires bt < NSIZES && Partitioned(bt, free, live)
    ensures |free| <= Count(bt) && (|free| == Count(bt) <==> live == map[])
  {
    var n, members := Count(bt), Members(free);
    DistinctSize(free);
    assert members <= Upto(n);
    Subset(members, Upto(n));
    if live == map[] {
      assert members == Upto(n);
    } else {
      var i :| i in live;
      assert i in Upto(n) && i !in members;
    }
  }

  lemma Subset(a: set<nat>, b: set<nat>)
    requires a <= b
    ensures |a| <= |b| && (|a| == |b| <==> a == b)
  {
    assert |b| == |a| + |b - a| by { assert b == a + (b - a); }
    if |a| == |b| { assert b - a == {}; }
  }

  // ---- The steps.

  /** A fresh page, set up for blocks of a type. */
  function Installed(s: State, t: Tid, bt: nat, page: nat, slot: Slot): State
    requires bt < NSIZES && |s.h.sizebases| == NSIZES
  {
    s.(h := Install(s.h, page, bt, slot), free := s.free[slot := Countdown(Count(bt))], live := s.live[slot := map[]],
       use := s.use[page := HeapPage(slot)], calls := s.calls - {t})
  }

  /** After Install the new pageref can be allocated from. */
  lemma InstalledCanPop(s: State, t: Tid, bt: nat, page: nat, slot: Slot)
    requires bt < NSIZES && |s.h.sizebases| == NSIZES && page % PAGE == 0 && page > 0
    ensures var s1 := Installed(s, t, bt, page, slot);
            && PageAddr(s1.h.refs[slot]) == page && BlockType(s1.h.refs[slot]) == bt
            && Threaded(s1.h.ram, s1.h.refs[slot], s1.free[slot]) && Partitioned(bt, s1.free[slot], map[])
            && CanPop(s1.h.ram, s1.h.refs[slot])
  {
    var s1 := Installed(s, t, bt, page, slot);
    var pr := s1.h.refs[slot];
    Packed(page, bt, pr);
    FreshThreaded(s.h.ram, bt, pr);
    FreshPartitioned(bt);
    PopThreaded(s1.h.ram, pr, s1.free[slot], map[]);
  }

  /** Setting up the page a call has got, and allocating from it. */
  function Put(s: State, t: Tid, sz: nat, page: nat, slot: Slot): State
    requires sz < LARGEST && |s.h.sizebases| == NSIZES && page % PAGE == 0 && page > 0
  {
    InstalledCanPop(s, t, TypeFor(sz), page, slot);
    Take(Installed(s, t, TypeFor(sz), page, slot), slot, sz)
  }

  predicate CanFree(s: State, slot: Slot, ptr: nat) {
    && slot in s.h.refs && BlockType(s.h.refs[slot]) < NSIZES && ptr >= PageAddr(s.h.refs[slot])
    && |s.h.sizebases| == NSIZES && slot in s.free && slot in s.live
  }

  /** The block at ptr back on the free list of its page. */
  function Returned(s: State, slot: Slot, ptr: nat): State
    requires CanFree(s, slot, ptr)
  {
    var pr := s.h.refs[slot];
    var i: nat := (ptr - PageAddr(pr)) / Size(BlockType(pr));
    var rest: map<nat, nat> := s.live[slot] - {i};
    s.(h := Push(s.h, slot, ptr), free := s.free[slot := [i] + s.free[slot]], live := s.live[slot := rest])
  }

  /** The page off the lists, to be given back by the call. */
  function Emptied(s: State, t: Tid, slot: Slot, ptr: nat): State
    requires CanFree(s, slot, ptr)
  {
    var page := PageAddr(s.h.refs[slot]);
    s.(h := Retire(Push(s.h, slot, ptr), slot), free := s.free - {slot}, live := s.live - {slot},
       use := s.use[page := CallPage(t)], calls := s.calls[t := GiveBack(page)])
  }

  /** The section of subpage_kfree once the page has been found. */
  function Freed(s: State, t: Tid, slot: Slot, ptr: nat): State
    requires CanFree(s, slot, ptr)
  {
    var pr := s.h.refs[slot];
    if pr.nfree + 1 == PAGE / Size(BlockType(pr)) then Emptied(s, t, slot, ptr) else Returned(s, slot, ptr)
  }

  /** Whether the functions a step uses are defined: it always is, given the invariant. */
  predicate Defined(s: State, step: Step) {
    && |s.h.sizebases| == NSIZES && |s.h.rootPage| == ROOTS
    && match step
       case Malloc(t, sz) =>
         sz < LARGEST &&
         var found := FindRoom(s.h.refs, s.h.sizebases[TypeFor(sz)]);
         found.None? || (var slot := found.value;
           slot in s.h.refs && CanPop(s.h.ram, s.h.refs[slot]) && slot in s.free && s.free[slot] != [] && slot in s.live)
       case Free(t, ptr) =>
         var found := FindPage(s.h.refs, s.h.allbase, ptr);
         if found.None? then ptr in s.big
         else CanFree(s, found.value, ptr)
       case ClientWrite(_, _) => true
       case BigMalloc(_, _, _) => true
       case GetPage(t, _) => t in s.calls && s.calls[t].WantPage?
       case GetRef(t, slot) => t in s.calls && s.calls[t].HavePage? && Usable(s.calls[t]) && slot < NSLOTS
       case NoRef(t) => t in s.calls && s.calls[t].HavePage?
       case GetRefPage(t, _) => t in s.calls && s.calls[t].WantRefPage?
       case SetRefPage(t) => t in s.calls && s.calls[t].HaveRefPage? && Usable(s.calls[t]) && s.calls[t].slot < NSLOTS
       case DropExtra(t) => t in s.calls && s.calls[t].ExtraRefPage? && Usable(s.calls[t])
       case FreePage(t) => t in s.calls && s.calls[t].GiveBack?
  }

  predicate Usable(c: Call)
    requires c.HavePage? || HasSlot(c)
  {
    c.sz < LARGEST && c.page > 0 && c.page % PAGE == 0
  }

  function Calling(s: State, t: Tid, c: Call): State {
    s.(calls := s.calls[t := c])
  }

  /** Under the lock again with a heap page: a pageref has been found. */
  function AfterRef(s: State, t: Tid, slot: Slot): State
    requires Defined(s, GetRef(t, slot))
  {
    var c, s1 := s.calls[t], s.(h := s.h.(used := s.h.used + {slot}));
    if s.h.rootPage[slot / PER_ROOT] != 0 then Put(s1, t, c.sz, c.page, slot)
    else Calling(s1, t, WantRefPage(c.sz, c.page, slot))
  }

  /** Under the lock again after alloc_kpages for a pageref page. */
  function AfterRefPage(s: State, t: Tid): State
    requires Defined(s, SetRefPage(t))
  {
    var c := s.calls[t];
    var r := c.slot / PER_ROOT;
    if c.va == 0 && s.h.rootPage[r] == 0 then Calling(s, t, GiveBack(c.page))
    else if c.va == 0 then Put(s, t, c.sz, c.page, c.slot)
    else if s.h.rootPage[r] != 0 then Calling(s, t, ExtraRefPage(c.sz, c.page, c.slot, c.va))
    else Put(s.(h := s.h.(rootPage := s.h.rootPage[r := c.va]), use := s.use[c.va := RefPage(r)]), t, c.sz, c.page, c.slot)
  }

  function Apply(s: State, step: Step): State
    requires Defined(s, step)
  {
    match step
    case Malloc(t, sz) =>
      var found := FindRoom(s.h.refs, s.h.sizebases[TypeFor(sz)]);
      if found.Some? then Take(s, found.value, sz) else Calling(s, t, WantPage(sz))
    case GetPage(t, va) =>
      if va == 0 then s.(calls := s.calls - {t})
      else Calling(s.(use := s.use[va := CallPage(t)]), t, HavePage(s.calls[t].sz, va))
    case GetRef(t, slot) => AfterRef(s, t, slot)
    case NoRef(t) => Calling(s, t, GiveBack(s.calls[t].page))
    case GetRefPage(t, va) =>
      var c := s.calls[t];
      Calling(if va == 0 then s else s.(use := s.use[va := CallRefPage(t)]), t, HaveRefPage(c.sz, c.page, c.slot, va))
    case SetRefPage(t) => AfterRefPage(s, t)
    case DropExtra(t) =>
      var c := s.calls[t];
      Put(s.(use := s.use - {c.va}), t, c.sz, c.page, c.slot)
    case FreePage(t) => s.(use := s.use - {s.calls[t].page}, calls := s.calls - {t})
    case Free(t, ptr) =>
      var found := FindPage(s.h.refs, s.h.allbase, ptr);
      if found.Some? then Freed(s, t, found.value, ptr)
      else s.(use := s.use - Pages(ptr, s.big[ptr].pages), big := s.big - {ptr})
    case BigMalloc(t, sz, va) =>
      if va == 0 then s
      else if Rounded(sz) == 0 then s.(hollow := s.hollow[va := sz])
      else s.(use := s.use + (map p | p in Pages(va, Rounded(sz)) :: BigPage(va)), big := s.big[va := Extent(Rounded(sz), sz)])
    case ClientWrite(a, v) => s.(h := s.h.(ram := s.h.ram[a := v]))
  }

  // ---- What each step keeps.

  /** Nothing that a heap page depends on has changed. */
  lemma KeepSlot(s: State, s': State, slot: Slot)
    requires SlotFits(s, slot)
    requires slot in s'.h.refs && s'.h.refs[slot] == s.h.refs[slot] && slot in s'.h.used
    requires slot in s'.free && s'.free[slot] == s.free[slot] && slot in s'.live && s'.live[slot] == s.live[slot]
    requires |s'.h.rootPage| == ROOTS && s'.h.rootPage[slot / PER_ROOT] != 0 && |s'.h.sizebases| == NSIZES
    requires slot in s'.h.sizebases[BlockType(s.h.refs[slot])]
    requires var page := PageAddr(s.h.refs[slot]);
             && page in s'.use && s'.use[page] == s.use[page]
             && forall a: nat :: page <= a < page + PAGE ==> Get(s'.h.ram, a) == Get(s.h.ram, a)
    ensures SlotFits(s', slot)
  {
    var pr, free := s.h.refs[slot], s.free[slot];
    KeepThreaded(s.h.ram, s'.h.ram, pr, free, s.live[slot]);
  }

  lemma KeepThreaded(ram: Ram, ram': Ram, pr: Pageref, free: seq<nat>, live: map<nat, nat>)
    requires BlockType(pr) < NSIZES && Threaded(ram, pr, free) && Partitioned(BlockType(pr), free, live)
    requires forall a: nat :: PageAddr(pr) <= a < PageAddr(pr) + PAGE ==> Get(ram', a) == Get(ram, a)
    ensures Threaded(ram', pr, free)
  {
    forall k: nat | k < |free| ensures LinkOk(ram', pr, free, k) {
      assert LinkOk(ram, pr, free, k);
      assert free[k] in free;
      OffsetFacts(BlockType(pr), free[k], free[k]);
    }
  }

  /** The calls under way and the other pages are as they were. */
  predicate SameOutside(s: State, s': State) {
    && s'.calls == s.calls && s'.use == s.use && s'.big == s.big
    && s'.h.used == s.h.used && s'.h.allbase == s.h.allbase && s'.h.rootPage == s.h.rootPage
  }

  /** Pages of pagerefs and multi-page allocations stay what they are. */
  lemma KeepPages(s: State, s': State)
    requires |s.h.rootPage| == ROOTS && PagesOk(s) && s'.h.rootPage == s.h.rootPage && s'.big == s.big
    requires forall p :: p in s.use && (s.use[p].RefPage? || s.use[p].BigPage?) ==> p in s'.use && s'.use[p] == s.use[p]
    ensures PagesOk(s')
  {
    forall r: nat | r < ROOTS ensures RootPageOk(s'.h.rootPage, s'.use, r) { assert RootPageOk(s.h.rootPage, s.use, r); }
    forall va: nat | va in s'.big ensures BigOk(s', va) { assert BigOk(s, va); }
  }

  lemma KeepOutside(s: State, s': State)
    requires SameOutside(s, s') && |s.h.rootPage| == ROOTS && CallsOk(s) && PagesOk(s)
    ensures CallsOk(s') && PagesOk(s')
  {
    forall t: Tid | t in s'.calls ensures CallOk(s', t) { assert CallOk(s, t); }
    KeepPages(s, s');
  }

  lemma KeepLists(s: State, s': State)
    requires Lists(s) && s'.h.sizebases == s.h.sizebases && s'.h.allbase == s.h.allbase && |s'.h.rootPage| == ROOTS
    requires s'.h.refs.Keys == s.h.refs.Keys && s'.free.Keys == s.free.Keys && s'.live.Keys == s.live.Keys
    requires forall slot :: slot in s.h.refs ==> s'.h.refs[slot].pab == s.h.refs[slot].pab
    ensures Lists(s')
  {
    forall bt: nat, slot: Slot | bt < NSIZES && slot in s'.h.sizebases[bt]
      ensures slot in s'.h.allbase && slot in s'.h.refs && BlockType(s'.h.refs[slot]) == bt
    {
      assert slot in s.h.sizebases[bt];
    }
  }

  /** The page a block is taken from. */
  lemma TakeSlot(s: State, slot: Slot, sz: nat)
    requires SlotFits(s, slot) && s.free[slot] != [] && sz <= Size(BlockType(s.h.refs[slot]))
    ensures CanTake(s, slot) && SlotFits(Take(s, slot, sz), slot) && Take(s, slot, sz).live[slot] != map[]
  {
    var pr, free, live := s.h.refs[slot], s.free[slot], s.live[slot];
    PopThreaded(s.h.ram, pr, free, live);
    PopPartitioned(BlockType(pr), free, live, sz);
    assert free[0] in Take(s, slot, sz).live[slot];
  }

  predicate CanTake(s: State, slot: Slot) {
    slot in s.h.refs && CanPop(s.h.ram, s.h.refs[slot]) && slot in s.free && s.free[slot] != [] && slot in s.live
  }

  lemma TakeElsewhere(s: State, slot: Slot, sz: nat, d: Slot)
    requires CanTake(s, slot) && SlotFits(s, d) && d != slot
    ensures SlotFits(Take(s, slot, sz), d)
  {
    KeepSlot(s, Take(s, slot, sz), d);
  }

  lemma TakeLists(s: State, slot: Slot, sz: nat)
    requires CanTake(s, slot) && Lists(s)
    ensures Lists(Take(s, slot, sz)) && SameOutside(s, Take(s, slot, sz))
  {
    KeepLists(s, Take(s, slot, sz));
  }

  /** Allocating the first block of a free list. */
  lemma TakeOk(s: State, slot: Slot, sz: nat, exempt: set<Slot>)
    requires InvBut(s, exempt) && slot in s.h.allbase && slot in s.free && s.free[slot] != []
    requires slot in s.h.refs && BlockType(s.h.refs[slot]) < NSIZES && sz <= Size(BlockType(s.h.refs[slot]))
    ensures CanTake(s, slot) && InvBut(Take(s, slot, sz), exempt - {slot})
  {
    assert SlotFine(s, exempt, slot);
    TakeSlot(s, slot, sz);
    var s' := Take(s, slot, sz);
    TakeLists(s, slot, sz);
    KeepOutside(s, s');
    forall d: Slot | d in s'.h.allbase ensures SlotFine(s', exempt - {slot}, d) {
      TakeAny(s, slot, sz, exempt, d);
    }
  }

  lemma TakeAny(s: State, slot: Slot, sz: nat, exempt: set<Slot>, d: Slot)
    requires InvBut(s, exempt) && slot in s.h.allbase && d in s.h.allbase && CanTake(s, slot)
    requires BlockType(s.h.refs[slot]) < NSIZES && sz <= Size(BlockType(s.h.refs[slot]))
    ensures SlotFine(Take(s, slot, sz), exempt - {slot}, d)
  {
    assert SlotFine(s, exempt, d);
    if d == slot { TakeSlot(s, slot, sz); } else { TakeElsewhere(s, slot, sz, d); }
  }

  lemma PagesApart(p: nat, q: nat)
    requires p % PAGE == 0 && q % PAGE == 0 && p != q
    ensures p + PAGE <= q || q + PAGE <= p
  {
  }

  /** A call that has ended aside, everything is ready for page and slot to join the heap. */
  ghost predicate InstallReady(s: State, t: Tid, page: nat, slot: Slot) {
    && Inv(s) && t !in s.calls
    && page > 0 && page % PAGE == 0 && page in s.use && s.use[page] == CallPage(t)
    && slot < NSLOTS && slot in s.h.used && slot !in s.h.allbase && s.h.rootPage[slot / PER_ROOT] != 0
    && (forall u: Tid {:trigger CallOk(s, u)} :: u in s.calls && HasSlot(s.calls[u]) ==> s.calls[u].slot != slot)
  }

  lemma InstallLists(s: State, t: Tid, bt: nat, page: nat, slot: Slot)
    requires bt < NSIZES && InstallReady(s, t, page, slot)
    ensures Lists(Installed(s, t, bt, page, slot))
  {
    var s' := Installed(s, t, bt, page, slot);
    InstalledCanPop(s, t, bt, page, slot);
    assert slot !in s.h.refs;
    forall b: nat, d: Slot | b < NSIZES && d in s'.h.sizebases[b]
      ensures d in s'.h.allbase && d in s'.h.refs && BlockType(s'.h.refs[d]) == b
    {
      assert d == slot || d in s.h.sizebases[b];
    }
    assert slot !in s.h.sizebases[bt];
  }

  lemma ThreadElsewhere(ram: Ram, page: nat, bt: nat, q: nat)
    requires bt < NSIZES && page % PAGE == 0 && q % PAGE == 0 && page != q
    ensures forall a: nat :: q <= a < q + PAGE ==> Get(Thread(ram, page, bt, Count(bt) - 1), a) == Get(ram, a)
  {
    PagesApart(page, q);
    forall a: nat | q <= a < q + PAGE ensures Get(Thread(ram, page, bt, Count(bt) - 1), a) == Get(ram, a) {
      ThreadFrame(ram, page, bt, Count(bt) - 1, a);
    }
  }

  lemma InstallElsewhere(s: State, t: Tid, bt: nat, page: nat, slot: Slot, d: Slot)
    requires bt < NSIZES && |s.h.sizebases| == NSIZES && SlotFits(s, d) && d != slot
    requires page % PAGE == 0 && page != PageAddr(s.h.refs[d])
    ensures SlotFits(Installed(s, t, bt, page, slot), d)
  {
    var s' := Installed(s, t, bt, page, slot);
    var q := PageAddr(s.h.refs[d]);
    ThreadElsewhere(s.h.ram, page, bt, q);
    assert d in s'.h.sizebases[BlockType(s.h.refs[d])];
    KeepSlot(s, s', d);
  }

  lemma InstallAny(s: State, t: Tid, bt: nat, page: nat, slot: Slot, d: Slot)
    requires bt < NSIZES && InstallReady(s, t, page, slot) && d in Installed(s, t, bt, page, slot).h.allbase
    ensures SlotFine(Installed(s, t, bt, page, slot), {slot}, d)
  {
    if d == slot {
      InstalledCanPop(s, t, bt, page, slot);
    } else {
      assert SlotFine(s, {}, d);
      InstallElsewhere(s, t, bt, page, slot, d);
    }
  }

  lemma InstallCalls(s: State, t: Tid, bt: nat, page: nat, slot: Slot)
    requires bt < NSIZES && InstallReady(s, t, page, slot)
    ensures CallsOk(Installed(s, t, bt, page, slot)) && PagesOk(Installed(s, t, bt, page, slot))
  {
    var s' := Installed(s, t, bt, page, slot);
    assert s'.calls == s.calls;
    forall u: Tid | u in s'.calls ensures CallOk(s', u) { assert CallOk(s, u); }
    KeepPages(s, s');
  }

  /** A fresh page joins the heap. */
  lemma InstallOk(s: State, t: Tid, bt: nat, page: nat, slot: Slot)
    requires bt < NSIZES && InstallReady(s, t, page, slot)
    ensures InvBut(Installed(s, t, bt, page, slot), {slot})
  {
    InstallLists(s, t, bt, page, slot);
    InstallCalls(s, t, bt, page, slot);
    var s' := Installed(s, t, bt, page, slot);
    forall d: Slot | d in s'.h.allbase ensures SlotFine(s', {slot}, d) { InstallAny(s, t, bt, page, slot, d); }
  }

  lemma PutOk(s: State, t: Tid, sz: nat, page: nat, slot: Slot)
    requires sz < LARGEST && InstallReady(s.(calls := s.calls - {t}), t, page, slot)
    ensures Inv(Put(s, t, sz, page, slot))
  {
    var base, bt := s.(calls := s.calls - {t}), TypeFor(sz);
    InstallOk(base, t, bt, page, slot);
    InstalledCanPop(s, t, bt, page, slot);
    var s1 := Installed(s, t, bt, page, slot);
    assert base.calls - {t} == base.calls;
    assert s1 == Installed(base, t, bt, page, slot);
    TakeOk(s1, slot, sz, {slot});
    assert {slot} - {slot} == {};
  }

  lemma {:induction false} FindRoomFound(refs: map<Slot, Pageref>, list: seq<Slot>)
    ensures FindRoom(refs, list).Some? ==>
              var x := FindRoom(refs, list).value; x in list && x in refs && refs[x].nfree > 0
    ensures FindRoom(refs, list).None? ==> forall x :: x in list && x in refs ==> refs[x].nfree == 0
  {
    if list != [] && !(list[0] in refs && refs[list[0]].nfree > 0) { FindRoomFound(refs, list[1..]); }
  }

  predicate OnPage(refs: map<Slot, Pageref>, d: Slot, ptr: nat) {
    d in refs && PageAddr(refs[d]) <= ptr < PageAddr(refs[d]) + PAGE
  }

  lemma {:induction false} FindPageFound(refs: map<Slot, Pageref>, list: seq<Slot>, ptr: nat)
    ensures FindPage(refs, list, ptr).Some? ==>
              var x := FindPage(refs, list, ptr).value; x in list && OnPage(refs, x, ptr)
    ensures FindPage(refs, list, ptr).None? ==> forall x :: x in list ==> !OnPage(refs, x, ptr)
  {
    if list != [] && !OnPage(refs, list[0], ptr) { FindPageFound(refs, list[1..], ptr); }
  }

  lemma {:induction false} UnlinkedMembers(list: seq<Slot>, slot: Slot)
    requires NoDuplicates(list)
    ensures NoDuplicates(Unlinked(list, slot))
    ensures forall x :: x in Unlinked(list, slot) <==> x in list && x != slot
  {
    if list == [] {
    } else {
      var first, rest := list[0], list[1..];
      assert list == [first] + rest && first !in rest;
      if first != slot { UnlinkedMembers(rest, slot); }
    }
  }

  /** A pointer into a heap page is found on that page and no other. */
  lemma FindPageLive(s: State, slot: Slot, ptr: nat)
    requires Inv(s) && slot in s.h.allbase && OnPage(s.h.refs, slot, ptr)
    ensures FindPage(s.h.refs, s.h.allbase, ptr) == Some(slot)
  {
    FindPageFound(s.h.refs, s.h.allbase, ptr);
    var found := FindPage(s.h.refs, s.h.allbase, ptr);
    if found.Some? { OneOwner(s, found.value, slot, ptr); }
  }

  lemma OneOwner(s: State, d: Slot, slot: Slot, ptr: nat)
    requires Inv(s) && slot in s.h.allbase && d in s.h.allbase && OnPage(s.h.refs, d, ptr) && OnPage(s.h.refs, slot, ptr)
    ensures d == slot
  {
    HeapPageUse(s, slot);
    HeapPageUse(s, d);
    SamePage(PageAddr(s.h.refs[d]), PageAddr(s.h.refs[slot]), ptr);
  }

  lemma HeapPageUse(s: State, d: Slot)
    requires Inv(s) && d in s.h.allbase
    ensures d in s.h.refs && PageAddr(s.h.refs[d]) % PAGE == 0
    ensures PageAddr(s.h.refs[d]) in s.use && s.use[PageAddr(s.h.refs[d])] == HeapPage(d)
  {
    assert SlotFine(s, {}, d);
    AddressAligned(s.h.refs[d]);
  }

  lemma AddressAligned(pr: Pageref)
    ensures PageAddr(pr) % PAGE == 0
  {
    Bits.MultipleMod(pr.pab / PAGE, PAGE);
  }

  lemma SamePage(p: nat, q: nat, a: nat)
    requires p % PAGE == 0 && q % PAGE == 0 && p <= a < p + PAGE && q <= a < q + PAGE
    ensures p == q
  {
  }

  /** A live pointer is a block of its page. */
  lemma LivePlace(s: State, slot: Slot, i: nat, ptr: nat)
    requires SlotFits(s, slot) && LiveAt(s, slot, i, ptr)
    ensures var pr := s.h.refs[slot];
            && OnPage(s.h.refs, slot, ptr) && i < Count(BlockType(pr)) && (ptr - PageAddr(pr)) / Size(BlockType(pr)) == i
            && (ptr - PageAddr(pr)) % Size(BlockType(pr)) == 0 && PAGE / Size(BlockType(pr)) == Count(BlockType(pr))
  {
    OffsetFacts(BlockType(s.h.refs[slot]), i, i);
  }

  /** Freeing leaves the other pages alone. */
  lemma PushElsewhere(s: State, slot: Slot, i: nat, d: Slot)
    requires SlotFits(s, slot) && SlotFits(s, d) && d != slot && i in s.live[slot]
    ensures var ptr := Block(s.h.refs[slot], i);
            var page := PageAddr(s.h.refs[d]);
            forall a: nat :: page <= a < page + PAGE ==> Get(Push(s.h, slot, ptr).ram, a) == Get(s.h.ram, a)
  {
    var pr, page := s.h.refs[slot], PageAddr(s.h.refs[d]);
    OffsetFacts(BlockType(pr), i, i);
    PagesApart(PageAddr(pr), page);
    forall a: nat | page <= a < page + PAGE ensures Get(Push(s.h, slot, Block(pr, i)).ram, a) == Get(s.h.ram, a) {
      PushFrame(s.h.ram, pr, i, a);
    }
  }

  /** The page a block is returned to, while another block is live. */
  lemma ReturnSlot(s: State, slot: Slot, i: nat, ptr: nat)
    requires SlotFits(s, slot) && LiveAt(s, slot, i, ptr) && s.h.refs[slot].nfree + 1 != Count(BlockType(s.h.refs[slot]))
    ensures CanFree(s, slot, ptr) && SlotFits(Returned(s, slot, ptr), slot) && Returned(s, slot, ptr).live[slot] != map[]
  {
    var pr, free, live := s.h.refs[slot], s.free[slot], s.live[slot];
    LivePlace(s, slot, i, ptr);
    PushThreaded(s.h.ram, pr, free, live, i);
    PushPartitioned(BlockType(pr), free, live, i);
    AllFree(BlockType(pr), [i] + free, live - {i});
  }

  lemma ReturnAny(s: State, slot: Slot, i: nat, ptr: nat, d: Slot)
    requires Inv(s) && slot in s.h.allbase && d in s.h.allbase && LiveAt(s, slot, i, ptr)
    requires s.h.refs[slot].nfree + 1 != Count(BlockType(s.h.refs[slot])) && CanFree(s, slot, ptr)
    ensures SlotFine(Returned(s, slot, ptr), {}, d)
  {
    assert SlotFine(s, {}, slot);
    assert SlotFine(s, {}, d);
    if d == slot {
      ReturnSlot(s, slot, i, ptr);
    } else {
      PushElsewhere(s, slot, i, d);
      KeepSlot(s, Returned(s, slot, ptr), d);
    }
  }

  lemma ReturnOk(s: State, slot: Slot, i: nat, ptr: nat)
    requires Inv(s) && slot in s.h.allbase && LiveAt(s, slot, i, ptr)
    requires s.h.refs[slot].nfree + 1 != Count(BlockType(s.h.refs[slot]))
    ensures CanFree(s, slot, ptr) && Inv(Returned(s, slot, ptr))
  {
    assert SlotFine(s, {}, slot);
    ReturnSlot(s, slot, i, ptr);
    var s' := Returned(s, slot, ptr);
    ReturnLists(s, slot, ptr);
    KeepOutside(s, s');
    forall d: Slot | d in s'.h.allbase ensures SlotFine(s', {}, d) { ReturnAny(s, slot, i, ptr, d); }
  }

  lemma ReturnLists(s: State, slot: Slot, ptr: nat)
    requires Lists(s) && CanFree(s, slot, ptr)
    ensures Lists(Returned(s, slot, ptr)) && SameOutside(s, Returned(s, slot, ptr))
  {
    KeepLists(s, Returned(s, slot, ptr));
  }

  /** A page whose last live block is freed has no live block left. */
  lemma LastBlock(s: State, slot: Slot, i: nat)
    requires SlotFits(s, slot) && i in s.live[slot] && s.h.refs[slot].nfree + 1 == Count(BlockType(s.h.refs[slot]))
    ensures s.live[slot].Keys == {i}
  {
    var bt, free, live := BlockType(s.h.refs[slot]), s.free[slot], s.live[slot];
    PushPartitioned(bt, free, live, i);
    AllFree(bt, [i] + free, live - {i});
    assert live.Keys - {i} == (live - {i}).Keys == {};
  }

  /** Taking one pageref off both of its lists. */
  lemma UnlinkLists(s: State, s': State, slot: Slot, bt: nat)
    requires Lists(s) && bt < NSIZES && slot in s.h.refs && BlockType(s.h.refs[slot]) == bt
    requires |s'.h.sizebases| == NSIZES && s'.h.rootPage == s.h.rootPage
    requires NoDuplicates(s'.h.allbase) && forall x :: x in s'.h.allbase <==> x in s.h.allbase && x != slot
    requires NoDuplicates(s'.h.sizebases[bt]) && forall x :: x in s'.h.sizebases[bt] ==> x in s.h.sizebases[bt] && x != slot
    requires forall b :: 0 <= b < NSIZES && b != bt ==> s'.h.sizebases[b] == s.h.sizebases[b]
    requires s'.h.refs.Keys == s.h.refs.Keys - {slot} && s'.free.Keys == s.free.Keys - {slot} && s'.live.Keys == s.live.Keys - {slot}
    requires forall d :: d in s.h.refs && d != slot ==> s'.h.refs[d] == s.h.refs[d]
    ensures Lists(s')
  {
    forall b: nat, d: Slot | b < NSIZES && d in s'.h.sizebases[b]
      ensures d in s'.h.allbase && d in s'.h.refs && BlockType(s'.h.refs[d]) == b
    {
      assert d in s.h.sizebases[b] && d != slot;
    }
  }

  lemma EmptyLists(s: State, t: Tid, slot: Slot, ptr: nat)
    requires Lists(s) && slot in s.h.allbase && CanFree(s, slot, ptr)
    ensures Lists(Emptied(s, t, slot, ptr))
    ensures forall d :: d in Emptied(s, t, slot, ptr).h.allbase <==> d in s.h.allbase && d != slot
  {
    var bt := BlockType(s.h.refs[slot]);
    UnlinkedMembers(s.h.allbase, slot);
    UnlinkedMembers(s.h.sizebases[bt], slot);
    EmptyKeys(s, t, slot, ptr);
    UnlinkLists(s, Emptied(s, t, slot, ptr), slot, bt);
  }

  lemma EmptyKeys(s: State, t: Tid, slot: Slot, ptr: nat)
    requires CanFree(s, slot, ptr)
    ensures var s' := Emptied(s, t, slot, ptr);
            && s'.h.refs.Keys == s.h.refs.Keys - {slot} && s'.free.Keys == s.free.Keys - {slot} && s'.live.Keys == s.live.Keys - {slot}
            && forall d :: d in s.h.refs && d != slot ==> s'.h.refs[d] == s.h.refs[d]
  {
  }

  lemma EmptyAny(s: State, t: Tid, slot: Slot, i: nat, ptr: nat, d: Slot)
    requires Inv(s) && slot in s.h.allbase && LiveAt(s, slot, i, ptr) && CanFree(s, slot, ptr) && d in s.h.allbase && d != slot
    ensures SlotFine(Emptied(s, t, slot, ptr), {}, d)
  {
    assert SlotFine(s, {}, slot);
    assert SlotFine(s, {}, d);
    var s', b := Emptied(s, t, slot, ptr), BlockType(s.h.refs[d]);
    PushElsewhere(s, slot, i, d);
    UnlinkedMembers(s.h.sizebases[b], slot);
    assert d in s'.h.sizebases[b];
    KeepSlot(s, s', d);
  }

  lemma EmptyCalls(s: State, t: Tid, slot: Slot, ptr: nat)
    requires Inv(s) && slot in s.h.allbase && CanFree(s, slot, ptr) && t !in s.calls && PageAddr(s.h.refs[slot]) > 0
    requires PageAddr(s.h.refs[slot]) in s.use && s.use[PageAddr(s.h.refs[slot])] == HeapPage(slot)
    requires forall d :: d in Emptied(s, t, slot, ptr).h.allbase ==> d in s.h.allbase
    ensures CallsOk(Emptied(s, t, slot, ptr)) && PagesOk(Emptied(s, t, slot, ptr))
  {
    var s' := Emptied(s, t, slot, ptr);
    forall u: Tid | u in s'.calls ensures CallOk(s', u) { assert u != t ==> CallOk(s, u); }
    forall u: Tid, v: Tid ensures SlotsApart(s'.calls, u, v) { assert SlotsApart(s.calls, u, v); }
    KeepPages(s, s');
  }

  lemma EmptyOk(s: State, t: Tid, slot: Slot, i: nat, ptr: nat)
    requires Inv(s) && slot in s.h.allbase && LiveAt(s, slot, i, ptr) && t !in s.calls
    ensures CanFree(s, slot, ptr) && Inv(Emptied(s, t, slot, ptr))
  {
    assert SlotFine(s, {}, slot);
    LivePlace(s, slot, i, ptr);
    var s' := Emptied(s, t, slot, ptr);
    EmptyLists(s, t, slot, ptr);
    EmptyCalls(s, t, slot, ptr);
    RootsAfterRetire(s.h.used, s.h.rootPage, slot);
    forall d: Slot | d in s'.h.allbase ensures SlotFine(s', {}, d) { EmptyAny(s, t, slot, i, ptr, d); }
  }

  /** The roots below a pageref that is the first unused one are full. */
  lemma RootsAfterRef(used: set<Slot>, rootPage: seq<nat>, slot: Slot)
    requires |rootPage| == ROOTS && RootsOk(used, rootPage) && FirstUnused(used, slot)
    ensures RootsOk(used + {slot}, rootPage)
  {
    forall x: Slot, y: Slot ensures Filled(used + {slot}, rootPage, x, y) { assert Filled(used, rootPage, x, y); }
  }

  lemma RootsAfterPage(used: set<Slot>, rootPage: seq<nat>, r: nat, va: nat)
    requires |rootPage| == ROOTS && RootsOk(used, rootPage) && r < ROOTS && va != 0
    ensures RootsOk(used, rootPage[r := va])
  {
    var roots := rootPage[r := va];
    forall x: Slot, y: Slot ensures Filled(used, roots, x, y) { assert Filled(used, rootPage, x, y); }
  }

  /** A pageref that is given up lies on a root with a page. */
  lemma RootsAfterRetire(used: set<Slot>, rootPage: seq<nat>, slot: Slot)
    requires |rootPage| == ROOTS && RootsOk(used, rootPage) && slot < NSLOTS && rootPage[slot / PER_ROOT] != 0
    ensures RootsOk(used - {slot}, rootPage)
  {
    forall x: Slot, y: Slot ensures Filled(used - {slot}, rootPage, x, y) { assert Filled(used, rootPage, x, y); }
  }

  /** The heap pages, their lists and the uses of heap pages are as they were. */
  ghost predicate SameHeap(s: State, s': State) {
    && s'.h.ram == s.h.ram && s'.h.refs == s.h.refs && s'.h.sizebases == s.h.sizebases && s'.h.allbase == s.h.allbase
    && s'.free == s.free && s'.live == s.live && s.h.used <= s'.h.used
    && |s.h.rootPage| == |s'.h.rootPage| == ROOTS
    && (forall r :: 0 <= r < ROOTS && s.h.rootPage[r] != 0 ==> s'.h.rootPage[r] != 0)
    && (forall p :: p in s.use && s.use[p].HeapPage? ==> p in s'.use && s'.use[p] == s.use[p])
  }

  lemma KeepSameHeap(s: State, s': State)
    requires Inv(s) && SameHeap(s, s') && CallsOk(s') && PagesOk(s') && RootsOk(s'.h.used, s'.h.rootPage)
    ensures Inv(s')
  {
    KeepLists(s, s');
    forall d: Slot | d in s'.h.allbase ensures SlotFine(s', {}, d) { SameHeapAny(s, s', d); }
  }

  lemma SameHeapAny(s: State, s': State, d: Slot)
    requires Inv(s) && SameHeap(s, s') && d in s.h.allbase
    ensures SlotFine(s', {}, d)
  {
    assert SlotFine(s, {}, d);
    KeepSlot(s, s', d);
  }

  /** Call t changes and nobody else's pages do. */
  lemma KeepCalls(s: State, s': State, t: Tid)
    requires Inv(s) && SameHeap(s, s') && RootsOk(s'.h.used, s'.h.rootPage)
    requires forall u: Tid :: u != t ==> (u in s'.calls <==> u in s.calls) && (u in s.calls ==> s'.calls[u] == s.calls[u])
    requires t in s'.calls ==> CallOk(s', t) && forall u: Tid :: SlotsApart(s'.calls, t, u)
    requires forall p :: p in s.use && s.use[p] != CallPage(t) && s.use[p] != CallRefPage(t) ==> p in s'.use && s'.use[p] == s.use[p]
    requires s'.big == s.big
    requires forall r: nat {:trigger RootPageOk(s'.h.rootPage, s'.use, r)} ::
               r < ROOTS && s'.h.rootPage[r] != s.h.rootPage[r] ==> RootPageOk(s'.h.rootPage, s'.use, r)
    ensures Inv(s')
  {
    forall u: Tid | u in s'.calls ensures CallOk(s', u) { if u != t { assert CallOk(s, u); } }
    forall u: Tid, v: Tid ensures SlotsApart(s'.calls, u, v) {
      assert SlotsApart(s.calls, u, v);
      if v == t && t in s'.calls { assert SlotsApart(s'.calls, t, u); }
    }
    forall r: nat | r < ROOTS ensures RootPageOk(s'.h.rootPage, s'.use, r) { assert RootPageOk(s.h.rootPage, s.use, r); }
    forall va: nat | va in s'.big ensures BigOk(s', va) { assert BigOk(s, va); }
    KeepSameHeap(s, s');
  }

  lemma HeapSlotsUsed(s: State, slot: Slot)
    requires Inv(s)
    ensures slot in s.h.allbase ==> slot in s.h.used
  {
    if slot in s.h.allbase { assert SlotFine(s, {}, slot); }
  }

  lemma KeepMalloc(s: State, t: Tid, sz: nat)
    requires Inv(s) && Enabled(s, Malloc(t, sz))
    ensures Defined(s, Malloc(t, sz)) && Inv(Apply(s, Malloc(t, sz)))
  {
    var list := s.h.sizebases[TypeFor(sz)];
    FindRoomFound(s.h.refs, list);
    var found := FindRoom(s.h.refs, list);
    if found.Some? {
      assert SlotFine(s, {}, found.value);
      TakeOk(s, found.value, sz, {});
      assert {} - {found.value} == {};
    } else {
      KeepCalls(s, Calling(s, t, WantPage(sz)), t);
    }
  }

  lemma KeepGetPage(s: State, t: Tid, va: nat)
    requires Inv(s) && Enabled(s, GetPage(t, va))
    ensures Defined(s, GetPage(t, va)) && Inv(Apply(s, GetPage(t, va)))
  {
    assert CallOk(s, t);
    KeepCalls(s, Apply(s, GetPage(t, va)), t);
  }

  lemma KeepGetRef(s: State, t: Tid, slot: Slot)
    requires Inv(s) && Enabled(s, GetRef(t, slot))
    ensures Defined(s, GetRef(t, slot)) && Inv(AfterRef(s, t, slot))
  {
    assert CallOk(s, t);
    var c, s1 := s.calls[t], s.(h := s.h.(used := s.h.used + {slot}));
    assert forall u: Tid :: u in s.calls && HasSlot(s.calls[u]) ==> s.calls[u].slot != slot by {
      forall u: Tid | u in s.calls && HasSlot(s.calls[u]) ensures s.calls[u].slot != slot { assert CallOk(s, u); }
    }
    HeapSlotsUsed(s, slot);
    RootsAfterRef(s.h.used, s.h.rootPage, slot);
    if s.h.rootPage[slot / PER_ROOT] != 0 {
      var base := s1.(calls := s.calls - {t});
      KeepCalls(s, base, t);
      PutOk(s1, t, c.sz, c.page, slot);
    } else {
      KeepCalls(s, Calling(s1, t, WantRefPage(c.sz, c.page, slot)), t);
    }
  }

  lemma KeepNoRef(s: State, t: Tid)
    requires Inv(s) && Enabled(s, NoRef(t))
    ensures Defined(s, NoRef(t)) && Inv(Apply(s, NoRef(t)))
  {
    assert CallOk(s, t);
    KeepCalls(s, Apply(s, NoRef(t)), t);
  }

  lemma KeepGetRefPage(s: State, t: Tid, va: nat)
    requires Inv(s) && Enabled(s, GetRefPage(t, va))
    ensures Defined(s, GetRefPage(t, va)) && Inv(Apply(s, GetRefPage(t, va)))
  {
    assert CallOk(s, t);
    var s' := Apply(s, GetRefPage(t, va));
    forall u: Tid ensures SlotsApart(s'.calls, t, u) { assert SlotsApart(s.calls, t, u); }
    KeepCalls(s, s', t);
  }

  lemma KeepFreePage(s: State, t: Tid)
    requires Inv(s) && Enabled(s, FreePage(t))
    ensures Defined(s, FreePage(t)) && Inv(Apply(s, FreePage(t)))
  {
    assert CallOk(s, t);
    KeepCalls(s, Apply(s, FreePage(t)), t);
  }

  /** A call with a pageref whose root has its page: the heap page can be set up. */
  lemma FinishCall(s: State, s1: State, t: Tid)
    requires Inv(s) && t in s.calls && HasSlot(s.calls[t]) && SameHeap(s, s1) && s1.calls == s.calls && s1.big == s.big
    requires RootsOk(s1.h.used, s1.h.rootPage)
    requires s.calls[t].slot < NSLOTS && s1.h.rootPage[s.calls[t].slot / PER_ROOT] != 0
    requires forall p :: p in s.use && s.use[p] != CallRefPage(t) ==> p in s1.use && s1.use[p] == s.use[p]
    requires forall r: nat {:trigger RootPageOk(s1.h.rootPage, s1.use, r)} ::
               r < ROOTS && s1.h.rootPage[r] != s.h.rootPage[r] ==> RootPageOk(s1.h.rootPage, s1.use, r)
    ensures var c := s.calls[t];
            c.sz < LARGEST && c.page > 0 && c.page % PAGE == 0 && |s1.h.sizebases| == NSIZES && Inv(Put(s1, t, c.sz, c.page, c.slot))
  {
    assert CallOk(s, t);
    var c, base := s.calls[t], s1.(calls := s.calls - {t});
    KeepCalls(s, base, t);
    forall u: Tid | u in base.calls && HasSlot(base.calls[u]) ensures base.calls[u].slot != c.slot {
      assert SlotsApart(s.calls, t, u);
    }
    PutOk(s1, t, c.sz, c.page, c.slot);
  }

  lemma KeepSetRefPage(s: State, t: Tid)
    requires Inv(s) && Enabled(s, SetRefPage(t))
    ensures Defined(s, SetRefPage(t)) && Inv(AfterRefPage(s, t))
  {
    assert CallOk(s, t);
    var c := s.calls[t];
    var r := c.slot / PER_ROOT;
    if c.va == 0 && s.h.rootPage[r] == 0 {
      KeepCalls(s, Calling(s, t, GiveBack(c.page)), t);
    } else if c.va == 0 {
      FinishCall(s, s, t);
    } else if s.h.rootPage[r] != 0 {
      var s' := Calling(s, t, ExtraRefPage(c.sz, c.page, c.slot, c.va));
      forall u: Tid ensures SlotsApart(s'.calls, t, u) { assert SlotsApart(s.calls, t, u); }
      KeepCalls(s, s', t);
    } else {
      RootsAfterPage(s.h.used, s.h.rootPage, r, c.va);
      FinishCall(s, s.(h := s.h.(rootPage := s.h.rootPage[r := c.va]), use := s.use[c.va := RefPage(r)]), t);
    }
  }

  lemma KeepDropExtra(s: State, t: Tid)
    requires Inv(s) && Enabled(s, DropExtra(t))
    ensures Defined(s, DropExtra(t)) && Inv(Apply(s, DropExtra(t)))
  {
    assert CallOk(s, t);
    FinishCall(s, s.(use := s.use - {s.calls[t].va}), t);
  }

  /** A multi-page allocation is on no heap page. */
  lemma BigNotOnHeap(s: State, ptr: nat)
    requires Inv(s) && ptr in s.big
    ensures FindPage(s.h.refs, s.h.allbase, ptr).None?
  {
    assert BigOk(s, ptr);
    FindPageFound(s.h.refs, s.h.allbase, ptr);
    var found := FindPage(s.h.refs, s.h.allbase, ptr);
    assert BigRange(ptr, s.big[ptr].pages, ptr);
    assert ptr in Pages(ptr, s.big[ptr].pages);
    if found.Some? {
      assert SlotFine(s, {}, found.value);
      SamePage(PageAddr(s.h.refs[found.value]), ptr, ptr);
    }
  }

  lemma KeepBigFree(s: State, ptr: nat)
    requires Inv(s) && ptr in s.big
    ensures Inv(s.(use := s.use - Pages(ptr, s.big[ptr].pages), big := s.big - {ptr}))
  {
    var s' := s.(use := s.use - Pages(ptr, s.big[ptr].pages), big := s.big - {ptr});
    assert BigOk(s, ptr);
    forall u: Tid | u in s'.calls ensures CallOk(s', u) { assert CallOk(s, u); }
    forall va: nat | va in s'.big ensures BigOk(s', va) {
      assert BigOk(s, va);
    }
    forall r: nat | r < ROOTS ensures RootPageOk(s'.h.rootPage, s'.use, r) { assert RootPageOk(s.h.rootPage, s.use, r); }
    KeepSameHeap(s, s');
  }

  lemma KeepBigMalloc(s: State, t: Tid, sz: nat, va: nat)
    requires Inv(s) && Enabled(s, BigMalloc(t, sz, va))
    ensures Inv(Apply(s, BigMalloc(t, sz, va)))
  {
    if va == 0 {
    } else if Rounded(sz) == 0 {
      var s' := s.(hollow := s.hollow[va := sz]);
      KeepOutside(s, s');
      KeepSameHeap(s, s');
    } else {
      KeepBig(s, va, Extent(Rounded(sz), sz));
    }
  }

  /** Fresh pages become a multi-page allocation. */
  lemma KeepBig(s: State, va: nat, big: Extent)
    requires Inv(s) && big.pages > 0 && FreshPages(s, va, big.pages)
    ensures Inv(s.(use := s.use + (map p | p in Pages(va, big.pages) :: BigPage(va)), big := s.big[va := big]))
  {
    var s' := s.(use := s.use + (map p | p in Pages(va, big.pages) :: BigPage(va)), big := s.big[va := big]);
    forall u: Tid | u in s'.calls ensures CallOk(s', u) { assert CallOk(s, u); }
    forall v: nat | v in s'.big ensures BigOk(s', v) {
      if v != va { assert BigOk(s, v); }
    }
    forall r: nat | r < ROOTS ensures RootPageOk(s'.h.rootPage, s'.use, r) { assert RootPageOk(s.h.rootPage, s.use, r); }
    KeepSameHeap(s, s');
  }

  /** kfree tells the two kinds of pointer apart. */
  lemma FreeDispatch(s: State, ptr: nat)
    requires Inv(s)
    ensures forall slot: Slot, i: nat :: LiveAt(s, slot, i, ptr) ==>
              slot in s.h.allbase && FindPage(s.h.refs, s.h.allbase, ptr) == Some(slot)
    ensures ptr in s.big ==> FindPage(s.h.refs, s.h.allbase, ptr) == None
  {
    forall slot: Slot, i: nat | LiveAt(s, slot, i, ptr)
      ensures slot in s.h.allbase && FindPage(s.h.refs, s.h.allbase, ptr) == Some(slot)
    {
      assert SlotFine(s, {}, slot);
      LivePlace(s, slot, i, ptr);
      FindPageLive(s, slot, ptr);
    }
    if ptr in s.big { BigNotOnHeap(s, ptr); }
  }

  lemma KeepFree(s: State, t: Tid, ptr: nat)
    requires Inv(s) && Enabled(s, Free(t, ptr))
    ensures Defined(s, Free(t, ptr)) && Inv(Apply(s, Free(t, ptr)))
  {
    FreeDispatch(s, ptr);
    if IsLive(s, ptr) {
      var slot: Slot, i: nat :| LiveAt(s, slot, i, ptr);
      assert SlotFine(s, {}, slot);
      LivePlace(s, slot, i, ptr);
      EmptyOk(s, t, slot, i, ptr);
      if s.h.refs[slot].nfree + 1 != Count(BlockType(s.h.refs[slot])) { ReturnOk(s, slot, i, ptr); }
    } else {
      KeepBigFree(s, ptr);
    }
  }

  /** A write into a live block, or off the heap pages, misses every free list. */
  lemma WriteMisses(s: State, a: nat, v: nat, d: Slot)
    requires Inv(s) && MayWrite(s, a) && d in s.h.allbase && SlotFits(s, d)
    ensures Threaded(s.h.ram[a := v], s.h.refs[d], s.free[d])
  {
    var pr, free, ram' := s.h.refs[d], s.free[d], s.h.ram[a := v];
    forall k: nat | k < |free| ensures LinkOk(ram', pr, free, k) {
      assert LinkOk(s.h.ram, pr, free, k);
      assert free[k] in free;
      NotThisBlock(s, a, d, free[k]);
    }
  }

  lemma NotThisBlock(s: State, a: nat, d: Slot, j: nat)
    requires Inv(s) && MayWrite(s, a) && d in s.h.allbase && SlotFits(s, d) && j in s.free[d]
    ensures a != Block(s.h.refs[d], j)
  {
    var pr := s.h.refs[d];
    OffsetFacts(BlockType(pr), j, j);
    PageOf(PageAddr(pr), Block(pr, j));
    if exists slot: Slot, i: nat :: InLiveBlock(s, slot, i, a) {
      var slot: Slot, i: nat :| InLiveBlock(s, slot, i, a);
      assert SlotFine(s, {}, slot);
      LiveApart(s, slot, i, d, j);
    }
  }

  /** A live block and a free one have no word in common. */
  lemma LiveApart(s: State, slot: Slot, i: nat, d: Slot, j: nat)
    requires SlotFits(s, slot) && SlotFits(s, d) && i in s.live[slot] && j in s.free[d]
    ensures var pr, qr := s.h.refs[slot], s.h.refs[d];
            Block(pr, i) + Size(BlockType(pr)) <= Block(qr, j) || Block(qr, j) + Size(BlockType(qr)) <= Block(pr, i)
  {
    var pr, qr := s.h.refs[slot], s.h.refs[d];
    OffsetFacts(BlockType(pr), i, i);
    OffsetFacts(BlockType(qr), j, j);
    if slot == d { BlocksApart(pr, i, j); } else { PagesApart(PageAddr(pr), PageAddr(qr)); }
  }

  lemma PageOf(p: nat, a: nat)
    requires p % PAGE == 0 && p <= a < p + PAGE
    ensures a - a % PAGE == p
  {
  }

  lemma KeepClientWrite(s: State, a: nat, v: nat)
    requires Inv(s) && Enabled(s, ClientWrite(a, v))
    ensures Inv(Apply(s, ClientWrite(a, v)))
  {
    var s' := Apply(s, ClientWrite(a, v));
    KeepOutside(s, s');
    forall d: Slot | d in s'.h.allbase ensures SlotFine(s', {}, d) { WriteAny(s, a, v, d); }
  }

  lemma WriteAny(s: State, a: nat, v: nat, d: Slot)
    requires Inv(s) && MayWrite(s, a) && d in s.h.allbase
    ensures SlotFine(s.(h := s.h.(ram := s.h.ram[a := v])), {}, d)
  {
    assert SlotFine(s, {}, d);
    WriteMisses(s, a, v, d);
  }

  lemma KeepStep(s: State, step: Step)
    requires Inv(s) && Enabled(s, step)
    ensures Defined(s, step) && Inv(Apply(s, step))
  {
    match step
    case Malloc(t, sz) => KeepMalloc(s, t, sz);
    case GetPage(t, va) => KeepGetPage(s, t, va);
    case GetRef(t, slot) => KeepGetRef(s, t, slot);
    case NoRef(t) => KeepNoRef(s, t);
    case GetRefPage(t, va) => KeepGetRefPage(s, t, va);
    case SetRefPage(t) => KeepSetRefPage(s, t);
    case DropExtra(t) => KeepDropExtra(s, t);
    case FreePage(t) => KeepFreePage(s, t);
    case Free(t, ptr) => KeepFree(s, t, ptr);
    case BigMalloc(t, sz, va) => KeepBigMalloc(s, t, sz, va);
    case ClientWrite(a, v) => KeepClientWrite(s, a, v);
  }

  // ---- Over every run.

  function Boot(): State {
    State(Heap(map[], map[], seq(NSIZES, _ => []), [], {}, seq(ROOTS, _ => 0)), map[], map[], map[], map[], map[], map[])
  }

  ghost predicate IsRun(run: seq<State>, steps: seq<Step>) {
    && |run| == |steps| + 1 && run[0] == Boot()
    && forall i :: 0 <= i < |steps| ==>
         Enabled(run[i], steps[i]) && (Defined(run[i], steps[i]) ==> run[i + 1] == Apply(run[i], steps[i]))
  }

  lemma {:induction false} RunInv(run: seq<State>, steps: seq<Step>, k: nat)
    requires IsRun(run, steps) && k < |run|
    ensures Inv(run[k])
    ensures k < |steps| ==> Defined(run[k], steps[k]) && run[k + 1] == Apply(run[k], steps[k])
  {
    if k > 0 {
      RunInv(run, steps, k - 1);
      KeepStep(run[k - 1], steps[k - 1]);
    }
    if k < |steps| { KeepStep(run[k], steps[k]); }
  }

  /** In every state of every run the blocks of a heap page are partitioned into its free list,
      which is what the links in memory spell, and its live blocks. */
  lemma PartitionTheorem(run: seq<State>, steps: seq<Step>, k: nat, slot: Slot)
    requires IsRun(run, steps) && k < |run| && slot in run[k].h.allbase
    ensures SlotFits(run[k], slot)
    ensures var s := run[k]; var bt := BlockType(s.h.refs[slot]);
            && s.h.refs[slot].nfree == |s.free[slot]| < Count(bt)
            && (forall i: nat :: i < Count(bt) ==> (i in s.free[slot] <==> i !in s.live[slot]))
  {
    RunInv(run, steps, k);
    assert SlotFine(run[k], {}, slot);
    AllFree(BlockType(run[k].h.refs[slot]), run[k].free[slot], run[k].live[slot]);
  }

  /** The assertions of doalloc about a page with a free block: the offset and the link stay on
      the page, and nfree agrees with the link. */
  ghost predicate DoallocAsserts(ram: Ram, pr: Pageref) {
    var next := Get(ram, First(pr));
    && pr.freelistOffset < PAGE
    && (next != 0 ==> pr.nfree - 1 > 0 && PageAddr(pr) <= next < PageAddr(pr) + PAGE)
    && (next == 0 ==> pr.nfree - 1 == 0)
  }

  lemma FirstOnPage(ram: Ram, pr: Pageref, free: seq<nat>, live: map<nat, nat>)
    requires BlockType(pr) < NSIZES && PageAddr(pr) > 0 && free != []
    requires Threaded(ram, pr, free) && Partitioned(BlockType(pr), free, live)
    ensures DoallocAsserts(ram, pr)
  {
    var bt := BlockType(pr);
    assert LinkOk(ram, pr, free, 0);
    assert free[0] in free;
    OffsetFacts(bt, free[0], free[0]);
    if |free| > 1 {
      assert free[1] in free;
      OffsetFacts(bt, free[1], free[1]);
    }
  }

  /** They hold in every run, at a page that has been found with a free block and at one just
      set up. */
  lemma DoallocTheorem(run: seq<State>, steps: seq<Step>, k: nat, slot: Slot)
    requires IsRun(run, steps) && k < |run| && slot in run[k].h.allbase
    ensures slot in run[k].h.refs && (run[k].h.refs[slot].nfree > 0 ==> DoallocAsserts(run[k].h.ram, run[k].h.refs[slot]))
  {
    RunInv(run, steps, k);
    assert SlotFine(run[k], {}, slot);
    if run[k].h.refs[slot].nfree > 0 {
      FirstOnPage(run[k].h.ram, run[k].h.refs[slot], run[k].free[slot], run[k].live[slot]);
    }
  }

  /** And the two of the loop that threads the page: no block links to itself, and the list
      starts at the last one. */
  lemma FreshDoalloc(s: State, t: Tid, bt: nat, page: nat, slot: Slot, i: nat)
    requires bt < NSIZES && |s.h.sizebases| == NSIZES && page % PAGE == 0 && page > 0 && 0 < i < Count(bt)
    ensures var s1 := Installed(s, t, bt, page, slot); var pr := s1.h.refs[slot];
            && DoallocAsserts(s1.h.ram, pr) && pr.freelistOffset == (pr.nfree - 1) * Size(bt)
            && Get(s1.h.ram, page + Offset(bt, i)) == page + Offset(bt, i - 1) < page + Offset(bt, i)
  {
    var s1 := Installed(s, t, bt, page, slot);
    InstalledCanPop(s, t, bt, page, slot);
    FirstOnPage(s1.h.ram, s1.h.refs[slot], s1.free[slot], map[]);
    LastOffset(bt);
    ThreadWrites(s.h.ram, page, bt, Count(bt) - 1, i);
    OffsetFacts(bt, i - 1, i);
  }

  lemma LastOffset(bt: nat)
    requires bt < NSIZES
    ensures Offset(bt, Count(bt) - 1) == (Count(bt) - 1) * Size(bt)
  {
    OffsetIsProduct(bt, Count(bt) - 1);
    assert Size(bt) * (Count(bt) - 1) == (Count(bt) - 1) * Size(bt);
  }

  /** The assertions of kfree and subpage_kfree in every run: a live pointer is at the start of a
      block of its page, is not the first of its free list, and the page has room for it on that
      list; any other pointer is at the start of a page. */
  lemma KfreeTheorem(run: seq<State>, steps: seq<Step>, k: nat, t: Tid, ptr: nat, slot: Slot, i: nat)
    requires IsRun(run, steps) && k < |steps| && steps[k] == Free(t, ptr)
    ensures LiveAt(run[k], slot, i, ptr) ==>
              var pr := run[k].h.refs[slot];
              && 0 <= ptr - PageAddr(pr) < PAGE && (ptr - PageAddr(pr)) % Size(BlockType(pr)) == 0
              && (pr.freelistOffset != INVALID_OFFSET ==> First(pr) != ptr)
              && pr.nfree + 1 <= PAGE / Size(BlockType(pr))
    ensures !IsLive(run[k], ptr) ==> ptr in run[k].big && ptr % PAGE == 0
  {
    RunInv(run, steps, k);
    var s := run[k];
    if LiveAt(s, slot, i, ptr) { LiveFree(s, slot, i, ptr); }
    if !IsLive(s, ptr) { assert BigOk(s, ptr); }
  }

  lemma LiveFree(s: State, slot: Slot, i: nat, ptr: nat)
    requires Inv(s) && LiveAt(s, slot, i, ptr)
    ensures var pr := s.h.refs[slot];
            && 0 <= ptr - PageAddr(pr) < PAGE && (ptr - PageAddr(pr)) % Size(BlockType(pr)) == 0
            && (pr.freelistOffset != INVALID_OFFSET ==> First(pr) != ptr)
            && pr.nfree + 1 <= PAGE / Size(BlockType(pr))
  {
    assert SlotFine(s, {}, slot);
    var pr, free, live := s.h.refs[slot], s.free[slot], s.live[slot];
    LivePlace(s, slot, i, ptr);
    AllFree(BlockType(pr), free, live);
    if free != [] {
      assert free[0] in free;
      BlocksApart(pr, i, free[0]);
    }
  }

  /** Any two live blocks are disjoint, and each lies on a page that has not been given back
      and is as large as was asked for. */
  lemma LiveBlocksTheorem(run: seq<State>, steps: seq<Step>, k: nat, slot: Slot, i: nat, p: nat, slot': Slot, i': nat, p': nat)
    requires IsRun(run, steps) && k < |run| && LiveAt(run[k], slot, i, p) && LiveAt(run[k], slot', i', p')
    ensures var s := run[k]; var pr, pr' := s.h.refs[slot], s.h.refs[slot'];
            && s.live[slot][i] <= Size(BlockType(pr))
            && PageAddr(pr) <= p && p + Size(BlockType(pr)) <= PageAddr(pr) + PAGE && p % 4 == 0
            && PageAddr(pr) in s.use && s.use[PageAddr(pr)] == HeapPage(slot)
            && ((slot == slot' && i == i') || p + Size(BlockType(pr)) <= p' || p' + Size(BlockType(pr')) <= p)
  {
    RunInv(run, steps, k);
    LiveWhere(run[k], slot, i, p);
    LiveWhere(run[k], slot', i', p');
    if slot != slot' || i != i' { TwoLive(run[k], slot, i, slot', i'); }
  }

  lemma LiveWhere(s: State, slot: Slot, i: nat, p: nat)
    requires Inv(s) && LiveAt(s, slot, i, p)
    ensures SlotFits(s, slot)
    ensures var pr := s.h.refs[slot];
            s.live[slot][i] <= Size(BlockType(pr)) && PageAddr(pr) <= p && p + Size(BlockType(pr)) <= PageAddr(pr) + PAGE && p % 4 == 0
  {
    assert SlotFine(s, {}, slot);
    OffsetFacts(BlockType(s.h.refs[slot]), i, i);
    WordAligned(s.h.refs[slot].pab, Offset(BlockType(s.h.refs[slot]), i));
  }

  lemma WordAligned(pab: nat, offset: nat)
    requires offset % 4 == 0
    ensures (pab - pab % PAGE + offset) % 4 == 0
  {
    var q, k := pab / PAGE, offset / 4;
    assert pab - pab % PAGE + offset == 4 * (1024 * q + k);
    Bits.MultipleMod(1024 * q + k, 4);
  }

  lemma TwoLive(s: State, slot: Slot, i: nat, slot': Slot, i': nat)
    requires SlotFits(s, slot) && SlotFits(s, slot') && i in s.live[slot] && i' in s.live[slot'] && (slot != slot' || i != i')
    ensures var pr, pr' := s.h.refs[slot], s.h.refs[slot'];
            Block(pr, i) + Size(BlockType(pr)) <= Block(pr', i') || Block(pr', i') + Size(BlockType(pr')) <= Block(pr, i)
  {
    var pr, pr' := s.h.refs[slot], s.h.refs[slot'];
    OffsetFacts(BlockType(pr), i, i);
    OffsetFacts(BlockType(pr'), i', i');
    if slot != slot' { PagesApart(PageAddr(pr), PageAddr(pr')); } else { BlocksApart(pr, i, i'); }
  }

  /** Links and fills never touch a live block: whatever the allocator does, the memory of a
      block that is live before and after is as its client left it. */
  lemma FrameTheorem(run: seq<State>, steps: seq<Step>, k: nat, slot: Slot, i: nat, a: nat)
    requires IsRun(run, steps) && k < |steps| && !steps[k].ClientWrite?
    requires InLiveBlock(run[k], slot, i, a) && InLiveBlock(run[k + 1], slot, i, a)
    ensures Get(run[k + 1].h.ram, a) == Get(run[k].h.ram, a)
  {
    RunInv(run, steps, k);
    StepFrame(run[k], steps[k], slot, i, a);
  }

  lemma StepFrame(s: State, step: Step, slot: Slot, i: nat, a: nat)
    requires Inv(s) && Enabled(s, step) && Defined(s, step) && !step.ClientWrite?
    requires InLiveBlock(s, slot, i, a) && InLiveBlock(Apply(s, step), slot, i, a)
    ensures Get(Apply(s, step).h.ram, a) == Get(s.h.ram, a)
  {
    if step.Free? {
      FreeApart(s, step.t, step.ptr, slot, i, a);
    } else if step.GetRef? || step.SetRefPage? || step.DropExtra? {
      RamAfterPut(s, step);
      LiveOnPage(s, slot, i, a);
      CallPageApart(s, step.t, slot, a);
    } else {
      RamSame(s, step);
    }
  }

  lemma RamSame(s: State, step: Step)
    requires Defined(s, step) && !step.ClientWrite? && !step.Free? && !step.GetRef? && !step.SetRefPage? && !step.DropExtra?
    ensures Apply(s, step).h.ram == s.h.ram
  {
  }

  lemma PutRam(s: State, t: Tid, sz: nat, page: nat, slot: Slot)
    requires sz < LARGEST && |s.h.sizebases| == NSIZES && page % PAGE == 0 && page > 0
    ensures Put(s, t, sz, page, slot).h.ram == Thread(s.h.ram, page, TypeFor(sz), Count(TypeFor(sz)) - 1)
  {
    InstalledCanPop(s, t, TypeFor(sz), page, slot);
  }

  /** Memory once the page a call has got is set up. */
  function PutOnto(ram: Ram, c: Call): Ram
    requires (c.HavePage? || HasSlot(c)) && Usable(c)
  {
    Thread(ram, c.page, TypeFor(c.sz), Count(TypeFor(c.sz)) - 1)
  }

  /** Otherwise the allocator writes at most that page. */
  lemma RamAfterPut(s: State, step: Step)
    requires Defined(s, step) && (step.GetRef? || step.SetRefPage? || step.DropExtra?)
    ensures Apply(s, step).h.ram == s.h.ram || Apply(s, step).h.ram == PutOnto(s.h.ram, s.calls[step.t])
  {
    match step
    case GetRef(t, slot) => RamAfterGetRef(s, t, slot);
    case SetRefPage(t) => RamAfterSetRefPage(s, t);
    case DropExtra(t) =>
      var c := s.calls[t];
      PutRam(s.(use := s.use - {c.va}), t, c.sz, c.page, c.slot);
  }

  lemma RamAfterGetRef(s: State, t: Tid, slot: Slot)
    requires Defined(s, GetRef(t, slot))
    ensures var ram := AfterRef(s, t, slot).h.ram; ram == s.h.ram || ram == PutOnto(s.h.ram, s.calls[t])
  {
    var c, s1 := s.calls[t], s.(h := s.h.(used := s.h.used + {slot}));
    if s.h.rootPage[slot / PER_ROOT] != 0 {
      PutRam(s1, t, c.sz, c.page, slot);
      assert AfterRef(s, t, slot) == Put(s1, t, c.sz, c.page, slot);
    }
  }

  lemma RamAfterSetRefPage(s: State, t: Tid)
    requires Defined(s, SetRefPage(t))
    ensures var ram := AfterRefPage(s, t).h.ram; ram == s.h.ram || ram == PutOnto(s.h.ram, s.calls[t])
  {
    var c := s.calls[t];
    var r := c.slot / PER_ROOT;
    if c.va == 0 && s.h.rootPage[r] != 0 {
      PutRam(s, t, c.sz, c.page, c.slot);
      assert AfterRefPage(s, t) == Put(s, t, c.sz, c.page, c.slot);
    } else if c.va != 0 && s.h.rootPage[r] == 0 {
      RamAfterFirst(s, t);
    } else {
      assert AfterRefPage(s, t).h == s.h;
    }
  }

  lemma RamAfterFirst(s: State, t: Tid)
    requires Defined(s, SetRefPage(t)) && s.calls[t].va != 0 && s.h.rootPage[s.calls[t].slot / PER_ROOT] == 0
    ensures AfterRefPage(s, t).h.ram == PutOnto(s.h.ram, s.calls[t])
  {
    var c := s.calls[t];
    var r := c.slot / PER_ROOT;
    var s1 := s.(h := s.h.(rootPage := s.h.rootPage[r := c.va]), use := s.use[c.va := RefPage(r)]);
    PutRam(s1, t, c.sz, c.page, c.slot);
    assert AfterRefPage(s, t) == Put(s1, t, c.sz, c.page, c.slot);
  }

  lemma LiveOnPage(s: State, slot: Slot, i: nat, a: nat)
    requires Inv(s) && InLiveBlock(s, slot, i, a)
    ensures slot in s.h.allbase && OnPage(s.h.refs, slot, a)
  {
    assert SlotFine(s, {}, slot);
    OffsetFacts(BlockType(s.h.refs[slot]), i, i);
  }

  /** The page a call has is not the one address a is on. */
  lemma CallPageApart(s: State, t: Tid, slot: Slot, a: nat)
    requires Inv(s) && slot in s.h.allbase && OnPage(s.h.refs, slot, a) && t in s.calls && (s.calls[t].HavePage? || HasSlot(s.calls[t]))
    ensures var c := s.calls[t];
            && c.sz < LARGEST && (a < c.page || c.page + PAGE <= a)
            && Get(Thread(s.h.ram, c.page, TypeFor(c.sz), Count(TypeFor(c.sz)) - 1), a) == Get(s.h.ram, a)
  {
    assert CallOk(s, t);
    assert SlotFine(s, {}, slot);
    PagesApart(s.calls[t].page, PageAddr(s.h.refs[slot]));
    ThreadFrame(s.h.ram, s.calls[t].page, TypeFor(s.calls[t].sz), Count(TypeFor(s.calls[t].sz)) - 1, a);
  }

  lemma FreeApart(s: State, t: Tid, ptr: nat, slot: Slot, i: nat, a: nat)
    requires Inv(s) && Enabled(s, Free(t, ptr)) && Defined(s, Free(t, ptr)) && slot in s.h.allbase
    requires InLiveBlock(s, slot, i, a) && InLiveBlock(Apply(s, Free(t, ptr)), slot, i, a)
    ensures Get(Apply(s, Free(t, ptr)).h.ram, a) == Get(s.h.ram, a)
  {
    FreeDispatch(s, ptr);
    if IsLive(s, ptr) {
      var d: Slot, j: nat :| LiveAt(s, d, j, ptr);
      assert SlotFine(s, {}, d);
      assert SlotFine(s, {}, slot);
      LivePlace(s, d, j, ptr);
      NoLongerLive(s, t, d, j, ptr, a);
      PushApart(s, d, j, slot, i, a);
    }
  }

  /** A freed block is not live any more. */
  lemma NoLongerLive(s: State, t: Tid, slot: Slot, i: nat, ptr: nat, a: nat)
    requires SlotFits(s, slot) && LiveAt(s, slot, i, ptr) && CanFree(s, slot, ptr)
    ensures !InLiveBlock(Freed(s, t, slot, ptr), slot, i, a)
    ensures Freed(s, t, slot, ptr).h.ram == Push(s.h, slot, ptr).ram
  {
    LivePlace(s, slot, i, ptr);
  }

  lemma PushApart(s: State, d: Slot, j: nat, slot: Slot, i: nat, a: nat)
    requires SlotFits(s, d) && SlotFits(s, slot) && j in s.live[d] && InLiveBlock(s, slot, i, a) && (d != slot || j != i)
    ensures Get(Push(s.h, d, Block(s.h.refs[d], j)).ram, a) == Get(s.h.ram, a)
  {
    TwoLive(s, d, j, slot, i);
    PushFrame(s.h.ram, s.h.refs[d], j, a);
  }

  /** The number of pages is enough, unless the rounding wraps around and asks for none. */
  lemma RoundedEnough(sz: nat)
    requires 0 < sz < Bits.W
    ensures Rounded(sz) == 0 <==> sz > Bits.W - PAGE
    ensures Rounded(sz) > 0 ==> sz <= PAGE * Rounded(sz) < sz + PAGE
  {
  }

  predicate Apart(a: nat, m: nat, b: nat, n: nat) {
    a + m <= b || b + n <= a
  }

  /** No other page in use lies in a multi-page allocation. */
  lemma BigApart(s: State, va: nat, p: nat)
    requires BigOk(s, va) && p in s.use && p % PAGE == 0 && s.use[p] != BigPage(va)
    ensures Apart(p, PAGE, va, PAGE * s.big[va].pages)
  {
    assert p !in Pages(va, s.big[va].pages);
    assert !BigRange(va, s.big[va].pages, p);
    if p < va { PagesApart(p, va); }
  }

  lemma BigPairApart(s: State, va: nat, other: nat)
    requires BigOk(s, va) && BigOk(s, other) && va != other
    ensures Apart(va, PAGE * s.big[va].pages, other, PAGE * s.big[other].pages)
  {
    assert BigRange(va, s.big[va].pages, va) && BigRange(other, s.big[other].pages, other);
    assert va in Pages(va, s.big[va].pages) && other in Pages(other, s.big[other].pages);
    BigApart(s, va, other);
    BigApart(s, other, va);
  }

  /** A multi-page allocation is disjoint from every other one, from every heap page and so from
      every live block, and is as large as was asked for. */
  lemma BigTheorem(run: seq<State>, steps: seq<Step>, k: nat, va: nat, other: nat, slot: Slot)
    requires IsRun(run, steps) && k < |run| && va in run[k].big
    ensures var big := run[k].big[va];
            && va % PAGE == 0 && big.pages > 0
            && big.size <= PAGE * big.pages < big.size + PAGE && LARGEST <= big.size <= Bits.W - PAGE
            && (other in run[k].big && other != va ==> Apart(va, PAGE * big.pages, other, PAGE * run[k].big[other].pages))
            && (slot in run[k].h.allbase ==>
                  slot in run[k].h.refs && Apart(PageAddr(run[k].h.refs[slot]), PAGE, va, PAGE * big.pages))
  {
    RunInv(run, steps, k);
    RunSizes(run, steps, k);
    var s := run[k];
    BigWhole(s, va);
    assert BigOk(s, va);
    if other in s.big && other != va {
      assert BigOk(s, other);
      BigPairApart(s, va, other);
    }
    if slot in s.h.allbase {
      HeapPageUse(s, slot);
      BigApart(s, va, PageAddr(s.h.refs[slot]));
    }
  }

  lemma BigWhole(s: State, va: nat)
    requires SizesOk(s) && va in s.big
    ensures var big := s.big[va];
            big.size <= PAGE * big.pages < big.size + PAGE && LARGEST <= big.size <= Bits.W - PAGE
  {
    RoundedEnough(s.big[va].size);
  }

  /** What a request that is not refused brings, in every run: an allocation of that size if and
      only if the size is at most 2^32 - 4096; otherwise an address and no page. */
  lemma BigRequest(run: seq<State>, steps: seq<Step>, k: nat)
    requires IsRun(run, steps) && k < |steps| && steps[k].BigMalloc? && steps[k].va != 0
    ensures var s, s', va, sz := run[k], run[k + 1], steps[k].va, steps[k].sz;
            && (sz <= Bits.W - PAGE <==> va in s'.big && va !in s.big)
            && (sz <= Bits.W - PAGE ==> s'.big[va].size == sz)
            && (sz > Bits.W - PAGE ==> s'.big == s.big && s'.use == s.use && va in s'.hollow && s'.hollow[va] == sz)
  {
    RunInv(run, steps, k);
    var s, va, n := run[k], steps[k].va, Rounded(steps[k].sz);
    RoundedEnough(steps[k].sz);
    BigInUse(s, va);
    if n > 0 {
      assert BigRange(va, n, va);
      assert va in Pages(va, n);
    }
  }

  lemma BigInUse(s: State, va: nat)
    requires Inv(s)
    ensures va in s.big ==> va in s.use
  {
    if va in s.big {
      assert BigOk(s, va);
      assert BigRange(va, s.big[va].pages, va);
      assert va in Pages(va, s.big[va].pages);
    }
  }

  /** The sizes asked for, by kind. */
  ghost predicate SizesOk(s: State) {
    && (forall va :: va in s.big ==> LARGEST <= s.big[va].size < Bits.W && s.big[va].pages == Rounded(s.big[va].size) > 0)
    && (forall va :: va in s.hollow ==> s.hollow[va] < Bits.W && Rounded(s.hollow[va]) == 0)
  }

  lemma {:induction false} RunSizes(run: seq<State>, steps: seq<Step>, k: nat)
    requires IsRun(run, steps) && k < |run|
    ensures SizesOk(run[k])
  {
    if k == 0 {
    } else {
      RunSizes(run, steps, k - 1);
      RunInv(run, steps, k - 1);
      KeepSizes(run[k - 1], steps[k - 1]);
    }
  }

  lemma KeepSizes(s: State, step: Step)
    requires Defined(s, step) && Enabled(s, step) && SizesOk(s)
    ensures SizesOk(Apply(s, step))
  {
    match step
    case BigMalloc(t, sz, va) => BigMallocSizes(s, t, sz, va);
    case Free(t, ptr) => FreeSizes(s, t, ptr);
    case _ => SizesSame(s, step);
  }

  lemma BigMallocSizes(s: State, t: Tid, sz: nat, va: nat)
    requires Enabled(s, BigMalloc(t, sz, va)) && Defined(s, BigMalloc(t, sz, va)) && SizesOk(s)
    ensures SizesOk(Apply(s, BigMalloc(t, sz, va)))
  {
  }

  lemma FreeSizes(s: State, t: Tid, ptr: nat)
    requires Defined(s, Free(t, ptr)) && SizesOk(s)
    ensures SizesOk(Apply(s, Free(t, ptr))) && Apply(s, Free(t, ptr)).hollow == s.hollow
  {
  }

  lemma SizesSame(s: State, step: Step)
    requires Defined(s, step) && !step.BigMalloc? && !step.Free?
    ensures Apply(s, step).hollow == s.hollow && Apply(s, step).big == s.big
  {
    match step
    case GetRef(t, slot) => PutSizes(s.(h := s.h.(used := s.h.used + {slot})), t, s.calls[t].sz, s.calls[t].page, slot);
    case SetRefPage(t) => SetRefPageSizes(s, t);
    case DropExtra(t) => PutSizes(s.(use := s.use - {s.calls[t].va}), t, s.calls[t].sz, s.calls[t].page, s.calls[t].slot);
    case _ =>
  }

  lemma SetRefPageSizes(s: State, t: Tid)
    requires Defined(s, SetRefPage(t))
    ensures AfterRefPage(s, t).hollow == s.hollow && AfterRefPage(s, t).big == s.big
  {
    var c := s.calls[t];
    var r := c.slot / PER_ROOT;
    if c.va == 0 && s.h.rootPage[r] != 0 { PutSizes(s, t, c.sz, c.page, c.slot); }
    PutSizes(s.(h := s.h.(rootPage := s.h.rootPage[r := c.va]), use := s.use[c.va := RefPage(r)]), t, c.sz, c.page, c.slot);
  }

  lemma PutSizes(s: State, t: Tid, sz: nat, page: nat, slot: Slot)
    requires sz < LARGEST && |s.h.sizebases| == NSIZES && page % PAGE == 0 && page > 0
    ensures Put(s, t, sz, page, slot).hollow == s.hollow && Put(s, t, sz, page, slot).big == s.big
  {
    InstalledCanPop(s, t, TypeFor(sz), page, slot);
  }

  /** The allocator never writes into a multi-page allocation. */
  lemma BigFrameTheorem(run: seq<State>, steps: seq<Step>, k: nat, va: nat, a: nat)
    requires IsRun(run, steps) && k < |steps| && !steps[k].ClientWrite?
    requires va in run[k].big && va <= a < va + PAGE * run[k].big[va].pages
    ensures Get(run[k + 1].h.ram, a) == Get(run[k].h.ram, a)
  {
    RunInv(run, steps, k);
    var s, step := run[k], steps[k];
    assert BigOk(s, va);
    if step.Free? {
      BigFreeFrame(s, step.t, step.ptr, va, a);
    } else if step.GetRef? || step.SetRefPage? || step.DropExtra? {
      var c := s.calls[step.t];
      assert CallOk(s, step.t);
      RamAfterPut(s, step);
      BigApart(s, va, c.page);
      ThreadFrame(s.h.ram, c.page, TypeFor(c.sz), Count(TypeFor(c.sz)) - 1, a);
    } else {
      RamSame(s, step);
    }
  }

  lemma BigFreeFrame(s: State, t: Tid, ptr: nat, va: nat, a: nat)
    requires Inv(s) && Enabled(s, Free(t, ptr)) && Defined(s, Free(t, ptr)) && va in s.big && va <= a < va + PAGE * s.big[va].pages
    ensures Get(Apply(s, Free(t, ptr)).h.ram, a) == Get(s.h.ram, a)
  {
    FreeDispatch(s, ptr);
    if IsLive(s, ptr) {
      var d: Slot, j: nat :| LiveAt(s, d, j, ptr);
      assert SlotFine(s, {}, d) && BigOk(s, va);
      LivePlace(s, d, j, ptr);
      NoLongerLive(s, t, d, j, ptr, a);
      BigPushFrame(s, d, j, va, a);
    }
  }

  lemma BigPushFrame(s: State, d: Slot, j: nat, va: nat, a: nat)
    requires SlotFits(s, d) && j in s.live[d] && BigOk(s, va) && va <= a < va + PAGE * s.big[va].pages
    ensures Get(Push(s.h, d, Block(s.h.refs[d], j)).ram, a) == Get(s.h.ram, a)
  {
    BigApart(s, va, PageAddr(s.h.refs[d]));
    OffsetFacts(BlockType(s.h.refs[d]), j, j);
    PushFrame(s.h.ram, s.h.refs[d], j, a);
  }

  /** kmalloc never hands out an address that is still live. */
  lemma FreshBlockTheorem(run: seq<State>, steps: seq<Step>, k: nat, slot: Slot, i: nat, p: nat, slot': Slot, i': nat)
    requires IsRun(run, steps) && k < |steps| && LiveAt(run[k + 1], slot, i, p) && !LiveAt(run[k], slot, i, p)
    ensures !LiveAt(run[k], slot', i', p)
  {
    RunInv(run, steps, k);
    if LiveAt(run[k], slot', i', p) {
      StillLive(run[k], steps[k], slot', i', p);
      if steps[k].Free? {
        FreeShrinks(run[k], steps[k].t, steps[k].ptr, slot, i, p);
      } else {
        LiveBlocksTheorem(run, steps, k + 1, slot, i, p, slot', i', p);
      }
    }
  }

  lemma StillLive(s: State, step: Step, slot: Slot, i: nat, p: nat)
    requires Inv(s) && Enabled(s, step) && Defined(s, step) && LiveAt(s, slot, i, p)
    ensures !step.Free? ==> LiveAt(Apply(s, step), slot, i, p)
  {
    match step
    case GetRef(t, other) => GetRefKeepsLive(s, t, other, slot, i, p);
    case SetRefPage(t) => SetRefPageKeepsLive(s, t, slot, i, p);
    case DropExtra(t) => DropExtraKeepsLive(s, t, slot, i, p);
    case Free(_, _) =>
    case _ => OthersKeepLive(s, step, slot, i, p);
  }

  lemma GetRefKeepsLive(s: State, t: Tid, other: Slot, slot: Slot, i: nat, p: nat)
    requires Inv(s) && Enabled(s, GetRef(t, other)) && Defined(s, GetRef(t, other)) && LiveAt(s, slot, i, p)
    ensures LiveAt(AfterRef(s, t, other), slot, i, p)
  {
    HeapSlotsUsed(s, slot);
    PutKeepsLive(s.(h := s.h.(used := s.h.used + {other})), t, s.calls[t].sz, s.calls[t].page, other, slot, i, p);
  }

  lemma DropExtraKeepsLive(s: State, t: Tid, slot: Slot, i: nat, p: nat)
    requires Inv(s) && Enabled(s, DropExtra(t)) && Defined(s, DropExtra(t)) && LiveAt(s, slot, i, p)
    ensures LiveAt(Apply(s, DropExtra(t)), slot, i, p)
  {
    assert CallOk(s, t);
    PutKeepsLive(s.(use := s.use - {s.calls[t].va}), t, s.calls[t].sz, s.calls[t].page, s.calls[t].slot, slot, i, p);
  }

  lemma OthersKeepLive(s: State, step: Step, slot: Slot, i: nat, p: nat)
    requires Defined(s, step) && LiveAt(s, slot, i, p) && !step.Free? && !step.GetRef? && !step.SetRefPage? && !step.DropExtra?
    ensures LiveAt(Apply(s, step), slot, i, p)
  {
  }

  lemma SetRefPageKeepsLive(s: State, t: Tid, slot: Slot, i: nat, p: nat)
    requires Inv(s) && Enabled(s, SetRefPage(t)) && Defined(s, SetRefPage(t)) && LiveAt(s, slot, i, p)
    ensures LiveAt(AfterRefPage(s, t), slot, i, p)
  {
    assert SlotFine(s, {}, slot);
    assert CallOk(s, t);
    var c := s.calls[t];
    var r := c.slot / PER_ROOT;
    if c.va == 0 {
      PutKeepsLive(s, t, c.sz, c.page, c.slot, slot, i, p);
    } else if s.h.rootPage[r] == 0 {
      PutKeepsLive(s.(h := s.h.(rootPage := s.h.rootPage[r := c.va]), use := s.use[c.va := RefPage(r)]), t, c.sz, c.page, c.slot, slot, i, p);
    }
  }

  lemma PutKeepsLive(s: State, t: Tid, sz: nat, page: nat, other: Slot, slot: Slot, i: nat, p: nat)
    requires sz < LARGEST && |s.h.sizebases| == NSIZES && page % PAGE == 0 && page > 0 && LiveAt(s, slot, i, p) && other != slot
    ensures LiveAt(Put(s, t, sz, page, other), slot, i, p)
  {
    InstalledCanPop(s, t, TypeFor(sz), page, other);
  }

  lemma FreeShrinks(s: State, t: Tid, ptr: nat, slot: Slot, i: nat, p: nat)
    requires Inv(s) && Enabled(s, Free(t, ptr)) && Defined(s, Free(t, ptr)) && LiveAt(Apply(s, Free(t, ptr)), slot, i, p)
    ensures LiveAt(s, slot, i, p)
  {
    var found := FindPage(s.h.refs, s.h.allbase, ptr);
    if found.Some? { FreedShrinks(s, t, found.value, ptr, slot, i, p); }
  }

  lemma FreedShrinks(s: State, t: Tid, d: Slot, ptr: nat, slot: Slot, i: nat, p: nat)
    requires CanFree(s, d, ptr) && LiveAt(Freed(s, t, d, ptr), slot, i, p)
    ensures LiveAt(s, slot, i, p)
  {
  }

  /** A page is given back to the page allocator only when no live block is on it. */
  lemma PageReturnTheorem(run: seq<State>, steps: seq<Step>, k: nat, t: Tid, slot: Slot, i: nat, p: nat)
    requires IsRun(run, steps) && k < |steps| && steps[k] == FreePage(t) && LiveAt(run[k], slot, i, p)
    ensures t in run[k].calls && run[k].calls[t].GiveBack?
    ensures p < run[k].calls[t].page || run[k].calls[t].page + PAGE <= p
  {
    RunInv(run, steps, k);
    var s := run[k];
    assert CallOk(s, t);
    assert SlotFine(s, {}, slot);
    OffsetFacts(BlockType(s.h.refs[slot]), i, i);
    PagesApart(PageAddr(s.h.refs[slot]), s.calls[t].page);
  }

  /** allbase is exactly the disjoint union of the lists by size. */
  lemma ListsTheorem(run: seq<State>, steps: seq<Step>, k: nat, slot: Slot)
    requires IsRun(run, steps) && k < |run|
    ensures var h := run[k].h;
            && |h.sizebases| == NSIZES && NoDuplicates(h.allbase) && (forall bt :: 0 <= bt < NSIZES ==> NoDuplicates(h.sizebases[bt]))
            && (slot in h.allbase <==> exists bt: nat :: bt < NSIZES && slot in h.sizebases[bt])
            && (forall b: nat, c: nat :: b < NSIZES && c < NSIZES && slot in h.sizebases[b] && slot in h.sizebases[c] ==> b == c)
  {
    RunInv(run, steps, k);
    if slot in run[k].h.allbase { assert SlotFine(run[k], {}, slot); }
  }

  /** A pageref is never handed out while it is on the lists or with another call, however
      calls interleave while the lock is dropped. */
  lemma PagerefTheorem(run: seq<State>, steps: seq<Step>, k: nat, t: Tid, slot: Slot)
    requires IsRun(run, steps) && k < |steps| && steps[k] == GetRef(t, slot)
    ensures slot !in run[k].h.allbase
    ensures forall u: Tid :: u in run[k].calls && HasSlot(run[k].calls[u]) ==> run[k].calls[u].slot != slot
    ensures slot in run[k + 1].h.used
  {
    RunInv(run, steps, k);
    HeapSlotsUsed(run[k], slot);
    forall u: Tid | u in run[k].calls && HasSlot(run[k].calls[u]) ensures run[k].calls[u].slot != slot {
      assert CallOk(run[k], u);
    }
  }

  /** The pagerefs of a root whose bit is set; its numinuse is their number. */
  function InUse(used: set<Slot>, r: nat): set<Slot> {
    set x | x in used && x / PER_ROOT == r
  }

  /** The assertion of freepageref in every root it passes on its way to the one of slot. */
  ghost predicate FreepagerefAsserts(used: set<Slot>, rootPage: seq<nat>, slot: Slot)
    requires slot < NSLOTS && |rootPage| == ROOTS
  {
    forall r: nat :: r < slot / PER_ROOT && rootPage[r] == 0 ==> |InUse(used, r)| == 0
  }

  /** freepageref, whenever a kfree gives a pageref up: the search ends at the root of the
      pageref and no other page holds its address, its bit is set, and the assertion about roots
      without a page holds if and only if there is no such root below. */
  lemma FreepagerefTheorem(run: seq<State>, steps: seq<Step>, k: nat, slot: Slot)
    requires IsRun(run, steps) && k < |steps| && steps[k].Free?
    requires slot in run[k].h.allbase && slot !in run[k + 1].h.allbase
    ensures var h := run[k].h; var mine := slot / PER_ROOT;
            && slot < NSLOTS && |h.rootPage| == ROOTS && h.rootPage[mine] != 0 && slot in InUse(h.used, mine)
            && (forall r: nat :: r < ROOTS && r != mine && h.rootPage[r] != 0 ==>
                  h.rootPage[r] + PAGE <= h.rootPage[mine] || h.rootPage[mine] + PAGE <= h.rootPage[r])
            && (FreepagerefAsserts(h.used, h.rootPage, slot) <==> forall r: nat :: r < mine ==> h.rootPage[r] != 0)
  {
    RunInv(run, steps, k);
    assert SlotFine(run[k], {}, slot);
    RootPagesApart(run[k], slot / PER_ROOT);
    forall r: nat | r < slot / PER_ROOT && run[k].h.rootPage[r] == 0 ensures |InUse(run[k].h.used, r)| != 0 {
      RootInUse(run[k].h, slot, r);
    }
  }

  lemma RootPagesApart(s: State, mine: nat)
    requires |s.h.rootPage| == ROOTS && PagesOk(s) && mine < ROOTS && s.h.rootPage[mine] != 0
    ensures forall r: nat :: r < ROOTS && r != mine && s.h.rootPage[r] != 0 ==>
              s.h.rootPage[r] + PAGE <= s.h.rootPage[mine] || s.h.rootPage[mine] + PAGE <= s.h.rootPage[r]
  {
    forall r: nat | r < ROOTS && r != mine && s.h.rootPage[r] != 0
      ensures s.h.rootPage[r] + PAGE <= s.h.rootPage[mine] || s.h.rootPage[mine] + PAGE <= s.h.rootPage[r]
    {
      assert RootPageOk(s.h.rootPage, s.use, r) && RootPageOk(s.h.rootPage, s.use, mine);
      PagesApart(s.h.rootPage[r], s.h.rootPage[mine]);
    }
  }

  /** A root without a page below a used pageref is not empty: all of it is used. */
  lemma RootInUse(h: Heap, slot: Slot, r: nat)
    requires |h.rootPage| == ROOTS && RootsOk(h.used, h.rootPage)
    requires slot < NSLOTS && slot in h.used && r < slot / PER_ROOT && h.rootPage[r] == 0
    ensures |InUse(h.used, r)| != 0
  {
    var y := PER_ROOT * r;
    assert Filled(h.used, h.rootPage, slot, y);
    assert y in InUse(h.used, r);
  }

  // ---- A run in which that assertion fails.

  predicate NoFailure(steps: seq<Step>) {
    forall i :: 0 <= i < |steps| && (steps[i].GetPage? || steps[i].GetRefPage?) ==> steps[i].va != 0
  }

  /** k calls have a heap page and a pageref and are asking for a page for pagerefs. */
  ghost predicate Crowded(s: State, k: nat, sz: nat) {
    && s.h == Boot().h.(used := Upto(k)) && s.free == map[] && s.live == map[] && s.big == map[]
    && (forall t: Tid :: t in s.calls <==> t < k)
    && (forall p :: p in s.use ==> p <= PAGE * k)
    && (k > 0 ==> s.calls[k - 1] == WantRefPage(sz, PAGE * k, k - 1))
  }

  lemma Extend(run: seq<State>, steps: seq<Step>, step: Step) returns (run': seq<State>, steps': seq<Step>)
    requires IsRun(run, steps) && NoFailure(steps) && Enabled(run[|steps|], step)
    requires step.GetPage? || step.GetRefPage? ==> step.va != 0
    ensures IsRun(run', steps') && NoFailure(steps') && Inv(run[|steps|]) && Defined(run[|steps|], step)
    ensures run' == run + [Apply(run[|steps|], step)] && steps' == steps + [step]
  {
    RunInv(run, steps, |steps|);
    KeepStep(run[|steps|], step);
    run', steps' := run + [Apply(run[|steps|], step)], steps + [step];
  }

  /** One more call: it finds no page with room, gets a page of its own, and the first unused
      pageref, whose root has no page. */
  lemma CrowdAsks(s: State, k: nat, sz: nat)
    requires Crowded(s, k, sz) && k < NSLOTS && sz < LARGEST
    ensures Enabled(s, Malloc(k, sz)) && Defined(s, Malloc(k, sz))
    ensures var s1 := Apply(s, Malloc(k, sz));
            && s1 == Calling(s, k, WantPage(sz))
            && Enabled(s1, GetPage(k, PAGE * (k + 1))) && Defined(s1, GetPage(k, PAGE * (k + 1)))
  {
    Bits.MultipleMod(k + 1, PAGE);
    assert s.h.sizebases[TypeFor(sz)] == [];
  }

  lemma CrowdMore(s: State, s2: State, k: nat, sz: nat)
    requires Crowded(s, k, sz) && k < NSLOTS && sz < LARGEST
    requires s2 == Calling(s.(use := s.use[PAGE * (k + 1) := CallPage(k)]), k, HavePage(sz, PAGE * (k + 1)))
    ensures Enabled(s2, GetRef(k, k)) && Defined(s2, GetRef(k, k)) && Crowded(AfterRef(s2, k, k), k + 1, sz)
  {
    Bits.MultipleMod(k + 1, PAGE);
    var root := k / PER_ROOT;
    assert s2.h.used + {k} == Upto(k + 1) && s2.h.rootPage[root] == 0;
    var s3 := Calling(s2.(h := s2.h.(used := Upto(k + 1))), k, WantRefPage(sz, PAGE * (k + 1), k));
    CrowdGrown(s, s3, k, sz);
    assert AfterRef(s2, k, k) == s3;
  }

  lemma CrowdGrown(s: State, s3: State, k: nat, sz: nat)
    requires Crowded(s, k, sz)
    requires s3.h == s.h.(used := Upto(k + 1)) && s3.free == s.free && s3.live == s.live && s3.big == s.big
    requires forall t: Tid :: t in s3.calls <==> t in s.calls || t == k
    requires k in s3.calls && s3.calls[k] == WantRefPage(sz, PAGE * (k + 1), k)
    requires forall p :: p in s3.use ==> p in s.use || p == PAGE * (k + 1)
    ensures Crowded(s3, k + 1, sz)
  {
  }

  lemma {:induction false} CrowdedRun(k: nat, sz: nat) returns (run: seq<State>, steps: seq<Step>)
    requires k <= NSLOTS && sz < LARGEST
    ensures IsRun(run, steps) && NoFailure(steps) && Crowded(run[|steps|], k, sz)
  {
    if k == 0 {
      run, steps := [Boot()], [];
    } else {
      run, steps := CrowdedRun(k - 1, sz);
      run, steps := CrowdOne(run, steps, k - 1, sz);
    }
  }

  lemma CrowdOne(run: seq<State>, steps: seq<Step>, k: nat, sz: nat) returns (run': seq<State>, steps': seq<Step>)
    requires IsRun(run, steps) && NoFailure(steps) && Crowded(run[|steps|], k, sz) && k < NSLOTS && sz < LARGEST
    ensures IsRun(run', steps') && NoFailure(steps') && Crowded(run'[|steps'|], k + 1, sz)
    ensures run'[|steps'|].hollow == run[|steps|].hollow && steps <= steps'
  {
    var s := run[|steps|];
    run', steps' := CrowdTwo(run, steps, k, sz);
    var s2 := run'[|steps'|];
    CrowdMore(s, s2, k, sz);
    SizesSame(s2, GetRef(k, k));
    run', steps' := Extend(run', steps', GetRef(k, k));
  }

  /** Its first two steps. */
  lemma CrowdTwo(run: seq<State>, steps: seq<Step>, k: nat, sz: nat) returns (run': seq<State>, steps': seq<Step>)
    requires IsRun(run, steps) && NoFailure(steps) && Crowded(run[|steps|], k, sz) && k < NSLOTS && sz < LARGEST
    ensures IsRun(run', steps') && NoFailure(steps') && steps <= steps'
    ensures var s := run[|steps|];
            run'[|steps'|] == Calling(s.(use := s.use[PAGE * (k + 1) := CallPage(k)]), k, HavePage(sz, PAGE * (k + 1)))
  {
    var s := run[|steps|];
    CrowdAsks(s, k, sz);
    run', steps' := Extend(run, steps, Malloc(k, sz));
    run', steps' := Extend(run', steps', GetPage(k, PAGE * (k + 1)));
    var page := PAGE * (k + 1);
    assert s.calls[k := WantPage(sz)][k := HavePage(sz, page)] == s.calls[k := HavePage(sz, page)];
  }

  /** The last of the crowd gets its page for pagerefs, on the second root, and with it a
      block. */
  lemma CrowdGets(s: State, t: Tid, sz: nat, va: nat)
    requires t == PER_ROOT && Crowded(s, t + 1, sz) && va == PAGE * (t + 2)
    ensures Enabled(s, GetRefPage(t, va)) && Defined(s, GetRefPage(t, va))
    ensures var s1 := Apply(s, GetRefPage(t, va));
            s1.h == s.h && t in s1.calls && s1.calls[t] == HaveRefPage(sz, PAGE * (t + 1), t, va)
  {
  }

  lemma CrowdServed(s: State, t: Tid, sz: nat, va: nat)
    requires t == PER_ROOT && sz < LARGEST && va > 0 && s.h == Boot().h.(used := Upto(t + 1))
    requires t in s.calls && s.calls[t] == HaveRefPage(sz, PAGE * (t + 1), t, va)
    ensures Enabled(s, SetRefPage(t)) && Defined(s, SetRefPage(t)) && OneHeapPage(AfterRefPage(s, t), t)
  {
    var h := s.h.(rootPage := s.h.rootPage[t / PER_ROOT := va]);
    ServedPage(s.(h := h, use := s.use[va := RefPage(t / PER_ROOT)]), t, sz, PAGE * (t + 1));
  }

  /** The heap is one page whose pageref is the first on the second root; the first root has no
      page and is full. */
  ghost predicate OneHeapPage(s: State, slot: Slot) {
    && slot == PER_ROOT && s.h.used == Upto(slot + 1) && |s.h.rootPage| == ROOTS && s.h.rootPage[0] == 0 && slot !in s.calls
    && s.h.allbase == [slot] && slot in s.h.refs
    && BlockType(s.h.refs[slot]) < NSIZES && s.h.refs[slot].nfree + 1 == Count(BlockType(s.h.refs[slot]))
  }

  lemma ServedPage(base: State, t: Tid, sz: nat, page: nat)
    requires t == PER_ROOT && base.h.used == Upto(t + 1) && base.h.allbase == [] && |base.h.sizebases| == NSIZES
    requires |base.h.rootPage| == ROOTS && base.h.rootPage[0] == 0 && sz < LARGEST && page % PAGE == 0 && page > 0
    ensures OneHeapPage(Put(base, t, sz, page, t), t)
  {
    InstalledCanPop(base, t, TypeFor(sz), page, t);
  }

  /** Without any failure of the page allocator, freepageref passes a root that has no page and
      256 pagerefs in use, whatever the size that is allocated. */
  lemma FreepagerefAssertionFails(sz: nat) returns (run: seq<State>, steps: seq<Step>, k: nat, slot: Slot)
    requires sz < LARGEST
    ensures IsRun(run, steps) && NoFailure(steps) && k < |steps| && steps[k].Free?
    ensures slot in run[k].h.allbase && slot !in run[k + 1].h.allbase
    ensures slot < NSLOTS && |run[k].h.rootPage| == ROOTS && !FreepagerefAsserts(run[k].h.used, run[k].h.rootPage, slot)
    ensures run[k].h.rootPage[0] == 0 && |InUse(run[k].h.used, 0)| == PER_ROOT
  {
    slot := PER_ROOT;
    run, steps := CrowdedRun(slot + 1, sz);
    var va := PAGE * (slot + 2);
    CrowdGets(run[|steps|], slot, sz, va);
    run, steps := Extend(run, steps, GetRefPage(slot, va));
    CrowdServed(run[|steps|], slot, sz, va);
    run, steps := Extend(run, steps, SetRefPage(slot));
    k := |steps|;
    RunInv(run, steps, k);
    var ptr := LastFreed(run[k], slot);
    run, steps := Extend(run, steps, Free(slot, ptr));
    FirstRootFull(run[k], slot);
  }

  lemma FirstRootFull(s: State, slot: Slot)
    requires OneHeapPage(s, slot)
    ensures |InUse(s.h.used, 0)| == PER_ROOT && !FreepagerefAsserts(s.h.used, s.h.rootPage, slot)
  {
    forall x: Slot ensures x in InUse(s.h.used, 0) <==> x in Upto(slot) { FirstRoot(x); }
    assert InUse(s.h.used, 0) == Upto(slot);
  }

  lemma FirstRoot(x: nat)
    ensures x / PER_ROOT == 0 <==> x < PER_ROOT
  {
  }

  /** Freeing the one live block takes the page off the lists. */
  lemma LastFreed(s: State, slot: Slot) returns (ptr: nat)
    requires Inv(s) && OneHeapPage(s, slot)
    ensures var step := Free(slot, ptr);
            Enabled(s, step) && Defined(s, step) && slot !in Apply(s, step).h.allbase
  {
    assert SlotFine(s, {}, slot);
    var i :| i in s.live[slot];
    ptr := Block(s.h.refs[slot], i);
    assert LiveAt(s, slot, i, ptr);
    FreeDispatch(s, ptr);
    LivePlace(s, slot, i, ptr);
    EmptyLists(s, slot, slot, ptr);
  }

  // ---- A run in which a multi-page request brings no page.

  /** At 2^32 - 4095 the number of pages wraps to none. */
  lemma RoundedFails()
    ensures Rounded(Bits.W - 4095) == 0
  {
  }

  /** kmalloc returns the address of a page, and nothing behind it, for that size; the next
      subpage allocation gets the page, and has a live block where the first client believes its
      own memory to be. */
  lemma HollowOverlaps(t: Tid, sz: nat) returns (run: seq<State>, steps: seq<Step>, k: nat, i: nat, p: nat)
    requires sz < LARGEST
    ensures IsRun(run, steps) && k < |run| && steps != [] && steps[0] == BigMalloc(t, Bits.W - 4095, PAGE)
    ensures PAGE in run[k].hollow && run[k].hollow[PAGE] == Bits.W - 4095
    ensures LiveAt(run[k], 0, i, p) && PAGE <= p < PAGE + run[k].hollow[PAGE]
  {
    run, steps := HollowCrowd(t, sz);
    FirstServed(run[|steps|], sz);
    run, steps := Extend(run, steps, GetRefPage(0, 2 * PAGE));
    SetRefPageSizes(run[|steps|], 0);
    run, steps := Extend(run, steps, SetRefPage(0));
    k := |steps|;
    RunInv(run, steps, k);
    i, p := SomeLive(run[k], 0);
  }

  /** That request, and a caller behind it. */
  lemma HollowCrowd(t: Tid, sz: nat) returns (run: seq<State>, steps: seq<Step>)
    requires sz < LARGEST
    ensures IsRun(run, steps) && NoFailure(steps) && Crowded(run[|steps|], 1, sz)
    ensures steps != [] && steps[0] == BigMalloc(t, Bits.W - 4095, PAGE) && run[|steps|].hollow == map[PAGE := Bits.W - 4095]
  {
    var first := BigMalloc(t, Bits.W - 4095, PAGE);
    run, steps := [Boot()], [];
    HollowStart(t);
    run, steps := Extend(run, steps, first);
    run, steps := CrowdOneFrom(run, steps, first, sz);
  }

  lemma HollowStart(t: Tid)
    ensures var step := BigMalloc(t, Bits.W - 4095, PAGE);
            && Enabled(Boot(), step) && Defined(Boot(), step)
            && Apply(Boot(), step) == Boot().(hollow := map[PAGE := Bits.W - 4095])
  {
    RoundedFails();
  }

  /** The first caller behind that request. */
  lemma CrowdOneFrom(run: seq<State>, steps: seq<Step>, first: Step, sz: nat) returns (run': seq<State>, steps': seq<Step>)
    requires IsRun(run, steps) && NoFailure(steps) && steps == [first] && sz < LARGEST
    requires run[1].h == Boot().h && run[1] == Boot().(hollow := run[1].hollow)
    ensures IsRun(run', steps') && NoFailure(steps') && Crowded(run'[|steps'|], 1, sz) && steps' != [] && steps'[0] == first
    ensures run'[|steps'|].hollow == run[1].hollow
  {
    run', steps' := CrowdOne(run, steps, 0, sz);
  }

  lemma FirstServed(s: State, sz: nat)
    requires Crowded(s, 1, sz) && sz < LARGEST
    ensures Enabled(s, GetRefPage(0, 2 * PAGE)) && Defined(s, GetRefPage(0, 2 * PAGE))
    ensures var s1 := Apply(s, GetRefPage(0, 2 * PAGE));
            && s1.hollow == s.hollow && Enabled(s1, SetRefPage(0)) && Defined(s1, SetRefPage(0))
            && var s2 := AfterRefPage(s1, 0);
            0 in s2.h.allbase && 0 in s2.h.refs && PageAddr(s2.h.refs[0]) == PAGE
  {
    var s1 := Apply(s, GetRefPage(0, 2 * PAGE));
    var base := s1.(h := s1.h.(rootPage := s1.h.rootPage[0 := 2 * PAGE]), use := s1.use[2 * PAGE := RefPage(0)]);
    InstalledCanPop(base, 0, TypeFor(sz), PAGE, 0);
    assert AfterRefPage(s1, 0) == Put(base, 0, sz, PAGE, 0);
  }

  lemma SomeLive(s: State, slot: Slot) returns (i: nat, p: nat)
    requires Inv(s) && slot in s.h.allbase
    ensures LiveAt(s, slot, i, p) && slot in s.h.refs && PageAddr(s.h.refs[slot]) <= p < PageAddr(s.h.refs[slot]) + PAGE
  {
    assert SlotFine(s, {}, slot);
    i :| i in s.live[slot];
    p := Block(s.h.refs[slot], i);
    LivePlace(s, slot, i, p);
  }
}
