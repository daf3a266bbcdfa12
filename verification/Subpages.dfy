/** The sections of kmalloc.c under kmalloc_spinlock, as they are written: loops over the page
    lists, the free list built and filled in memory.  Each is proved to be the step of the
    machine in module Kmalloc that stands for it. */
module Subpages {

  import opened Collections
  import opened Kmalloc

  /** blocktype. */
  method FindBlockType(sz: nat) returns (bt: nat)
    requires sz <= LARGEST
    ensures bt == TypeFor(sz)
  {
    bt := 0;
    while sz > SIZES[bt]
      invariant 0 <= bt < NSIZES && forall i :: 0 <= i < bt ==> Size(i) < sz
      decreases NSIZES - bt
    {
      assert bt < 7;
      bt := bt + 1;
    }
    assert forall i :: 0 <= i < TypeFor(sz) ==> Size(i) < sz;
  }

  /** How subpage_kfree ends: the pointer is on no heap page, or inside a block; the page is to be
      given back to free_kpages, or not. */
  datatype Outcome = NotMine | Panic | Emptied(page: nat) | Done

  class Allocator {
    var ram: Ram
    var refs: map<Slot, Pageref>
    var sizebases: seq<seq<Slot>>
    var allbase: seq<Slot>
    var used: set<Slot>
    var rootPage: seq<nat>

    constructor ()
      ensures Val() == Boot().h
    {
      ram, refs, sizebases, allbase, used, rootPage := map[], map[], seq(NSIZES, _ => []), [], {}, seq(ROOTS, _ => 0);
    }

    ghost function Val(): Heap
      reads this
    {
      Heap(ram, refs, sizebases, allbase, used, rootPage)
    }

    /** doalloc. */
    method Pop(slot: Slot) returns (ptr: nat)
      requires slot in refs && CanPop(ram, refs[slot])
      modifies `refs
      ensures Val() == Kmalloc.Pop(old(Val()), slot) && ptr == First(old(refs[slot]))
    {
      var pr := refs[slot];
      ptr := PageAddr(pr) + pr.freelistOffset;
      var next := Get(ram, ptr);
      pr := pr.(nfree := pr.nfree - 1);
      if next != 0 {
        pr := pr.(freelistOffset := next - PageAddr(pr));
      } else {
        pr := pr.(freelistOffset := INVALID_OFFSET);
      }
      refs := refs[slot := pr];
    }

    /** The first section of subpage_kmalloc: a block from a page that has one, or 0. */
    method TryMalloc(sz: nat) returns (ptr: nat)
      requires sz <= LARGEST && |sizebases| == NSIZES
      requires forall slot :: slot in sizebases[TypeFor(sz)] ==> slot in refs && (refs[slot].nfree > 0 ==> CanPop(ram, refs[slot]))
      modifies `refs
      ensures var found := FindRoom(old(refs), sizebases[TypeFor(sz)]);
              if found.None? then ptr == 0 && Val() == old(Val())
              else found.value in old(refs) && CanPop(ram, old(refs)[found.value])
                   && ptr == First(old(refs)[found.value]) && Val() == Kmalloc.Pop(old(Val()), found.value)
    {
      var bt := FindBlockType(sz);
      var list := sizebases[bt];
      var i := 0;
      while i < |list| && refs[list[i]].nfree == 0
        invariant 0 <= i <= |list| && FindRoom(refs, list[i..]) == FindRoom(refs, list)
      {
        assert list[i..][1..] == list[i + 1..];
        i := i + 1;
      }
      if i == |list| { return 0; }
      ptr := Pop(list[i]);
    }

    /** The loop that threads the free list of a fresh page. */
    method ThreadPage(page: nat, bt: nat) returns (last: nat)
      requires bt < NSIZES
      modifies `ram
      ensures ram == Thread(old(ram), page, bt, Count(bt) - 1) && last == page + Offset(bt, Count(bt) - 1)
    {
      var was := ram;
      OffsetFacts(bt, 0, 0);
      var nfree := PAGE / SIZES[bt];
      ram := ram[page := 0];
      last := page;
      for i := 1 to nfree
        invariant ram == Thread(was, page, bt, i - 1) && last == page + Offset(bt, i - 1)
      {
        var here := last + SIZES[bt];
        ram := ram[here := last];
        last := here;
      }
    }

    /** Setting up a page for a pageref and putting it on both lists. */
    method SetUp(page: nat, bt: nat, slot: Slot)
      requires bt < NSIZES && |sizebases| == NSIZES
      modifies `ram, `refs, `sizebases, `allbase
      ensures Val() == Install(old(Val()), page, bt, slot)
    {
      OffsetFacts(bt, 0, 0);
      var last := ThreadPage(page, bt);
      refs := refs[slot := Pageref(page + bt, last - page, PAGE / SIZES[bt])];
      sizebases := sizebases[bt := [slot] + sizebases[bt]];
      allbase := [slot] + allbase;
    }

    /** fill_deadbeef. */
    method FillDeadbeef(a: nat, n: nat)
      modifies `ram
      ensures ram == Fill(old(ram), a, n)
    {
      for i := 0 to n
        invariant ram == Fill(old(ram), a, i)
      {
        ram := ram[a + 4 * i := DEADBEEF];
      }
    }

    /** The search over allbase. */
    method Locate(ptr: nat) returns (found: Option<Slot>)
      requires forall slot :: slot in allbase ==> slot in refs
      ensures found == FindPage(refs, allbase, ptr)
    {
      var i := 0;
      while i < |allbase|
        invariant 0 <= i <= |allbase| && FindPage(refs, allbase[i..], ptr) == FindPage(refs, allbase, ptr)
      {
        var pr := refs[allbase[i]];
        if PageAddr(pr) <= ptr < PageAddr(pr) + PAGE { return Some(allbase[i]); }
        assert allbase[i..][1..] == allbase[i + 1..];
        i := i + 1;
      }
      found := None;
    }

    /** subpage_kfree. */
    method Kfree(ptr: nat) returns (outcome: Outcome)
      requires |sizebases| == NSIZES && forall slot :: slot in allbase ==> slot in refs && BlockType(refs[slot]) < NSIZES
      modifies `ram, `refs, `sizebases, `allbase, `used
      ensures var h, found := old(Val()), FindPage(old(refs), old(allbase), ptr);
              if found.None? then outcome == NotMine && Val() == h
              else var slot := found.value;
                slot in h.refs && BlockType(h.refs[slot]) < NSIZES && ptr >= PageAddr(h.refs[slot]) &&
                var pr := h.refs[slot];
                if (ptr - PageAddr(pr)) % Size(BlockType(pr)) != 0 then outcome == Panic && Val() == h
                else if pr.nfree + 1 == PAGE / Size(BlockType(pr)) then
                  outcome == Emptied(PageAddr(pr)) && Val() == Retire(Push(h, slot, ptr), slot)
                else outcome == Done && Val() == Push(h, slot, ptr)
    {
      FindPageFound(refs, allbase, ptr);
      var found := Locate(ptr);
      if found == None { return NotMine; }
      var slot := found.value;
      var pr := refs[slot];
      if (ptr - PageAddr(pr)) % SIZES[BlockType(pr)] != 0 { return Panic; }
      PushBlock(slot, ptr);
      if pr.nfree + 1 == PAGE / SIZES[BlockType(pr)] {
        RetireSlot(slot);
        outcome := Emptied(PageAddr(pr));
      } else {
        outcome := Done;
      }
    }

    /** Fills the block and links it in front of its page's free list. */
    method PushBlock(slot: Slot, ptr: nat)
      requires slot in refs && BlockType(refs[slot]) < NSIZES && ptr >= PageAddr(refs[slot])
      modifies `ram, `refs
      ensures Val() == Push(old(Val()), slot, ptr)
    {
      var pr := refs[slot];
      FillDeadbeef(ptr, SIZES[BlockType(pr)] / 4);
      if pr.freelistOffset == INVALID_OFFSET {
        ram := ram[ptr := 0];
      } else {
        ram := ram[ptr := PageAddr(pr) + pr.freelistOffset];
      }
      refs := refs[slot := pr.(freelistOffset := ptr - PageAddr(pr), nfree := pr.nfree + 1)];
    }

    /** remove_lists and freepageref. */
    method RetireSlot(slot: Slot)
      requires slot in refs && BlockType(refs[slot]) < NSIZES && |sizebases| == NSIZES
      modifies `refs, `sizebases, `allbase, `used
      ensures Val() == Retire(old(Val()), slot)
    {
      var bt := BlockType(refs[slot]);
      var list := Drop(sizebases[bt], slot);
      sizebases := sizebases[bt := list];
      allbase := Drop(allbase, slot);
      refs := refs - {slot};
      used := used - {slot};
    }

    /** remove_lists, on one list: unlinks the first occurrence. */
    method Drop(list: seq<Slot>, slot: Slot) returns (r: seq<Slot>)
      ensures r == Unlinked(list, slot)
    {
      var i := 0;
      assert list[0..] == list;
      ghost var all := Unlinked(list, slot);
      while i < |list|
        invariant 0 <= i <= |list| && list[..i] + Unlinked(list[i..], slot) == all
      {
        ghost var rest := Unlinked(list[i + 1..], slot);
        assert list[i..][1..] == list[i + 1..];
        if list[i] == slot { return list[..i] + list[i + 1..]; }
        assert list[..i + 1] + rest == list[..i] + ([list[i]] + rest);
        i := i + 1;
      }
      r := list;
    }
  }

  /** Whenever a client may call kmalloc, the first section of subpage_kmalloc can run, and what
      it leaves is the heap after the machine's step; the pointer it returns is live then and was
      not before. */
  lemma TryMallocIsStep(s: State, t: Tid, sz: nat)
    requires Inv(s) && Enabled(s, Malloc(t, sz))
    ensures var list := s.h.sizebases[TypeFor(sz)];
            && Defined(s, Malloc(t, sz))
            && (forall slot :: slot in list ==> slot in s.h.refs && (s.h.refs[slot].nfree > 0 ==> CanPop(s.h.ram, s.h.refs[slot])))
            && var s', found := Apply(s, Malloc(t, sz)), FindRoom(s.h.refs, list);
            if found.None? then s'.h == s.h
            else found.value in s.h.refs && CanPop(s.h.ram, s.h.refs[found.value])
                 && var ptr := First(s.h.refs[found.value]);
                 s'.h == Kmalloc.Pop(s.h, found.value) && ptr != 0 && IsLive(s', ptr) && !IsLive(s, ptr)
  {
    KeepMalloc(s, t, sz);
    var list := s.h.sizebases[TypeFor(sz)];
    forall slot | slot in list
      ensures slot in s.h.refs && (s.h.refs[slot].nfree > 0 ==> CanPop(s.h.ram, s.h.refs[slot]))
    {
      assert SlotFine(s, {}, slot);
      if s.h.refs[slot].nfree > 0 { TakeSlot(s, slot, 0); }
    }
    FindRoomFound(s.h.refs, list);
    var found := FindRoom(s.h.refs, list);
    if found.Some? { TakenIsNew(s, found.value, sz); }
  }

  lemma TakenIsNew(s: State, slot: Slot, sz: nat)
    requires Inv(s) && slot in s.h.allbase && CanTake(s, slot)
    ensures var ptr := First(s.h.refs[slot]); ptr != 0 && IsLive(Take(s, slot, sz), ptr) && !IsLive(s, ptr)
  {
    assert SlotFine(s, {}, slot);
    var pr, free := s.h.refs[slot], s.free[slot];
    var ptr, i := First(pr), free[0];
    PopThreaded(s.h.ram, pr, free, s.live[slot]);
    assert i in free;
    assert LiveAt(Take(s, slot, sz), slot, i, ptr);
    FreeIsNotLive(s, slot, i, ptr);
  }

  lemma FreeIsNotLive(s: State, slot: Slot, i: nat, ptr: nat)
    requires Inv(s) && slot in s.h.allbase && SlotFits(s, slot) && i in s.free[slot] && ptr == Block(s.h.refs[slot], i)
    ensures !IsLive(s, ptr)
  {
    if IsLive(s, ptr) {
      var d: Slot, j: nat :| LiveAt(s, d, j, ptr);
      FreeDispatch(s, ptr);
      OffsetFacts(BlockType(s.h.refs[slot]), i, i);
      FindPageLive(s, slot, ptr);
      LivePlace(s, slot, j, ptr);
    }
  }

  /** Setting up the page a call has got and taking its first block leaves the heap after the
      machine's step. */
  lemma SetUpIsStep(s: State, t: Tid, sz: nat, page: nat, slot: Slot)
    requires sz < LARGEST && |s.h.sizebases| == NSIZES && page % PAGE == 0 && page > 0
    ensures var h := Install(s.h, page, TypeFor(sz), slot);
            CanPop(h.ram, h.refs[slot]) && Put(s, t, sz, page, slot).h == Kmalloc.Pop(h, slot)
  {
    InstalledCanPop(s, t, TypeFor(sz), page, slot);
  }

  /** Whenever a client may call kfree, subpage_kfree can run and does not panic, what it leaves is
      the heap after the machine's step, and it asks for the page to be given back exactly if the
      machine's call has that page to give back. */
  lemma KfreeIsStep(s: State, t: Tid, ptr: nat)
    requires Inv(s) && Enabled(s, Free(t, ptr))
    ensures |s.h.sizebases| == NSIZES && forall slot :: slot in s.h.allbase ==> slot in s.h.refs && BlockType(s.h.refs[slot]) < NSIZES
    ensures Defined(s, Free(t, ptr)) && AsKfree(s, Apply(s, Free(t, ptr)), t, ptr, FindPage(s.h.refs, s.h.allbase, ptr))
  {
    forall slot | slot in s.h.allbase ensures slot in s.h.refs && BlockType(s.h.refs[slot]) < NSIZES {
      assert SlotFine(s, {}, slot);
    }
    KeepFree(s, t, ptr);
    FreeDispatch(s, ptr);
    if IsLive(s, ptr) {
      var slot: Slot, i: nat :| LiveAt(s, slot, i, ptr);
      LiveAsKfree(s, t, slot, i, ptr);
    }
  }

  /** What Allocator.Kfree promises, of the machine's states. */
  ghost predicate AsKfree(s: State, s': State, t: Tid, ptr: nat, found: Option<Slot>) {
    if found.None? then s'.h == s.h && ptr in s.big
    else && CanFree(s, found.value, ptr)
         && var slot, pr := found.value, s.h.refs[found.value];
         && (ptr - PageAddr(pr)) % Size(BlockType(pr)) == 0
         && if pr.nfree + 1 == PAGE / Size(BlockType(pr))
            then s'.h == Retire(Push(s.h, slot, ptr), slot) && s'.calls == s.calls[t := GiveBack(PageAddr(pr))]
            else s'.h == Push(s.h, slot, ptr) && s'.calls == s.calls
  }

  lemma LiveAsKfree(s: State, t: Tid, slot: Slot, i: nat, ptr: nat)
    requires Inv(s) && slot in s.h.allbase && LiveAt(s, slot, i, ptr)
    ensures CanFree(s, slot, ptr) && AsKfree(s, Freed(s, t, slot, ptr), t, ptr, Some(slot))
  {
    assert SlotFine(s, {}, slot);
    LivePlace(s, slot, i, ptr);
  }
}
