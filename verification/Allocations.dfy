/** What each step of the allocator does to the blocks its clients have, and how a call of
    kmalloc or kfree ends, over every run of the machine in module Kmalloc. */
module Allocations {

  import opened Collections
  import opened Kmalloc

  /** The size block i of a pageref was asked for with, if the block is live. */
  function LiveSize(s: State, slot: Slot, i: nat): Option<nat> {
    if slot in s.live && i in s.live[slot] then Some(s.live[slot][i]) else None
  }

  /** Block i of slot has become live, asked for with sz; no other block has come or gone. */
  ghost predicate Gained(s: State, s': State, slot: Slot, i: nat, sz: nat) {
    && LiveSize(s, slot, i) == None && LiveSize(s', slot, i) == Some(sz)
    && OthersSame(s, s', slot, i)
  }

  /** Block i of slot has been live and is no more; no other block has come or gone. */
  ghost predicate Lost(s: State, s': State, slot: Slot, i: nat) {
    && LiveSize(s, slot, i).Some? && LiveSize(s', slot, i) == None
    && OthersSame(s, s', slot, i)
  }

  ghost predicate OthersSame(s: State, s': State, slot: Slot, i: nat) {
    forall d: Slot, j: nat {:trigger LiveSize(s', d, j)} :: d != slot || j != i ==> LiveSize(s', d, j) == LiveSize(s, d, j)
  }

  /** Where on a list the first page with a free block is. */
  ghost predicate FirstWithRoom(refs: map<Slot, Pageref>, list: seq<Slot>, n: nat) {
    && n < |list| && list[n] in refs && refs[list[n]].nfree > 0
    && forall m: nat :: m < n && list[m] in refs ==> refs[list[m]].nfree == 0
  }

  ghost predicate HasRoom(refs: map<Slot, Pageref>, list: seq<Slot>) {
    exists slot :: slot in list && slot in refs && refs[slot].nfree > 0
  }

  lemma {:induction false} FindRoomFirst(refs: map<Slot, Pageref>, list: seq<Slot>) returns (n: nat)
    requires HasRoom(refs, list)
    ensures FirstWithRoom(refs, list, n) && FindRoom(refs, list) == Some(list[n])
  {
    if list[0] in refs && refs[list[0]].nfree > 0 {
      n := 0;
    } else {
      var slot :| slot in list && slot in refs && refs[slot].nfree > 0;
      assert slot in list[1..];
      n := FindRoomFirst(refs, list[1..]);
      n := n + 1;
    }
  }

  /** What remains of the pageref a block was taken from. */
  ghost predicate OneTaken(s: State, s': State, slot: Slot, i: nat) {
    && slot in s.h.refs && slot in s'.h.refs && BlockType(s.h.refs[slot]) < NSIZES
    && s'.h.refs[slot].pab == s.h.refs[slot].pab && s'.h.refs[slot].nfree == s.h.refs[slot].nfree - 1
    && Block(s.h.refs[slot], i) == First(s.h.refs[slot])
    && (forall d: Slot :: d != slot ==> (d in s'.h.refs <==> d in s.h.refs) && (d in s.h.refs ==> s'.h.refs[d] == s.h.refs[d]))
  }

  /** A request for which a page of its size has a free block is served from the first such page
      on the list, at once and without touching memory; otherwise the call goes for a page. */
  lemma MallocTheorem(run: seq<State>, steps: seq<Step>, k: nat, t: Tid, sz: nat)
    requires IsRun(run, steps) && k < |steps| && steps[k] == Malloc(t, sz)
    ensures var s, s' := run[k], run[k + 1];
            && sz < LARGEST && |s.h.sizebases| == NSIZES
            && var list := s.h.sizebases[TypeFor(sz)];
            && s'.use == s.use && s'.h.ram == s.h.ram && s'.h.sizebases == s.h.sizebases && s'.h.allbase == s.h.allbase
            && (HasRoom(s.h.refs, list) ==>
                  && s'.calls == s.calls && t !in s'.calls
                  && exists n: nat, i: nat ::
                       FirstWithRoom(s.h.refs, list, n) && Gained(s, s', list[n], i, sz) && OneTaken(s, s', list[n], i))
            && (!HasRoom(s.h.refs, list) ==> s'.live == s.live && s'.h == s.h && s'.calls == s.calls[t := WantPage(sz)])
  {
    RunInv(run, steps, k);
    var s := run[k];
    var list := s.h.sizebases[TypeFor(sz)];
    if HasRoom(s.h.refs, list) {
      var n := FindRoomFirst(s.h.refs, list);
      assert SlotFine(s, {}, list[n]);
      Taking(s, list[n], sz);
    } else {
      FindRoomFound(s.h.refs, list);
    }
  }

  lemma Taking(s: State, slot: Slot, sz: nat)
    requires SlotFits(s, slot) && s.free[slot] != [] && CanTake(s, slot)
    ensures Gained(s, Take(s, slot, sz), slot, s.free[slot][0], sz) && OneTaken(s, Take(s, slot, sz), slot, s.free[slot][0])
  {
    assert s.free[slot][0] in s.free[slot];
  }

  // ---- A call on its way.

  /** The call of t is over: its page is the first of both lists, cut into blocks for sz bytes,
      and one block of it, the only one that is new, is the answer. */
  ghost predicate Served(s: State, s': State, t: Tid, sz: nat, page: nat, slot: Slot) {
    && sz < LARGEST && |s.h.sizebases| == NSIZES && s'.calls == s.calls - {t}
    && var bt := TypeFor(sz);
    && s'.h.sizebases == s.h.sizebases[bt := [slot] + s.h.sizebases[bt]] && s'.h.allbase == [slot] + s.h.allbase
    && slot in s'.h.refs && PageAddr(s'.h.refs[slot]) == page && BlockType(s'.h.refs[slot]) == bt
    && s'.h.refs[slot].nfree == Count(bt) - 1
    && page in s'.use && s'.use[page] == HeapPage(slot)
    && exists i: nat :: i < Count(bt) && Gained(s, s', slot, i, sz)
  }

  /** The call of t goes on as c, and no block has come or gone. */
  ghost predicate GoesOn(s: State, s': State, t: Tid, c: Call) {
    s'.calls == s.calls[t := c] && s'.live == s.live && s'.h.refs == s.h.refs && s'.h.allbase == s.h.allbase && s'.h.ram == s.h.ram
  }

  /** The call of t is over and brought nothing. */
  ghost predicate GivesUp(s: State, s': State, t: Tid) {
    s'.calls == s.calls - {t} && s'.live == s.live && s'.h == s.h
  }

  lemma Putting(s: State, s1: State, t: Tid, sz: nat, page: nat, slot: Slot)
    requires sz < LARGEST && |s.h.sizebases| == NSIZES && page % PAGE == 0 && page > 0 && slot !in s.live
    requires s1.calls == s.calls && s1.live == s.live && s1.h.sizebases == s.h.sizebases && s1.h.allbase == s.h.allbase
    ensures Served(s, Put(s1, t, sz, page, slot), t, sz, page, slot)
  {
    var bt := TypeFor(sz);
    InstalledCanPop(s1, t, bt, page, slot);
    var s2 := Installed(s1, t, bt, page, slot);
    var s', i := Put(s1, t, sz, page, slot), s2.free[slot][0];
    assert s' == Take(s2, slot, sz);
    assert i in s2.free[slot];
    assert Gained(s, s', slot, i, sz);
  }

  /** Getting a pageref: at the first unused one the call ends with a block if the pageref's root
      has its page, and otherwise goes for that page.  With none left it gives its page back. */
  lemma PagerefStepTheorem(run: seq<State>, steps: seq<Step>, k: nat, t: Tid)
    requires IsRun(run, steps) && k < |steps|
    ensures var s, s' := run[k], run[k + 1];
            && (forall slot: Slot :: steps[k] == GetRef(t, slot) ==>
                  && t in s.calls && s.calls[t].HavePage? && slot < NSLOTS && |s.h.rootPage| == ROOTS
                  && var c := s.calls[t];
                  && (s.h.rootPage[slot / PER_ROOT] != 0 ==> Served(s, s', t, c.sz, c.page, slot))
                  && (s.h.rootPage[slot / PER_ROOT] == 0 ==> GoesOn(s, s', t, WantRefPage(c.sz, c.page, slot)))
                  && s'.h.used == s.h.used + {slot} && s'.h.rootPage == s.h.rootPage)
            && (steps[k] == NoRef(t) ==>
                  t in s.calls && s.calls[t].HavePage? && GoesOn(s, s', t, GiveBack(s.calls[t].page)) && s'.use == s.use)
  {
    RunInv(run, steps, k);
    var s := run[k];
    if steps[k].GetRef? && steps[k].t == t {
      var slot := steps[k].slot;
      assert CallOk(s, t);
      HeapSlotsUsed(s, slot);
      Putting(s, s.(h := s.h.(used := s.h.used + {slot})), t, s.calls[t].sz, s.calls[t].page, slot);
    }
  }

  /** The answers of alloc_kpages: no page ends the call with nothing; a heap page is the
      call's; a page for a root is kept until the lock is held again. */
  lemma PageStepTheorem(run: seq<State>, steps: seq<Step>, k: nat, t: Tid, va: nat)
    requires IsRun(run, steps) && k < |steps|
    ensures var s, s' := run[k], run[k + 1];
            && (steps[k] == GetPage(t, va) ==>
                  && t in s.calls && s.calls[t].WantPage?
                  && (va == 0 ==> GivesUp(s, s', t) && s'.use == s.use)
                  && (va != 0 ==> GoesOn(s, s', t, HavePage(s.calls[t].sz, va)) && va !in s.use && s'.use == s.use[va := CallPage(t)]))
            && (steps[k] == GetRefPage(t, va) ==>
                  && t in s.calls && s.calls[t].WantRefPage?
                  && GoesOn(s, s', t, HaveRefPage(s.calls[t].sz, s.calls[t].page, s.calls[t].slot, va))
                  && (va == 0 ==> s'.use == s.use) && (va != 0 ==> va !in s.use && s'.use == s.use[va := CallRefPage(t)]))
  {
    RunInv(run, steps, k);
  }

  /** Back under the lock with the answer for a root's page: the call ends with a block unless
      neither it nor anybody else has got that page, and a second page for the root is given back
      before. */
  lemma RootStepTheorem(run: seq<State>, steps: seq<Step>, k: nat, t: Tid)
    requires IsRun(run, steps) && k < |steps| && steps[k] == SetRefPage(t)
    ensures var s, s' := run[k], run[k + 1];
            && t in s.calls && s.calls[t].HaveRefPage? && s.calls[t].slot < NSLOTS && |s.h.rootPage| == ROOTS
            && var c := s.calls[t];
            && var r := c.slot / PER_ROOT;
            && (c.va == 0 && s.h.rootPage[r] == 0 ==> GoesOn(s, s', t, GiveBack(c.page)) && s'.h.rootPage == s.h.rootPage)
            && (c.va != 0 && s.h.rootPage[r] != 0 ==>
                  GoesOn(s, s', t, ExtraRefPage(c.sz, c.page, c.slot, c.va)) && s'.h.rootPage == s.h.rootPage)
            && (c.va == 0 && s.h.rootPage[r] != 0 ==> Served(s, s', t, c.sz, c.page, c.slot) && s'.h.rootPage == s.h.rootPage)
            && (c.va != 0 && s.h.rootPage[r] == 0 ==>
                  Served(s, s', t, c.sz, c.page, c.slot) && s'.h.rootPage == s.h.rootPage[r := c.va])
  {
    RunInv(run, steps, k);
    var s := run[k];
    assert CallOk(s, t);
    var c := s.calls[t];
    var r := c.slot / PER_ROOT;
    Putting(s, s, t, c.sz, c.page, c.slot);
    Putting(s, s.(h := s.h.(rootPage := s.h.rootPage[r := c.va]), use := s.use[c.va := RefPage(r)]), t, c.sz, c.page, c.slot);
  }

  /** free_kpages: of the page that came too late, and then the block is there; of the page of a
      call that is over. */
  lemma ReturnStepTheorem(run: seq<State>, steps: seq<Step>, k: nat, t: Tid)
    requires IsRun(run, steps) && k < |steps|
    ensures var s, s' := run[k], run[k + 1];
            && (steps[k] == DropExtra(t) ==>
                  && t in s.calls && s.calls[t].ExtraRefPage?
                  && var c := s.calls[t];
                  Served(s, s', t, c.sz, c.page, c.slot) && c.va in s.use && c.va !in s'.use && s'.h.rootPage == s.h.rootPage)
            && (steps[k] == FreePage(t) ==>
                  && t in s.calls && s.calls[t].GiveBack?
                  && GivesUp(s, s', t) && s.calls[t].page in s.use && s'.use == s.use - {s.calls[t].page})
  {
    RunInv(run, steps, k);
    var s := run[k];
    if steps[k] == DropExtra(t) {
      assert CallOk(s, t);
      var c := s.calls[t];
      Putting(s, s.(use := s.use - {c.va}), t, c.sz, c.page, c.slot);
      ExtraIsNotThePage(s, t);
      DropUse(s, t);
    } else if steps[k] == FreePage(t) {
      assert CallOk(s, t);
    }
  }

  lemma ExtraIsNotThePage(s: State, t: Tid)
    requires CallOk(s, t) && s.calls[t].ExtraRefPage?
    ensures s.calls[t].page != s.calls[t].va
  {
  }

  lemma DropUse(s: State, t: Tid)
    requires Defined(s, DropExtra(t)) && s.calls[t].page != s.calls[t].va
    ensures s.calls[t].va !in Apply(s, DropExtra(t)).use && Apply(s, DropExtra(t)).h.rootPage == s.h.rootPage
  {
    var c := s.calls[t];
    InstalledCanPop(s.(use := s.use - {c.va}), t, TypeFor(c.sz), c.page, c.slot);
  }

  // ---- kfree.

  /** Freeing a live block ends that block and no other.  Unless it was the last of its page, the
      page has one more free block; if it was, the pageref is gone from the lists and unused, and
      the call has the page to give back.  All words of the block but its link are marked. */
  lemma FreeTheorem(run: seq<State>, steps: seq<Step>, k: nat, t: Tid, ptr: nat, slot: Slot, i: nat)
    requires IsRun(run, steps) && k < |steps| && steps[k] == Free(t, ptr) && LiveAt(run[k], slot, i, ptr)
    ensures var s, s' := run[k], run[k + 1];
            && Lost(s, s', slot, i) && s'.big == s.big
            && var pr := s.h.refs[slot];
            && (s.live[slot].Keys != {i} ==>
                  && s'.calls == s.calls && s'.use == s.use && s'.h.used == s.h.used && s'.h.allbase == s.h.allbase
                  && s'.h.sizebases == s.h.sizebases && slot in s'.h.refs
                  && s'.h.refs[slot].nfree == pr.nfree + 1 && s'.h.refs[slot].pab == pr.pab && First(s'.h.refs[slot]) == ptr)
            && (s.live[slot].Keys == {i} ==>
                  && s'.calls == s.calls[t := GiveBack(PageAddr(pr))] && s'.use == s.use[PageAddr(pr) := CallPage(t)]
                  && s'.h.used == s.h.used - {slot} && slot !in s'.h.refs
                  && (forall d :: d in s'.h.allbase <==> d in s.h.allbase && d != slot))
            && (forall d: Slot :: d != slot && d in s.h.refs ==> d in s'.h.refs && s'.h.refs[d] == s.h.refs[d])
            && (forall w: nat :: 1 <= w < Size(BlockType(pr)) / 4 ==> Get(s'.h.ram, ptr + 4 * w) == DEADBEEF)
  {
    RunInv(run, steps, k);
    var s := run[k];
    FreeDispatch(s, ptr);
    assert SlotFine(s, {}, slot);
    LivePlace(s, slot, i, ptr);
    IsLast(s, slot, i);
    var pr := s.h.refs[slot];
    assert run[k + 1] == Freed(s, t, slot, ptr);
    if s.live[slot].Keys == {i} {
      UnlinkedMembers(s.h.allbase, slot);
      LosesPage(s, t, slot, i, ptr);
    } else {
      LosesBlock(s, slot, i, ptr);
    }
    BlockMarked(s, t, slot, ptr);
  }

  lemma BlockMarked(s: State, t: Tid, slot: Slot, ptr: nat)
    requires CanFree(s, slot, ptr)
    ensures forall w: nat :: 1 <= w < Size(BlockType(s.h.refs[slot])) / 4 ==>
              Get(Freed(s, t, slot, ptr).h.ram, ptr + 4 * w) == DEADBEEF
  {
    var n := Size(BlockType(s.h.refs[slot])) / 4;
    forall w: nat | 1 <= w < n ensures Get(Freed(s, t, slot, ptr).h.ram, ptr + 4 * w) == DEADBEEF {
      Marked(s.h.ram, ptr, n, w);
    }
  }

  lemma {:induction false} Marked(ram: Ram, a: nat, n: nat, w: nat)
    requires w < n
    ensures Get(Fill(ram, a, n), a + 4 * w) == DEADBEEF
  {
    if w < n - 1 { Marked(ram, a, n - 1, w); }
  }

  lemma IsLast(s: State, slot: Slot, i: nat)
    requires SlotFits(s, slot) && i in s.live[slot]
    ensures s.h.refs[slot].nfree + 1 == Count(BlockType(s.h.refs[slot])) <==> s.live[slot].Keys == {i}
  {
    var bt, free, live := BlockType(s.h.refs[slot]), s.free[slot], s.live[slot];
    if s.h.refs[slot].nfree + 1 == Count(bt) {
      LastBlock(s, slot, i);
    } else if live.Keys == {i} {
      PushPartitioned(bt, free, live, i);
      assert live - {i} == map[];
      AllFree(bt, [i] + free, live - {i});
    }
  }

  lemma LosesBlock(s: State, slot: Slot, i: nat, ptr: nat)
    requires CanFree(s, slot, ptr) && i in s.live[slot]
    requires (ptr - PageAddr(s.h.refs[slot])) / Size(BlockType(s.h.refs[slot])) == i
    ensures Lost(s, Returned(s, slot, ptr), slot, i)
  {
  }

  lemma LosesPage(s: State, t: Tid, slot: Slot, i: nat, ptr: nat)
    requires CanFree(s, slot, ptr) && s.live[slot].Keys == {i}
    ensures Lost(s, Emptied(s, t, slot, ptr), slot, i)
  {
    var s' := Emptied(s, t, slot, ptr);
    forall d: Slot, j: nat | d != slot || j != i ensures LiveSize(s', d, j) == LiveSize(s, d, j) {
      assert j in s.live[slot] ==> j in s.live[slot].Keys;
    }
    assert i in s.live[slot].Keys;
  }

  /** Freeing a multi-page allocation gives back its pages and ends it alone. */
  lemma BigFreeTheorem(run: seq<State>, steps: seq<Step>, k: nat, t: Tid, ptr: nat)
    requires IsRun(run, steps) && k < |steps| && steps[k] == Free(t, ptr) && ptr in run[k].big
    ensures var s, s' := run[k], run[k + 1];
            && s'.big == s.big - {ptr} && s'.live == s.live && s'.h == s.h && s'.calls == s.calls
            && forall p :: p in s'.use <==> p in s.use && !(ptr <= p < ptr + PAGE * s.big[ptr].pages && p % PAGE == 0)
  {
    RunInv(run, steps, k);
    FreeDispatch(run[k], ptr);
  }

  /** A multi-page request that is refused changes nothing; one that is not takes exactly its
      pages, and no block comes or goes.  A client's write changes one word. */
  lemma OtherStepTheorem(run: seq<State>, steps: seq<Step>, k: nat)
    requires IsRun(run, steps) && k < |steps|
    ensures var s, s' := run[k], run[k + 1];
            match steps[k]
            case BigMalloc(_, sz, va) =>
              && (va == 0 ==> s' == s) && s'.live == s.live && s'.h == s.h && s'.calls == s.calls
              && forall p :: p in s'.use <==> p in s.use || (va != 0 && va <= p < va + PAGE * Rounded(sz) && p % PAGE == 0)
            case ClientWrite(a, v) => s' == s.(h := s'.h) && s'.h == s.h.(ram := s'.h.ram) && s'.h.ram == s.h.ram[a := v]
            case _ => true
  {
    RunInv(run, steps, k);
  }

  // ---- Whole calls.

  predicate By(step: Step, t: Tid) {
    !step.ClientWrite? && step.t == t
  }

  /** How a call of kmalloc with a page to be got can end: with one new block of the size asked
      for, or with nothing, when alloc_kpages had no page or the page got has been given back. */
  ghost predicate Ends(s: State, s': State, step: Step, t: Tid, sz: nat) {
    || (exists slot: Slot, i: nat :: Gained(s, s', slot, i, sz))
    || (GivesUp(s, s', t) && (step == GetPage(t, 0) || step == FreePage(t)))
  }

  /** A step of another thread leaves a call where it is; its own moves it on, with the size it
      is for, or ends it. */
  ghost predicate Moves(s: State, s': State, step: Step, t: Tid)
    requires t in s.calls
  {
    var c := s.calls[t];
    if !By(step, t) then t in s'.calls && s'.calls[t] == c
    else if t in s'.calls then s'.live == s.live && !c.GiveBack? && (s'.calls[t].GiveBack? || s'.calls[t].sz == c.sz)
    else if c.GiveBack? then step == FreePage(t) && GivesUp(s, s', t)
    else Ends(s, s', step, t, c.sz)
  }

  lemma CallStep(run: seq<State>, steps: seq<Step>, k: nat, t: Tid)
    requires IsRun(run, steps) && k < |steps| && t in run[k].calls
    ensures Moves(run[k], run[k + 1], steps[k], t)
  {
    RunInv(run, steps, k);
    match steps[k]
    case GetRef(u, slot) => PagerefStepTheorem(run, steps, k, u); MovesByRef(run[k], run[k + 1], steps[k], slot, t);
    case NoRef(u) => PagerefStepTheorem(run, steps, k, u);
    case GetPage(u, va) => PageStepTheorem(run, steps, k, u, va);
    case GetRefPage(u, va) => PageStepTheorem(run, steps, k, u, va);
    case SetRefPage(u) => RootStepTheorem(run, steps, k, u); MovesByRef(run[k], run[k + 1], steps[k], run[k].calls[u].slot, t);
    case DropExtra(u) => ReturnStepTheorem(run, steps, k, u); MovesByRef(run[k], run[k + 1], steps[k], run[k].calls[u].slot, t);
    case FreePage(u) => ReturnStepTheorem(run, steps, k, u);
    case _ => OtherCalls(run[k], steps[k], t);
  }

  lemma MovesByRef(s: State, s': State, step: Step, slot: Slot, t: Tid)
    requires !step.ClientWrite? && step.t in s.calls && t in s.calls && HasPage(s.calls[step.t]) && !s.calls[step.t].GiveBack?
    requires var c := s.calls[step.t];
             || Served(s, s', step.t, c.sz, c.page, slot)
             || (exists c': Call :: GoesOn(s, s', step.t, c') && (c'.GiveBack? || c'.sz == c.sz))
    ensures Moves(s, s', step, t)
  {
  }

  lemma OtherCalls(s: State, step: Step, t: Tid)
    requires Defined(s, step) && Enabled(s, step) && t in s.calls
    requires step.Malloc? || step.Free? || step.BigMalloc? || step.ClientWrite?
    ensures !By(step, t) && t in Apply(s, step).calls && Apply(s, step).calls[t] == s.calls[t]
  {
  }

  /** From the call of kmalloc to its return, however the threads interleave: a request that is
      not served at once brings nothing until it returns, and then exactly one new block, for the
      size asked, or nothing if there was no page for it. */
  lemma {:induction false} KmallocCallTheorem(run: seq<State>, steps: seq<Step>, i: nat, j: nat, t: Tid, sz: nat)
    requires IsRun(run, steps) && i + 1 < j < |run| && steps[i] == Malloc(t, sz)
    requires t !in run[j].calls && forall m :: i < m < j ==> t in run[m].calls
    ensures By(steps[j - 1], t) && Ends(run[j - 1], run[j], steps[j - 1], t, sz)
    ensures forall m :: i <= m < j - 1 && By(steps[m], t) ==> run[m + 1].live == run[m].live
  {
    CallSize(run, steps, i, j - 1, t, sz);
    CallStep(run, steps, j - 1, t);
  }

  lemma {:induction false} CallSize(run: seq<State>, steps: seq<Step>, i: nat, j: nat, t: Tid, sz: nat)
    requires IsRun(run, steps) && i < j < |run| && steps[i] == Malloc(t, sz)
    requires forall m :: i < m <= j ==> t in run[m].calls
    ensures run[j].calls[t].GiveBack? || run[j].calls[t].sz == sz
    ensures forall m :: i <= m < j && By(steps[m], t) ==> run[m + 1].live == run[m].live
    decreases j
  {
    if j == i + 1 {
      MallocTheorem(run, steps, i, t, sz);
    } else {
      CallSize(run, steps, i, j - 1, t, sz);
      CallStep(run, steps, j - 1, t);
    }
  }
}
