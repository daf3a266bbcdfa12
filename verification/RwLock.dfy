/** The reader/writer lock.  First the lock itself, an object whose sections under
    rwlock_lock are methods proved against functions on its value; then any number of threads
    using it, one such section per step. */
module RwLock {

  import opened Collections
  import Bits

  type Tid = nat
  type Cid = nat

  const SLOTS := 1000

  /** The value of a lock.  Holders are CPUs, as in the source. */
  datatype Value = Value(readers: nat, slots: seq<Option<Cid>>, writerIn: bool, waiting: nat, writer: Option<Cid>)

  /** Index of the first occurrence of x from i on, or the length. */
  function Find(slots: seq<Option<Cid>>, x: Option<Cid>, i: nat): (k: nat)
    requires i <= |slots|
    ensures i <= k <= |slots|
    ensures k < |slots| ==> slots[k] == x
    ensures forall j :: i <= j < k ==> slots[j] != x
    decreases |slots| - i
  {
    if i == |slots| || slots[i] == x then i else Find(slots, x, i + 1)
  }

  function CountOf(slots: seq<Option<Cid>>, x: Option<Cid>): (n: nat)
    ensures n <= |slots|
  {
    if slots == [] then 0 else CountOf(slots[..|slots| - 1], x) + (if slots[|slots| - 1] == x then 1 else 0)
  }

  lemma {:induction false} CountUpdate(slots: seq<Option<Cid>>, i: nat, y: Option<Cid>, x: Option<Cid>)
    requires i < |slots|
    ensures CountOf(slots[i := y], x) + (if slots[i] == x then 1 else 0) == CountOf(slots, x) + (if y == x then 1 else 0)
  {
    var n := |slots| - 1;
    if i == n {
      assert slots[i := y][..n] == slots[..n];
    } else {
      assert slots[i := y][..n] == slots[..n][i := y];
      CountUpdate(slots[..n], i, y, x);
    }
  }

  lemma {:induction false} FindCounted(slots: seq<Option<Cid>>, x: Option<Cid>)
    requires CountOf(slots, x) > 0
    ensures Find(slots, x, 0) < |slots|
  {
    if Find(slots, x, 0) == |slots| {
      AbsentIsZero(slots, x);
    }
  }

  lemma {:induction false} AbsentIsZero(slots: seq<Option<Cid>>, x: Option<Cid>)
    requires forall j :: 0 <= j < |slots| ==> slots[j] != x
    ensures CountOf(slots, x) == 0
  {
    if slots == [] {
    } else {
      AbsentIsZero(slots[..|slots| - 1], x);
    }
  }

  predicate ReadBlocked(v: Value) {
    v.writerIn || (v.waiting != 0 && v.readers != 0)
  }

  predicate WriteBlocked(v: Value) {
    v.readers != 0 || v.writerIn
  }

  predicate HasFreeSlot(v: Value) {
    Find(v.slots, None, 0) < |v.slots|
  }

  function ReadIn(v: Value, cpu: Cid): Value
    requires HasFreeSlot(v)
  {
    v.(readers := v.readers + 1, slots := v.slots[Find(v.slots, None, 0) := Some(cpu)])
  }

  /** The search of the slots goes past a full table to the word behind it, writer_holder. */
  function ReadInBehind(v: Value, cpu: Cid): Value {
    v.(readers := v.readers + 1, writer := Some(cpu))
  }

  function ReadOut(v: Value, cpu: Cid): Value
    requires Find(v.slots, Some(cpu), 0) < |v.slots|
  {
    v.(readers := OneLess(v.readers), slots := v.slots[Find(v.slots, Some(cpu), 0) := None])
  }

  /** An unsigned counter, decremented. */
  function OneLess(n: nat): nat {
    if n == 0 then Bits.W - 1 else n - 1
  }

  /** A release by a CPU that is in no slot: the write behind the table, where writer_holder is,
      and the decrement are made all the same. */
  function ReadMissed(v: Value): Value {
    v.(readers := OneLess(v.readers), writer := None)
  }

  function WriteIn(v: Value, cpu: Cid): Value
    requires v.waiting > 0
  {
    v.(writerIn := true, waiting := v.waiting - 1, writer := Some(cpu))
  }

  function WriteOut(v: Value): Value {
    v.(writerIn := false, writer := None)
  }

  /** struct rwlock, its sections under the spinlock as methods.  A section that ends in
      wchan_sleep returns false. */
  class Lock {
    var readerCount: nat
    const readerHolders: array<Option<Cid>>
    var writerIn: bool
    var writerWaiting: nat
    var writerHolder: Option<Cid>

    constructor ()
      ensures fresh(readerHolders) && readerHolders.Length == SLOTS
      ensures Val() == Value(0, seq(SLOTS, _ => None), false, 0, None)
    {
      readerHolders := new Option<Cid>[SLOTS](_ => None);
      readerCount, writerIn, writerWaiting, writerHolder := 0, false, 0, None;
    }

    ghost function Val(): Value
      reads this, readerHolders
    {
      Value(readerCount, readerHolders[..], writerIn, writerWaiting, writerHolder)
    }

    /** One turn of the READ branch of rwlock_acquire.  The search for a free slot has no bound;
        a reader who finds none is recorded as the writer's holder. */
    method AcquireRead(cpu: Cid) returns (ok: bool)
      requires ReadBlocked(Val()) || HasFreeSlot(Val()) || writerHolder == None
      modifies this, readerHolders
      ensures ok <==> !old(writerIn) && !(old(writerWaiting) > 0 && old(readerCount) > 0)
      ensures readerCount == old(readerCount) + (if ok then 1 else 0) && writerIn == old(writerIn) && writerWaiting == old(writerWaiting)
      ensures Val() == if !ok then old(Val()) else if HasFreeSlot(old(Val())) then ReadIn(old(Val()), cpu) else ReadInBehind(old(Val()), cpu)
    {
      if writerIn || (writerWaiting != 0 && readerCount != 0) { return false; }
      ghost var v := Val();
      readerCount := readerCount + 1;
      var i := 0;
      while i < readerHolders.Length && readerHolders[i] != None
        invariant 0 <= i <= readerHolders.Length && Find(readerHolders[..], None, 0) == Find(readerHolders[..], None, i)
        invariant readerHolders[..] == v.slots
        decreases readerHolders.Length - i
      {
        i := i + 1;
      }
      if i < readerHolders.Length { readerHolders[i] := Some(cpu); } else { writerHolder := Some(cpu); }
      ok := true;
    }

    /** The READ branch of rwlock_release.  ok is the assertion that a slot matched; when it
        fails, execution goes on. */
    method ReleaseRead(cpu: Cid) returns (ok: bool)
      requires readerHolders.Length == SLOTS
      modifies this, readerHolders
      ensures ok <==> Some(cpu) in old(readerHolders[..])
      ensures old(readerCount) > 0 ==> readerCount == old(readerCount) - 1
      ensures writerIn == old(writerIn) && writerWaiting == old(writerWaiting)
      ensures Val() == if ok then ReadOut(old(Val()), cpu) else ReadMissed(old(Val()))
    {
      ok := false;
      ghost var v := Val();
      var i := 0;
      while i < SLOTS
        invariant 0 <= i <= SLOTS && !ok && Val() == v && Find(v.slots, Some(cpu), 0) == Find(v.slots, Some(cpu), i)
      {
        if readerHolders[i] == Some(cpu) {
          ok := true;
          break;
        }
        i := i + 1;
      }
      if i < SLOTS { readerHolders[i] := None; } else { writerHolder := None; }
      readerCount := if readerCount == 0 then Bits.W - 1 else readerCount - 1;
    }

    /** One turn of the WRITE branch of rwlock_acquire; first says whether it is the first. */
    method AcquireWrite(cpu: Cid, first: bool) returns (ok: bool)
      requires first || writerWaiting > 0
      modifies this
      ensures ok <==> old(readerCount) == 0 && !old(writerIn)
      ensures writerWaiting == old(writerWaiting) + (if first then 1 else 0) - (if ok then 1 else 0)
      ensures writerIn == (ok || old(writerIn)) && readerCount == old(readerCount) && (ok ==> writerHolder == Some(cpu))
      ensures var v := if first then old(Val()).(waiting := old(writerWaiting) + 1) else old(Val());
              Val() == if ok then WriteIn(v, cpu) else v
    {
      if first { writerWaiting := writerWaiting + 1; }
      if readerCount != 0 || writerIn { return false; }
      writerIn := true;
      writerWaiting := writerWaiting - 1;
      writerHolder := Some(cpu);
      ok := true;
    }

    /** The WRITE branch of rwlock_release.  ok is the assertion about the holder. */
    method ReleaseWrite(cpu: Cid) returns (ok: bool)
      modifies this
      ensures ok == (old(writerHolder) == Some(cpu)) && !writerIn && writerHolder == None
      ensures readerCount == old(readerCount) && writerWaiting == old(writerWaiting)
      ensures Val() == WriteOut(old(Val()))
    {
      ok := writerHolder == Some(cpu);
      writerHolder := None;
      writerIn := false;
    }
  }

  /** Where a thread is. */
  datatype Point =
    | Outside
    | ReadTry             // in rwlock_acquire for reading, about to test
    | ReadAsleep
    | Reading(cpu: Cid)
    | WriteTry            // has been counted in writer_waiting, about to test again
    | WriteAsleep
    | Writing(cpu: Cid)

  datatype State = State(v: Value, chan: seq<Tid>, pcs: map<Tid, Point>)

  /** An improper mode makes rwlock_acquire do nothing and rwlock_release only wake. */
  datatype Step =
    | CallRead(t: Tid)
    | TryRead(t: Tid, cpu: Cid)
    | CallWrite(t: Tid, cpu: Cid)
    | TryWrite(t: Tid, cpu: Cid)
    | EndRead(t: Tid)
    | EndWrite(t: Tid)
    | BadAcquire(t: Tid)
    | BadRelease(t: Tid)

  function Pc(s: State, t: Tid): Point {
    if t in s.pcs then s.pcs[t] else Outside
  }

  function At(s: State, t: Tid, pc: Point): State {
    s.(pcs := s.pcs[t := pc])
  }

  /** A reader that may go in needs a free slot; releases are on the acquiring CPU. */
  predicate Enabled(s: State, step: Step) {
    match step
    case CallRead(t) => Pc(s, t) == Outside
    case TryRead(t, _) => Pc(s, t) == ReadTry && (ReadBlocked(s.v) || s.v.readers < SLOTS)
    case CallWrite(t, _) => Pc(s, t) == Outside
    case TryWrite(t, _) => Pc(s, t) == WriteTry
    case EndRead(t) => Pc(s, t).Reading?
    case EndWrite(t) => Pc(s, t).Writing?
    case BadAcquire(t) => true
    case BadRelease(t) => true
  }

  function Roused(pc: Point): Point {
    if pc == ReadAsleep then ReadTry else if pc == WriteAsleep then WriteTry else pc
  }

  /** wchan_wakeall. */
  function WakeAll(s: State): State {
    s.(chan := [], pcs := map t | t in s.pcs :: if t in s.chan then Roused(s.pcs[t]) else s.pcs[t])
  }

  function Sleep(s: State, t: Tid, pc: Point): State {
    At(s, t, pc).(chan := s.chan + [t])
  }

  /** Whether the assertions of rwlock_release hold. */
  predicate Matches(s: State, step: Step) {
    match step
    case EndRead(t) => Pc(s, t).Reading? && s.v.readers > 0 && Find(s.v.slots, Some(Pc(s, t).cpu), 0) < |s.v.slots|
    case EndWrite(t) => Pc(s, t).Writing? && s.v.writer == Some(Pc(s, t).cpu)
    case TryRead(_, _) => ReadBlocked(s.v) || HasFreeSlot(s.v)
    case TryWrite(_, _) => s.v.waiting > 0
    case _ => true
  }

  function Apply(s: State, step: Step): State
    requires Enabled(s, step) && Matches(s, step)
  {
    match step
    case CallRead(t) => At(s, t, ReadTry)
    case TryRead(t, cpu) =>
      if ReadBlocked(s.v) then Sleep(s, t, ReadAsleep) else At(s, t, Reading(cpu)).(v := ReadIn(s.v, cpu))
    case CallWrite(t, cpu) =>
      var v := s.v.(waiting := s.v.waiting + 1);
      if WriteBlocked(v) then Sleep(s, t, WriteAsleep).(v := v) else At(s, t, Writing(cpu)).(v := WriteIn(v, cpu))
    case TryWrite(t, cpu) =>
      if WriteBlocked(s.v) then Sleep(s, t, WriteAsleep) else At(s, t, Writing(cpu)).(v := WriteIn(s.v, cpu))
    case EndRead(t) => WakeAll(At(s, t, Outside).(v := ReadOut(s.v, Pc(s, t).cpu)))
    case EndWrite(t) => WakeAll(At(s, t, Outside).(v := WriteOut(s.v)))
    case BadAcquire(t) => s
    case BadRelease(t) => WakeAll(s)
  }

  function Boot(): State {
    State(Value(0, seq(SLOTS, _ => None), false, 0, None), [], map[])
  }

  datatype Class = AReader | AReaderOn(cpu: Cid) | AWriter | AWaitingWriter

  predicate Is(pc: Point, k: Class) {
    match k
    case AReader => pc.Reading?
    case AReaderOn(c) => pc == Reading(c)
    case AWriter => pc.Writing?
    case AWaitingWriter => pc == WriteTry || pc == WriteAsleep
  }

  function Those(s: State, k: Class): set<Tid> {
    set t | t in s.pcs && Is(s.pcs[t], k)
  }

  predicate Asleep(pc: Point) {
    pc == ReadAsleep || pc == WriteAsleep
  }

  /** The lock's fields say who is inside and who waits. */
  ghost predicate Counts(s: State) {
    && |s.v.slots| == SLOTS
    && s.v.readers == |Those(s, AReader)|
    && CountOf(s.v.slots, None) + s.v.readers == SLOTS
    && (forall c: Cid :: CountOf(s.v.slots, Some(c)) == |Those(s, AReaderOn(c))|)
    && s.v.waiting == |Those(s, AWaitingWriter)|
    && |Those(s, AWriter)| == (if s.v.writerIn then 1 else 0)
    && (forall t: Tid :: Pc(s, t).Writing? ==> s.v.writer == Some(Pc(s, t).cpu))
    && (s.v.writerIn ==> s.v.readers == 0)
  }

  /** Whoever sleeps is on the channel and still has to wait. */
  ghost predicate Sleepers(s: State) {
    && (forall t: Tid :: t in s.chan <==> Asleep(Pc(s, t)))
    && NoDuplicates(s.chan)
    && (forall t: Tid :: Pc(s, t) == ReadAsleep ==> ReadBlocked(s.v))
    && (forall t: Tid :: Pc(s, t) == WriteAsleep ==> WriteBlocked(s.v))
  }

  ghost predicate Inv(s: State) {
    Counts(s) && Sleepers(s)
  }

  /** How the number of threads of a class changes when thread t moves. */
  lemma ClassChange(s: State, s': State, t: Tid, k: Class)
    requires forall u: Tid :: u != t ==> Pc(s', u) == Pc(s, u)
    ensures |Those(s', k)| == |Those(s, k)| - (if Is(Pc(s, t), k) then 1 else 0) + (if Is(Pc(s', t), k) then 1 else 0)
  {
    forall u: Tid | u != t ensures u in Those(s, k) <==> u in Those(s', k) {
      assert Pc(s', u) == Pc(s, u);
    }
    assert Is(Pc(s, t), k) <==> t in Those(s, k);
    assert Is(Pc(s', t), k) <==> t in Those(s', k);
    SizesDiffer(Those(s, k), Those(s', k), t);
  }

  /** Waking changes nobody's class. */
  lemma WakeAllSame(s: State, k: Class)
    ensures Those(WakeAll(s), k) == Those(s, k)
    ensures forall u: Tid :: Pc(WakeAll(s), u) == (if u in s.chan then Roused(Pc(s, u)) else Pc(s, u))
  {
  }

  lemma KeepWakeAll(s: State)
    requires Counts(s) && forall t: Tid :: Asleep(Pc(s, t)) ==> t in s.chan
    ensures Inv(WakeAll(s))
  {
    WakeAllSame(s, AReader);
    WakeAllSame(s, AWriter);
    WakeAllSame(s, AWaitingWriter);
    forall c: Cid ensures Those(WakeAll(s), AReaderOn(c)) == Those(s, AReaderOn(c)) {
      WakeAllSame(s, AReaderOn(c));
    }
  }

  /** Nothing but the place of one thread changes: the counts stay as long as its class does. */
  lemma KeepCountsMove(s: State, t: Tid, pc: Point)
    requires Counts(s) && !pc.Writing? && forall k: Class :: Is(Pc(s, t), k) == Is(pc, k)
    ensures Counts(At(s, t, pc))
  {
    var s' := At(s, t, pc);
    ClassChange(s, s', t, AReader);
    ClassChange(s, s', t, AWriter);
    ClassChange(s, s', t, AWaitingWriter);
    forall c: Cid ensures |Those(s', AReaderOn(c))| == |Those(s, AReaderOn(c))| {
      ClassChange(s, s', t, AReaderOn(c));
    }
  }

  /** The assertions in rwlock_release hold, and the slot search in rwlock_acquire ends. */
  lemma InvMatches(s: State, step: Step)
    requires Counts(s) && Enabled(s, step)
    ensures Matches(s, step)
  {
    match step
    case EndRead(t) =>
      assert t in Those(s, AReader) && t in Those(s, AReaderOn(Pc(s, t).cpu));
      FindCounted(s.v.slots, Some(Pc(s, t).cpu));
    case TryRead(_, _) =>
      if !ReadBlocked(s.v) { FindCounted(s.v.slots, None); }
    case TryWrite(t, _) => assert t in Those(s, AWaitingWriter);
    case _ =>
  }

  lemma ReadInCounts(s: State, t: Tid, cpu: Cid)
    requires Counts(s) && Pc(s, t) == ReadTry && HasFreeSlot(s.v) && !ReadBlocked(s.v)
    ensures Counts(At(s, t, Reading(cpu)).(v := ReadIn(s.v, cpu)))
  {
    var s' := At(s, t, Reading(cpu)).(v := ReadIn(s.v, cpu));
    var i := Find(s.v.slots, None, 0);
    ClassChange(s, s', t, AReader);
    ClassChange(s, s', t, AWriter);
    ClassChange(s, s', t, AWaitingWriter);
    CountUpdate(s.v.slots, i, Some(cpu), None);
    forall c: Cid ensures CountOf(s'.v.slots, Some(c)) == |Those(s', AReaderOn(c))| {
      ClassChange(s, s', t, AReaderOn(c));
      CountUpdate(s.v.slots, i, Some(cpu), Some(c));
    }
  }

  lemma ReadOutCounts(s: State, t: Tid)
    requires Counts(s) && Pc(s, t).Reading? && Matches(s, EndRead(t))
    ensures Counts(At(s, t, Outside).(v := ReadOut(s.v, Pc(s, t).cpu)))
  {
    var cpu := Pc(s, t).cpu;
    var s' := At(s, t, Outside).(v := ReadOut(s.v, cpu));
    var i := Find(s.v.slots, Some(cpu), 0);
    ClassChange(s, s', t, AReader);
    ClassChange(s, s', t, AWriter);
    ClassChange(s, s', t, AWaitingWriter);
    CountUpdate(s.v.slots, i, None, None);
    forall c: Cid ensures CountOf(s'.v.slots, Some(c)) == |Those(s', AReaderOn(c))| {
      ClassChange(s, s', t, AReaderOn(c));
      CountUpdate(s.v.slots, i, None, Some(c));
    }
  }

  /** No slot changes when a writer moves. */
  lemma WriterMoves(s: State, t: Tid, pc: Point, v: Value)
    requires Counts(s) && !Pc(s, t).Reading? && !pc.Reading? && v.readers == s.v.readers && v.slots == s.v.slots
    requires v.waiting == s.v.waiting - (if Is(Pc(s, t), AWaitingWriter) then 1 else 0) + (if Is(pc, AWaitingWriter) then 1 else 0)
    requires (if v.writerIn then 1 else 0) ==
             (if s.v.writerIn then 1 else 0) - (if Is(Pc(s, t), AWriter) then 1 else 0) + (if Is(pc, AWriter) then 1 else 0)
    requires v.writerIn ==> v.readers == 0
    requires s.v.writerIn && v.writerIn ==> v.writer == s.v.writer
    requires pc.Writing? ==> v.writer == Some(pc.cpu)
    ensures Counts(At(s, t, pc).(v := v))
  {
    var s' := At(s, t, pc).(v := v);
    ClassChange(s, s', t, AReader);
    ClassChange(s, s', t, AWriter);
    ClassChange(s, s', t, AWaitingWriter);
    forall c: Cid ensures |Those(s', AReaderOn(c))| == |Those(s, AReaderOn(c))| {
      ClassChange(s, s', t, AReaderOn(c));
    }
    forall u: Tid | Pc(s', u).Writing? ensures v.writer == Some(Pc(s', u).cpu) {
      assert u in Those(s', AWriter);
      if u != t {
        assert u in Those(s, AWriter);
      }
    }
  }

  lemma CountsIgnoreChannel(s: State, chan: seq<Tid>)
    requires Counts(s)
    ensures Counts(s.(chan := chan))
  {
    assert forall k: Class :: Those(s.(chan := chan), k) == Those(s, k);
    assert forall t: Tid :: Pc(s.(chan := chan), t) == Pc(s, t);
  }

  lemma KeepRead(s: State, t: Tid, cpu: Cid)
    requires Inv(s) && Enabled(s, TryRead(t, cpu)) && Matches(s, TryRead(t, cpu))
    ensures Inv(Apply(s, TryRead(t, cpu)))
  {
    if ReadBlocked(s.v) {
      KeepCountsMove(s, t, ReadAsleep);
      CountsIgnoreChannel(At(s, t, ReadAsleep), s.chan + [t]);
    } else {
      ReadInCounts(s, t, cpu);
    }
  }

  /** A writer's test, once it is among the waiting writers of v. */
  lemma KeepWrite(s: State, t: Tid, cpu: Cid, v: Value)
    requires Inv(s) && (Pc(s, t) == WriteTry || Pc(s, t) == Outside)
    requires v == s.v.(waiting := s.v.waiting + (if Pc(s, t) == Outside then 1 else 0)) && v.waiting > 0
    ensures Inv(if WriteBlocked(v) then Sleep(s, t, WriteAsleep).(v := v) else At(s, t, Writing(cpu)).(v := WriteIn(v, cpu)))
  {
    if WriteBlocked(v) {
      WriterMoves(s, t, WriteAsleep, v);
      CountsIgnoreChannel(At(s, t, WriteAsleep).(v := v), s.chan + [t]);
    } else {
      WriterMoves(s, t, Writing(cpu), WriteIn(v, cpu));
    }
  }

  lemma KeepEnd(s: State, step: Step)
    requires Inv(s) && Enabled(s, step) && Matches(s, step) && (step.EndRead? || step.EndWrite?)
    ensures Inv(Apply(s, step))
  {
    var t := step.t;
    if step.EndRead? {
      ReadOutCounts(s, t);
      KeepWakeAll(At(s, t, Outside).(v := ReadOut(s.v, Pc(s, t).cpu)));
    } else {
      assert t in Those(s, AWriter);
      WriterMoves(s, t, Outside, WriteOut(s.v));
      KeepWakeAll(At(s, t, Outside).(v := WriteOut(s.v)));
    }
  }

  lemma KeepStep(s: State, step: Step)
    requires Inv(s) && Enabled(s, step)
    ensures Matches(s, step) && Inv(Apply(s, step))
  {
    InvMatches(s, step);
    match step
    case CallRead(t) => KeepCountsMove(s, t, ReadTry);
    case TryRead(t, cpu) => KeepRead(s, t, cpu);
    case CallWrite(t, cpu) => KeepWrite(s, t, cpu, s.v.(waiting := s.v.waiting + 1));
    case TryWrite(t, cpu) => KeepWrite(s, t, cpu, s.v);
    case EndRead(t) => KeepEnd(s, step);
    case EndWrite(t) => KeepEnd(s, step);
    case BadAcquire(t) =>
    case BadRelease(t) => KeepWakeAll(s);
  }

  predicate IsRun(run: seq<State>, steps: seq<Step>) {
    && |run| == |steps| + 1
    && run[0] == Boot()
    && forall i :: 0 <= i < |steps| ==>
         Enabled(run[i], steps[i]) && (Matches(run[i], steps[i]) ==> run[i + 1] == Apply(run[i], steps[i]))
  }

  lemma {:induction false} AllNone(slots: seq<Option<Cid>>, x: Option<Cid>)
    requires forall i :: 0 <= i < |slots| ==> slots[i] == None
    ensures CountOf(slots, x) == (if x == None then |slots| else 0)
  {
    if slots == [] {
    } else {
      AllNone(slots[..|slots| - 1], x);
    }
  }

  lemma BootInv()
    ensures Inv(Boot())
  {
    AllNone(Boot().v.slots, None);
    forall c: Cid ensures CountOf(Boot().v.slots, Some(c)) == 0 { AllNone(Boot().v.slots, Some(c)); }
    assert forall k: Class :: Those(Boot(), k) == {};
  }

  lemma {:induction false} RunInv(run: seq<State>, steps: seq<Step>, k: nat)
    requires IsRun(run, steps) && k < |run|
    ensures Inv(run[k])
    ensures forall i :: 0 <= i < k ==> Matches(run[i], steps[i])
  {
    if k == 0 {
      BootInv();
    } else {
      RunInv(run, steps, k - 1);
      KeepStep(run[k - 1], steps[k - 1]);
    }
  }

  /** Exclusion and accounting in every state of every run with matched releases. */
  lemma ExclusionTheorem(run: seq<State>, steps: seq<Step>, k: nat)
    requires IsRun(run, steps) && k < |run|
    ensures var s := run[k];
            && (forall t: Tid, u: Tid :: Pc(s, t).Writing? ==> !Pc(s, u).Reading? && (Pc(s, u).Writing? ==> u == t))
            && (s.v.writerIn <==> Those(s, AWriter) != {})
            && s.v.readers == |Those(s, AReader)| == SLOTS - CountOf(s.v.slots, None)
  {
    RunInv(run, steps, k);
    var s := run[k];
    forall t: Tid, u: Tid | Pc(s, t).Writing? ensures !Pc(s, u).Reading? && (Pc(s, u).Writing? ==> u == t) {
      assert t in Those(s, AWriter);
      assert Pc(s, u).Reading? ==> u in Those(s, AReader);
      if Pc(s, u).Writing? && u != t {
        TwoMembers(Those(s, AWriter), t, u);
      }
    }
  }

  lemma TwoMembers(a: set<Tid>, t: Tid, u: Tid)
    requires t in a && u in a && t != u
    ensures |a| >= 2
  {
    assert {t, u} <= a;
    assert |a| == |a - {t, u}| + |{t, u}|;
  }

  /** Nobody sleeps who could go ahead; in particular nobody sleeps on a free lock. */
  lemma NobodySleepsNeedlessly(run: seq<State>, steps: seq<Step>, k: nat, t: Tid)
    requires IsRun(run, steps) && k < |run| && t in run[k].chan
    ensures Pc(run[k], t) == ReadAsleep || Pc(run[k], t) == WriteAsleep
    ensures Pc(run[k], t) == ReadAsleep ==> run[k].v.writerIn || (run[k].v.waiting > 0 && run[k].v.readers > 0)
    ensures Pc(run[k], t) == WriteAsleep ==> run[k].v.writerIn || run[k].v.readers > 0
  {
    RunInv(run, steps, k);
  }

  /** The assertions of rwlock_release never fail and the slot search always ends. */
  lemma ReleasesMatch(run: seq<State>, steps: seq<Step>, k: nat)
    requires IsRun(run, steps) && k < |steps|
    ensures Matches(run[k], steps[k])
  {
    RunInv(run, steps, k);
    KeepStep(run[k], steps[k]);
  }

  /** With a writer waiting, the reader count can only rise from zero to one. */
  lemma ReadersRise(run: seq<State>, steps: seq<Step>, k: nat)
    requires IsRun(run, steps) && k < |steps| && run[k].v.waiting > 0
    requires run[k + 1].v.readers > run[k].v.readers
    ensures run[k].v.readers == 0 && run[k + 1].v.readers == 1
  {
    ReleasesMatch(run, steps, k);
  }

  /** So once it is at most one it stays there for as long as some writer waits. */
  lemma {:induction false} ReadersStayFew(run: seq<State>, steps: seq<Step>, i: nat, j: nat)
    requires IsRun(run, steps) && i <= j < |run| && run[i].v.readers <= 1
    requires forall k :: i <= k <= j ==> run[k].v.waiting > 0
    ensures run[j].v.readers <= 1
    decreases j - i
  {
    if i < j {
      ReadersStayFew(run, steps, i, j - 1);
      if run[j].v.readers > run[j - 1].v.readers { ReadersRise(run, steps, j - 1); }
    }
  }

  // ---------------------------------------------------------------- what each step does

  /** t is at pc now, everybody else where it was. */
  ghost predicate OnlyMoves(s: State, s': State, t: Tid, pc: Point) {
    Pc(s', t) == pc && forall u: Tid :: u != t ==> Pc(s', u) == Pc(s, u)
  }

  /** A reader goes in if no writer is in and not both a writer waits and a reader is in, and
      is then in one more slot under its CPU; otherwise it sleeps, last on the channel. */
  lemma ReadTestTheorem(run: seq<State>, steps: seq<Step>, k: nat, t: Tid, cpu: Cid)
    requires IsRun(run, steps) && k < |steps| && steps[k] == TryRead(t, cpu)
    ensures var s, s' := run[k], run[k + 1];
            && (Pc(s', t).Reading? <==> !s.v.writerIn && !(s.v.waiting > 0 && s.v.readers > 0))
            && OnlyMoves(s, s', t, if Pc(s', t).Reading? then Reading(cpu) else ReadAsleep)
            && (!Pc(s', t).Reading? ==> s'.chan == s.chan + [t] && s'.v == s.v)
            && (Pc(s', t).Reading? ==>
                  && s'.chan == s.chan && s'.v.readers == s.v.readers + 1 && SlotTaken(s.v.slots, s'.v.slots, cpu)
                  && s'.v == s.v.(readers := s'.v.readers, slots := s'.v.slots))
  {
    ReleasesMatch(run, steps, k);
    var i := Find(run[k].v.slots, None, 0);
    assert i < |run[k].v.slots| ==> OneSlot(run[k].v.slots, run[k].v.slots[i := Some(cpu)], i, None, Some(cpu));
  }

  /** Slot i goes from x to y. */
  ghost predicate OneSlot(slots: seq<Option<Cid>>, slots': seq<Option<Cid>>, i: nat, x: Option<Cid>, y: Option<Cid>) {
    i < |slots| == |slots'| && slots[i] == x && slots'[i] == y && forall j :: 0 <= j < |slots| && j != i ==> slots'[j] == slots[j]
  }

  ghost predicate SlotTaken(slots: seq<Option<Cid>>, slots': seq<Option<Cid>>, cpu: Cid) {
    exists i: nat :: OneSlot(slots, slots', i, None, Some(cpu))
  }

  ghost predicate SlotLeft(slots: seq<Option<Cid>>, slots': seq<Option<Cid>>, cpu: Cid) {
    exists i: nat :: OneSlot(slots, slots', i, Some(cpu), None)
  }

  /** A writer goes in if nobody is in, and from its first test until then is counted as waiting. */
  lemma WriteTestTheorem(run: seq<State>, steps: seq<Step>, k: nat, t: Tid, cpu: Cid)
    requires IsRun(run, steps) && k < |steps| && (steps[k] == CallWrite(t, cpu) || steps[k] == TryWrite(t, cpu))
    ensures var s, s', waiting := run[k], run[k + 1], run[k].v.waiting + (if steps[k].CallWrite? then 1 else 0);
            && (Pc(s', t).Writing? <==> !s.v.writerIn && s.v.readers == 0)
            && OnlyMoves(s, s', t, if Pc(s', t).Writing? then Writing(cpu) else WriteAsleep)
            && (!Pc(s', t).Writing? ==> s'.chan == s.chan + [t] && s'.v == s.v.(waiting := waiting))
            && (Pc(s', t).Writing? ==>
                  waiting > 0 && s'.chan == s.chan && s'.v == s.v.(waiting := waiting - 1, writerIn := true, writer := Some(cpu)))
  {
    ReleasesMatch(run, steps, k);
  }

  /** Everybody asleep is about to test again, and nobody is on the channel. */
  ghost predicate AllRoused(s: State, s': State, except: set<Tid>) {
    && s'.chan == []
    && forall u: Tid :: u !in except ==>
         Pc(s', u) == match Pc(s, u) case ReadAsleep => ReadTry case WriteAsleep => WriteTry case pc => pc
  }

  /** A release takes its thread out, a reader's slot with it, and makes every sleeper test again;
      with an improper mode it only does the latter. */
  lemma ReleaseTheorem(run: seq<State>, steps: seq<Step>, k: nat)
    requires IsRun(run, steps) && k < |steps|
    ensures var s, s', t := run[k], run[k + 1], steps[k].t;
            match steps[k]
            case EndRead(_) =>
              && Pc(s, t).Reading? && Pc(s', t) == Outside && AllRoused(s, s', {t})
              && s.v.readers > 0 && s'.v.readers == s.v.readers - 1 && SlotLeft(s.v.slots, s'.v.slots, Pc(s, t).cpu)
              && s'.v == s.v.(readers := s'.v.readers, slots := s'.v.slots)
            case EndWrite(_) =>
              && Pc(s, t).Writing? && Pc(s', t) == Outside && AllRoused(s, s', {t})
              && s.v.writer == Some(Pc(s, t).cpu) && s'.v == s.v.(writerIn := false, writer := None)
            case BadRelease(_) => AllRoused(s, s', {}) && s'.v == s.v
            case BadAcquire(_) => s' == s
            case CallRead(_) => OnlyMoves(s, s', t, ReadTry) && s'.chan == s.chan && s'.v == s.v
            case _ => true
  {
    RunInv(run, steps, k);
    ReleasesMatch(run, steps, k);
    if steps[k].EndRead? {
      var s, cpu := run[k], Pc(run[k], steps[k].t).cpu;
      var i := Find(s.v.slots, Some(cpu), 0);
      assert OneSlot(s.v.slots, s.v.slots[i := None], i, Some(cpu), None);
    }
  }

  /** Readers do not exclude each other: as many as there are slots can be inside at once. */
  lemma {:induction false} ReadersTogether(n: nat) returns (run: seq<State>, steps: seq<Step>)
    requires n <= SLOTS
    ensures IsRun(run, steps)
    ensures var s := run[|steps|];
            && (forall t: Tid :: Pc(s, t) == if t < n then Reading(t) else Outside)
            && s.v.readers == n && !s.v.writerIn && s.v.waiting == 0
  {
    if n == 0 {
      run, steps := [Boot()], [];
    } else {
      run, steps := ReadersTogether(n - 1);
      var t: Tid, s := n - 1, run[|steps|];
      assert Enabled(s, CallRead(t));
      run, steps := Extend(run, steps, CallRead(t));
      assert Enabled(Apply(s, CallRead(t)), TryRead(t, t));
      run, steps := Extend(run, steps, TryRead(t, t));
      OneMore(s, t, run[|steps|]);
    }
  }

  lemma OneMore(s: State, t: Tid, s2: State)
    requires (forall u: Tid :: Pc(s, u) == if u < t then Reading(u) else Outside) && s.v.readers == t < SLOTS
    requires !s.v.writerIn && s.v.waiting == 0
    requires Matches(Apply(s, CallRead(t)), TryRead(t, t)) && s2 == Apply(Apply(s, CallRead(t)), TryRead(t, t))
    ensures (forall u: Tid :: Pc(s2, u) == if u < t + 1 then Reading(u) else Outside) && s2.v.readers == t + 1
    ensures !s2.v.writerIn && s2.v.waiting == 0
  {
    forall u: Tid ensures Pc(s2, u) == if u < t + 1 then Reading(u) else Outside { assert u != t ==> Pc(s2, u) == Pc(s, u); }
  }

  lemma Extend(run: seq<State>, steps: seq<Step>, step: Step) returns (run': seq<State>, steps': seq<Step>)
    requires IsRun(run, steps) && Enabled(run[|steps|], step)
    ensures IsRun(run', steps') && steps' == steps + [step] && |run'| == |run| + 1
    ensures Matches(run[|steps|], step) && run'[|steps'|] == Apply(run[|steps|], step)
  {
    CanGoOn(run, steps, step);
    run', steps' := run + [Apply(run[|steps|], step)], steps + [step];
    forall i | 0 <= i < |steps'|
      ensures Enabled(run'[i], steps'[i]) && (Matches(run'[i], steps'[i]) ==> run'[i + 1] == Apply(run'[i], steps'[i]))
    {
      assert i < |steps| ==> run'[i] == run[i] && steps'[i] == steps[i] && run'[i + 1] == run[i + 1];
    }
  }

  lemma CanGoOn(run: seq<State>, steps: seq<Step>, step: Step)
    requires IsRun(run, steps) && Enabled(run[|steps|], step)
    ensures Matches(run[|steps|], step)
  {
    RunInv(run, steps, |steps|);
    KeepStep(run[|steps|], step);
  }
}
