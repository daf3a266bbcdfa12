/** Interrupt levels and spinlock counting, alone and across context switches.  First spl.c as
    an object; then a machine of CPUs that raise and lower the level, take and release
    spinlocks in any order, switch threads and fork them. */
module Spl {

  import opened Collections

  type Tid = nat
  type Cid = nat

  /** t_curspl (high or not), t_iplhigh_count, and whether the CPU takes interrupts. */
  datatype Level = Level(high: bool, count: nat, irq: bool)

  function Bit(b: bool): nat {
    if b then 1 else 0
  }

  function Raise(v: Level): Level {
    v.(count := v.count + 1, irq := if v.count == 0 then false else v.irq)
  }

  function Lower(v: Level): Level
    requires v.count > 0
  {
    v.(count := v.count - 1, irq := if v.count == 1 then true else v.irq)
  }

  function SetLevel(v: Level, high: bool): Level
    requires v.high ==> v.count > 0
  {
    if !v.high && high then Raise(v).(high := true)
    else if v.high && !high then Lower(v.(high := false))
    else v
  }

  /** spl.c on one thread and its CPU. */
  class Interrupts {
    var curspl: bool
    var iplhighCount: nat
    var irq: bool

    constructor ()
      ensures Val() == Level(true, 1, false)
    {
      curspl, iplhighCount, irq := true, 1, false;
    }

    ghost function Val(): Level
      reads this
    {
      Level(curspl, iplhighCount, irq)
    }

    method SplRaise()
      modifies this
      ensures Val() == Raise(old(Val()))
    {
      if iplhighCount == 0 { irq := false; }
      iplhighCount := iplhighCount + 1;
    }

    method SplLower()
      requires iplhighCount > 0
      modifies this
      ensures Val() == Lower(old(Val()))
    {
      iplhighCount := iplhighCount - 1;
      if iplhighCount == 0 { irq := true; }
    }

    method Splx(high: bool) returns (was: bool)
      requires curspl ==> iplhighCount > 0
      modifies this
      ensures was == old(curspl) && Val() == SetLevel(old(Val()), high)
    {
      was := curspl;
      if !curspl && high {
        SplRaise();
        curspl := high;
      } else if curspl && !high {
        curspl := high;
        SplLower();
      }
    }
  }

  datatype Lock = RunQueueLock(cpu: Cid) | OtherLock(id: nat)

  /** Where a CPU is.  In thread_switch, level is the local variable spl. */
  datatype Point =
    | Code                                             // anywhere outside thread_switch
    | SwitchHigh(level: bool, lk: Option<Lock>)        // splhigh done
    | SwitchLocked(level: bool, lk: Option<Lock>)      // has, or spins for, the run queue lock
    | SwitchPlaced(level: bool)                        // thread is on its new list, lk released
    | SwitchIdle(level: bool)                          // in cpu_idle
    | Resumed(level: bool)                             // after switchframe_switch
    | Unlocked(level: bool)                            // run queue lock released

  /** The rest of a switched-out thread: it is inside thread_switch with a level to restore, or
      has not started (thread_startup ends in spl0). */
  datatype Frame = OnCpu | InSwitch(level: bool) | Fresh

  datatype Thread = Thread(high: bool, count: nat, frame: Frame)

  /** mine: the spinlocks this CPU has or spins for; spinlocks: c_spinlocks. */
  datatype Cpu = Cpu(cur: Tid, pc: Point, mine: set<Lock>, spin: Option<Lock>, spinlocks: nat, irq: bool)

  datatype State = State(cpus: seq<Cpu>, threads: map<Tid, Thread>, holder: map<Lock, Cid>)

  datatype Step =
    | Splx(c: Cid, high: bool)
    | Acquire(c: Cid, l: Lock)
    | Get(c: Cid)
    | Release(c: Cid, l: Lock)
    | Fork(c: Cid, t: Tid)
    | BeginSwitch(c: Cid, lk: Option<Lock>)
    | LockQueue(c: Cid)
    | NothingToDo(c: Cid)
    | Place(c: Cid)
    | IdleOut(c: Cid)
    | IdleReturn(c: Cid)          // thread_switch called by a handler in the idle loop
    | IdleBack(c: Cid)
    | Dispatch(c: Cid, next: Tid)
    | UnlockQueue(c: Cid)
    | Restore(c: Cid)

  predicate IsCpu(s: State, c: Cid) {
    c < |s.cpus| && s.cpus[c].cur in s.threads
  }

  function LevelOf(s: State, c: Cid): Level
    requires IsCpu(s, c)
  {
    var t := s.threads[s.cpus[c].cur];
    Level(t.high, t.count, s.cpus[c].irq)
  }

  /** The level of CPU c's current thread, and its interrupt flag, become v. */
  function WithLevel(s: State, c: Cid, v: Level): State
    requires IsCpu(s, c)
  {
    var t := s.cpus[c].cur;
    s.(threads := s.threads[t := s.threads[t].(high := v.high, count := v.count)],
       cpus := s.cpus[c := s.cpus[c].(irq := v.irq)])
  }

  function Goto(s: State, c: Cid, pc: Point): State
    requires c < |s.cpus|
  {
    s.(cpus := s.cpus[c := s.cpus[c].(pc := pc)])
  }

  /** spinlock_acquire up to its spin loop. */
  function StartAcquire(s: State, c: Cid, l: Lock): State
    requires IsCpu(s, c)
  {
    var s1 := WithLevel(s, c, Raise(LevelOf(s, c)));
    var cpu := s1.cpus[c];
    s1.(cpus := s1.cpus[c := cpu.(mine := cpu.mine + {l}, spin := Some(l), spinlocks := cpu.spinlocks + 1)])
  }

  predicate CanRelease(s: State, c: Cid, l: Lock) {
    && IsCpu(s, c) && l in s.holder && s.holder[l] == c && s.cpus[c].spinlocks > 0
    && s.threads[s.cpus[c].cur].count > 0
  }

  /** spinlock_release. */
  function LetGo(s: State, c: Cid, l: Lock): State
    requires CanRelease(s, c, l)
  {
    var cpu := s.cpus[c];
    var s1 := s.(cpus := s.cpus[c := cpu.(mine := cpu.mine - {l}, spinlocks := cpu.spinlocks - 1)], holder := s.holder - {l});
    WithLevel(s1, c, Lower(LevelOf(s1, c)))
  }

  function Switch(s: State, c: Cid, next: Tid, level: bool): State
    requires IsCpu(s, c) && next in s.threads
  {
    var t := s.cpus[c].cur;
    var away := s.threads[t := s.threads[t].(frame := InSwitch(level))];
    var back := match away[next].frame case InSwitch(l) => l case Fresh => false case OnCpu => false;
    s.(threads := away[next := away[next].(frame := OnCpu)], cpus := s.cpus[c := s.cpus[c].(cur := next, pc := Resumed(back))])
  }

  /** What callers must respect: no lock is taken twice on one CPU; thread_switch is entered
      with the channel's lock and no other when going to sleep, and with none otherwise; only
      a switched-out thread, or the current one, is dispatched. */
  predicate Enabled(s: State, step: Step) {
    && IsCpu(s, step.c)
    && var cpu := s.cpus[step.c];
       match step
       case Splx(c, _) => cpu.pc == Code && cpu.spin == None && (LevelOf(s, c).high ==> LevelOf(s, c).count > 0)
       case Acquire(c, l) => cpu.pc == Code && cpu.spin == None && l !in cpu.mine
       case Get(c) => cpu.spin.Some? && cpu.spin.value !in s.holder
       case Release(c, l) => cpu.pc == Code && cpu.spin == None && CanRelease(s, c, l)
       case Fork(c, t) => cpu.pc == Code && cpu.spin == None && t !in s.threads
       case BeginSwitch(c, lk) =>
         && cpu.pc == Code && cpu.spin == None && (LevelOf(s, c).high ==> LevelOf(s, c).count > 0)
         && (lk == None ==> cpu.mine == {})
         && (lk.Some? ==> cpu.mine == {lk.value} && lk.value.OtherLock?)
       case LockQueue(c) => cpu.pc.SwitchHigh?
       case NothingToDo(c) => cpu.pc.SwitchLocked? && cpu.pc.lk == None && cpu.spin == None
       case Place(c) => cpu.pc.SwitchLocked? && cpu.spin == None && (cpu.pc.lk.Some? ==> CanRelease(s, c, cpu.pc.lk.value))
       case IdleOut(c) => cpu.pc.SwitchPlaced? && cpu.spin == None && CanRelease(s, c, RunQueueLock(c))
       case IdleReturn(c) => cpu.pc.SwitchIdle? && (LevelOf(s, c).high ==> LevelOf(s, c).count > 0)
       case IdleBack(c) => cpu.pc.SwitchIdle?
       case Dispatch(c, next) =>
         cpu.pc.SwitchPlaced? && cpu.spin == None && next in s.threads && (next == cpu.cur || s.threads[next].frame != OnCpu)
       case UnlockQueue(c) => cpu.pc.Resumed? && CanRelease(s, c, RunQueueLock(c))
       case Restore(c) => cpu.pc.Unlocked? && (LevelOf(s, c).high ==> LevelOf(s, c).count > 0)
  }

  function Apply(s: State, step: Step): State
    requires Enabled(s, step)
  {
    var c := step.c;
    var cpu := s.cpus[c];
    match step
    case Splx(_, high) => WithLevel(s, c, SetLevel(LevelOf(s, c), high))
    case Acquire(_, l) => StartAcquire(s, c, l)
    case Get(_) => s.(holder := s.holder[cpu.spin.value := c], cpus := s.cpus[c := cpu.(spin := None)])
    case Release(_, l) => LetGo(s, c, l)
    case Fork(_, t) => s.(threads := s.threads[t := Thread(true, 2, Fresh)])
    case BeginSwitch(_, lk) =>
      Goto(WithLevel(s, c, SetLevel(LevelOf(s, c), true)), c, SwitchHigh(LevelOf(s, c).high, lk))
    case LockQueue(_) => Goto(StartAcquire(s, c, RunQueueLock(c)), c, SwitchLocked(cpu.pc.level, cpu.pc.lk))
    case NothingToDo(_) => Goto(s, c, Resumed(cpu.pc.level))
    case Place(_) => Goto(if cpu.pc.lk.Some? then LetGo(s, c, cpu.pc.lk.value) else s, c, SwitchPlaced(cpu.pc.level))
    case IdleOut(_) => Goto(LetGo(s, c, RunQueueLock(c)), c, SwitchIdle(cpu.pc.level))
    case IdleReturn(_) => WithLevel(s, c, SetLevel(SetLevel(LevelOf(s, c), true), LevelOf(s, c).high))
    case IdleBack(_) => Goto(StartAcquire(s, c, RunQueueLock(c)), c, SwitchPlaced(cpu.pc.level))
    case Dispatch(_, next) => Switch(s, c, next, cpu.pc.level)
    case UnlockQueue(_) => Goto(LetGo(s, c, RunQueueLock(c)), c, Unlocked(cpu.pc.level))
    case Restore(_) => Goto(WithLevel(s, c, SetLevel(LevelOf(s, c), cpu.pc.level)), c, Code)
  }

  /** Interrupts are on exactly when nothing keeps them off, and what keeps them off is the
      level and the spinlocks. */
  predicate Accounted(s: State, c: Cid)
    requires IsCpu(s, c)
  {
    var v := LevelOf(s, c);
    && s.cpus[c].spinlocks == |s.cpus[c].mine|
    && v.count == Bit(v.high) + |s.cpus[c].mine|
    && (v.irq <==> v.count == 0)
  }

  function Own(c: Cid, lk: Option<Lock>): set<Lock> {
    {RunQueueLock(c)} + (if lk.Some? then {lk.value} else {})
  }

  /** What thread_switch knows at each point. */
  predicate Staged(s: State, c: Cid)
    requires IsCpu(s, c)
  {
    var cpu := s.cpus[c];
    && (cpu.pc != Code ==> LevelOf(s, c).high)
    && match cpu.pc
       case Code => true
       case SwitchHigh(_, lk) => cpu.spin == None && cpu.mine == Own(c, lk) - {RunQueueLock(c)} && (lk.Some? ==> lk.value.OtherLock?)
       case SwitchLocked(_, lk) =>
         && cpu.mine == Own(c, lk) && (cpu.spin.Some? ==> cpu.spin.value == RunQueueLock(c)) && (lk.Some? ==> lk.value.OtherLock?)
       case SwitchPlaced(_) => cpu.mine == {RunQueueLock(c)}
       case SwitchIdle(_) => cpu.mine == {} && cpu.spin == None
       case Resumed(_) => cpu.mine == {RunQueueLock(c)} && cpu.spin == None
       case Unlocked(_) => cpu.mine == {} && cpu.spin == None
  }

  predicate Holds(s: State, c: Cid, l: Lock) {
    l in s.holder && s.holder[l] == c
  }

  ghost predicate CpuOk(s: State, c: Cid) {
    && IsCpu(s, c)
    && s.threads[s.cpus[c].cur].frame == OnCpu
    && Accounted(s, c)
    && Staged(s, c)
    && (s.cpus[c].spin.Some? ==> s.cpus[c].spin.value in s.cpus[c].mine)
    && (forall l: Lock :: l in s.cpus[c].mine && s.cpus[c].spin != Some(l) <==> Holds(s, c, l))
  }

  ghost predicate ThreadOk(s: State, t: Tid)
    requires t in s.threads
  {
    s.threads[t].frame != OnCpu ==> s.threads[t].high && s.threads[t].count == 2
  }

  ghost predicate Inv(s: State) {
    && (forall c: Cid {:trigger CpuOk(s, c)} :: c < |s.cpus| ==> CpuOk(s, c))
    && (forall t: Tid {:trigger ThreadOk(s, t)} :: t in s.threads ==> ThreadOk(s, t))
    && (forall c: Cid, d: Cid {:trigger s.cpus[c], s.cpus[d]} :: c < |s.cpus| && d < |s.cpus| && c != d ==> s.cpus[c].cur != s.cpus[d].cur)
    && (forall l: Lock :: l in s.holder ==> s.holder[l] < |s.cpus|)
  }

  /** Only CPU c, its current thread and its locks differ. */
  ghost predicate Local(s: State, s': State, c: Cid) {
    && c < |s.cpus| == |s'.cpus|
    && s'.threads.Keys == s.threads.Keys
    && s'.cpus[c].cur == s.cpus[c].cur
    && (forall d: Cid :: d < |s.cpus| && d != c ==> s'.cpus[d] == s.cpus[d])
    && (forall t :: t in s.threads && t != s.cpus[c].cur ==> s'.threads[t] == s.threads[t])
    && (forall l: Lock, d: Cid :: d != c ==> (Holds(s', d, l) <==> Holds(s, d, l)))
  }

  /** A CPU acting on its own cannot upset the others. */
  lemma KeepLocal(s: State, s': State, c: Cid)
    requires Inv(s) && Local(s, s', c) && CpuOk(s', c)
    ensures Inv(s')
  {
    forall d: Cid | d < |s'.cpus| ensures CpuOk(s', d) {
      assert CpuOk(s, d);
      if d != c { KeepOther(s, s', c, d); }
    }
    forall t: Tid | t in s'.threads ensures ThreadOk(s', t) {
      assert ThreadOk(s, t);
    }
    forall l: Lock | l in s'.holder ensures s'.holder[l] < |s'.cpus| {
      assert Holds(s', s'.holder[l], l);
      assert s'.holder[l] == c || Holds(s, s'.holder[l], l);
    }
  }

  lemma KeepOther(s: State, s': State, c: Cid, d: Cid)
    requires Local(s, s', c) && CpuOk(s, d) && d != c && IsCpu(s, c) && s.cpus[c].cur != s.cpus[d].cur
    ensures CpuOk(s', d)
  {
    assert s'.cpus[d] == s.cpus[d];
    assert s'.threads[s.cpus[d].cur] == s.threads[s.cpus[d].cur];
  }

  lemma KeepSplx(s: State, step: Step)
    requires Inv(s) && Enabled(s, step) && (step.Splx? || step.BeginSwitch? || step.Restore?)
    ensures Inv(Apply(s, step))
  {
    var c := step.c;
    assert CpuOk(s, c);
    match step
    case Splx(_, high) => SetLevelOk(s, c, high, Code);
      assert Apply(s, step) == Goto(WithLevel(s, c, SetLevel(LevelOf(s, c), high)), c, Code);
    case BeginSwitch(_, lk) => SetLevelOk(s, c, true, SwitchHigh(LevelOf(s, c).high, lk));
    case Restore(_) => SetLevelOk(s, c, s.cpus[c].pc.level, Code);
  }

  /** splx on CPU c, and a jump to pc. */
  lemma SetLevelOk(s: State, c: Cid, high: bool, pc: Point)
    requires Inv(s) && IsCpu(s, c) && (LevelOf(s, c).high ==> LevelOf(s, c).count > 0)
    requires var s' := Goto(WithLevel(s, c, SetLevel(LevelOf(s, c), high)), c, pc); IsCpu(s', c) && Staged(s', c)
    ensures Inv(Goto(WithLevel(s, c, SetLevel(LevelOf(s, c), high)), c, pc))
  {
    var s' := Goto(WithLevel(s, c, SetLevel(LevelOf(s, c), high)), c, pc);
    assert CpuOk(s, c);
    assert forall l: Lock :: Holds(s', c, l) <==> Holds(s, c, l);
    KeepLocal(s, s', c);
  }

  /** spinlock_acquire, up to its spin loop, keeps the books of its CPU. */
  lemma StartAcquireOk(s: State, c: Cid, l: Lock)
    requires Inv(s) && IsCpu(s, c) && s.cpus[c].spin == None && l !in s.cpus[c].mine
    ensures var s' := StartAcquire(s, c, l);
            && Local(s, s', c) && Accounted(s', c) && s'.holder == s.holder
            && s'.cpus[c] == s.cpus[c].(mine := s.cpus[c].mine + {l}, spin := Some(l), spinlocks := s.cpus[c].spinlocks + 1, irq := false)
            && LevelOf(s', c).high == LevelOf(s, c).high && s'.threads[s.cpus[c].cur].frame == OnCpu
  {
    assert CpuOk(s, c);
  }

  lemma AcquireThenGoto(s: State, c: Cid, l: Lock, pc: Point)
    requires Inv(s) && IsCpu(s, c) && s.cpus[c].spin == None && l !in s.cpus[c].mine
    requires var s' := Goto(StartAcquire(s, c, l), c, pc); IsCpu(s', c) && Staged(s', c)
    ensures Inv(Goto(StartAcquire(s, c, l), c, pc))
  {
    var s' := Goto(StartAcquire(s, c, l), c, pc);
    assert CpuOk(s, c);
    StartAcquireOk(s, c, l);
    assert forall k: Lock :: Holds(s', c, k) <==> Holds(s, c, k);
    assert Accounted(s', c);
    KeepLocal(s, s', c);
  }

  lemma KeepAcquire(s: State, step: Step)
    requires Inv(s) && Enabled(s, step) && (step.Acquire? || step.LockQueue? || step.IdleBack?)
    ensures Inv(Apply(s, step))
  {
    var c := step.c;
    assert CpuOk(s, c);
    match step
    case Acquire(_, l) => KeepPlainAcquire(s, c, l);
    case LockQueue(_) => KeepQueueAcquire(s, c, SwitchLocked(s.cpus[c].pc.level, s.cpus[c].pc.lk));
    case IdleBack(_) => KeepQueueAcquire(s, c, SwitchPlaced(s.cpus[c].pc.level));
  }

  lemma KeepPlainAcquire(s: State, c: Cid, l: Lock)
    requires Inv(s) && Enabled(s, Acquire(c, l))
    ensures Inv(StartAcquire(s, c, l))
  {
    assert CpuOk(s, c);
    StartAcquireOk(s, c, l);
    assert StartAcquire(s, c, l) == Goto(StartAcquire(s, c, l), c, Code);
    AcquireThenGoto(s, c, l, Code);
  }

  lemma KeepQueueAcquire(s: State, c: Cid, pc: Point)
    requires Inv(s) && IsCpu(s, c)
    requires || (s.cpus[c].pc.SwitchHigh? && pc == SwitchLocked(s.cpus[c].pc.level, s.cpus[c].pc.lk))
             || (s.cpus[c].pc.SwitchIdle? && pc.SwitchPlaced?)
    ensures Inv(Goto(StartAcquire(s, c, RunQueueLock(c)), c, pc))
  {
    assert CpuOk(s, c);
    StartAcquireOk(s, c, RunQueueLock(c));
    AcquireThenGoto(s, c, RunQueueLock(c), pc);
  }

  lemma KeepGet(s: State, c: Cid)
    requires Inv(s) && Enabled(s, Get(c))
    ensures Inv(Apply(s, Get(c)))
  {
    var s' := Apply(s, Get(c));
    assert CpuOk(s, c);
    assert Local(s, s', c);
    assert CpuOk(s', c);
    KeepLocal(s, s', c);
  }

  /** spinlock_release keeps the books of its CPU. */
  lemma LetGoOk(s: State, c: Cid, l: Lock)
    requires Inv(s) && CanRelease(s, c, l) && s.cpus[c].spin == None
    ensures var s' := LetGo(s, c, l);
            && Local(s, s', c) && Accounted(s', c) && s'.holder == s.holder - {l}
            && s'.cpus[c].mine == s.cpus[c].mine - {l} && s'.cpus[c].spin == None && s'.cpus[c].pc == s.cpus[c].pc
            && LevelOf(s', c).high == LevelOf(s, c).high && s'.threads[s.cpus[c].cur].frame == OnCpu
  {
    assert CpuOk(s, c);
    assert l in s.cpus[c].mine;
  }

  /** A release followed by a jump to pc is fine if pc's own demands are met. */
  lemma ReleaseThenGoto(s: State, c: Cid, l: Lock, pc: Point)
    requires Inv(s) && CanRelease(s, c, l) && s.cpus[c].spin == None
    requires var s' := Goto(LetGo(s, c, l), c, pc); IsCpu(s', c) && Staged(s', c)
    ensures Inv(Goto(LetGo(s, c, l), c, pc))
  {
    var s' := Goto(LetGo(s, c, l), c, pc);
    assert CpuOk(s, c);
    LetGoOk(s, c, l);
    assert forall k: Lock :: Holds(s', c, k) <==> Holds(s, c, k) && k != l;
    assert Accounted(s', c);
    KeepLocal(s, s', c);
  }

  lemma KeepRelease(s: State, step: Step)
    requires Inv(s) && Enabled(s, step)
    requires step.Release? || step.IdleOut? || step.UnlockQueue? || (step.Place? && s.cpus[step.c].pc.lk.Some?)
    ensures Inv(Apply(s, step))
  {
    var c := step.c;
    assert CpuOk(s, c);
    match step
    case Release(_, l) => KeepPlainRelease(s, c, l);
    case IdleOut(_) => KeepQueueRelease(s, c, SwitchIdle(s.cpus[c].pc.level));
    case UnlockQueue(_) => KeepQueueRelease(s, c, Unlocked(s.cpus[c].pc.level));
    case Place(_) => KeepPlaced(s, c);
  }

  lemma KeepPlainRelease(s: State, c: Cid, l: Lock)
    requires Inv(s) && Enabled(s, Release(c, l))
    ensures Inv(LetGo(s, c, l))
  {
    assert CpuOk(s, c);
    LetGoOk(s, c, l);
    ReleaseThenGoto(s, c, l, Code);
    assert LetGo(s, c, l) == Goto(LetGo(s, c, l), c, Code);
  }

  /** The run queue lock is the last. */
  lemma KeepQueueRelease(s: State, c: Cid, pc: Point)
    requires Inv(s) && CanRelease(s, c, RunQueueLock(c)) && s.cpus[c].spin == None
    requires s.cpus[c].pc.SwitchPlaced? || s.cpus[c].pc.Resumed?
    requires pc.SwitchIdle? || pc.Unlocked?
    ensures Inv(Goto(LetGo(s, c, RunQueueLock(c)), c, pc))
  {
    assert CpuOk(s, c);
    LetGoOk(s, c, RunQueueLock(c));
    ReleaseThenGoto(s, c, RunQueueLock(c), pc);
  }

  lemma KeepPlaced(s: State, c: Cid)
    requires Inv(s) && Enabled(s, Place(c)) && s.cpus[c].pc.lk.Some?
    ensures Inv(Apply(s, Place(c)))
  {
    var l := s.cpus[c].pc.lk.value;
    assert CpuOk(s, c);
    LetGoOk(s, c, l);
    ReleaseThenGoto(s, c, l, SwitchPlaced(s.cpus[c].pc.level));
  }

  lemma KeepMove(s: State, step: Step)
    requires Inv(s) && Enabled(s, step) && (step.NothingToDo? || (step.Place? && s.cpus[step.c].pc.lk.None?))
    ensures Inv(Apply(s, step))
  {
    var c, s' := step.c, Apply(s, step);
    assert CpuOk(s, c);
    assert Local(s, s', c);
    assert CpuOk(s', c);
    KeepLocal(s, s', c);
  }

  /** thread_switch on an idle CPU puts the level back and changes nothing. */
  lemma KeepIdle(s: State, c: Cid)
    requires Inv(s) && Enabled(s, IdleReturn(c))
    ensures Apply(s, IdleReturn(c)) == s
  {
    assert CpuOk(s, c);
    var t := s.cpus[c].cur;
    assert s.threads[t := s.threads[t]] == s.threads && s.cpus[c := s.cpus[c]] == s.cpus;
  }

  lemma KeepFork(s: State, c: Cid, t: Tid)
    requires Inv(s) && Enabled(s, Fork(c, t))
    ensures Inv(Apply(s, Fork(c, t)))
  {
    var s' := Apply(s, Fork(c, t));
    forall d: Cid | d < |s'.cpus| ensures CpuOk(s', d) {
      assert CpuOk(s, d);
      assert forall l: Lock :: Holds(s', d, l) <==> Holds(s, d, l);
    }
    forall u: Tid | u in s'.threads ensures ThreadOk(s', u) {
      assert u != t ==> ThreadOk(s, u);
    }
  }

  /** At a switch the outgoing thread is counted twice, once for the level and once for the
      run queue lock, which is just what the incoming thread was left with. */
  lemma KeepDispatch(s: State, c: Cid, next: Tid)
    requires Inv(s) && Enabled(s, Dispatch(c, next))
    ensures Inv(Apply(s, Dispatch(c, next)))
    ensures s.cpus[c].spinlocks == 1 && s.threads[s.cpus[c].cur].count == 2 && s.threads[next].count == 2
  {
    var s' := Apply(s, Dispatch(c, next));
    assert CpuOk(s, c);
    assert ThreadOk(s, next);
    forall d: Cid | d < |s'.cpus| ensures CpuOk(s', d) {
      assert CpuOk(s, d);
      assert d != c ==> s.cpus[d].cur != s.cpus[c].cur && s.cpus[d].cur != next;
      assert forall l: Lock :: Holds(s', d, l) <==> Holds(s, d, l);
    }
    forall d: Cid | d < |s.cpus| && d != c ensures s.cpus[d].cur != next {
      assert CpuOk(s, d) && s.cpus[d].cur != s.cpus[c].cur;
    }
    forall d: Cid, e: Cid | d < |s'.cpus| && e < |s'.cpus| && d != e ensures s'.cpus[d].cur != s'.cpus[e].cur {
      assert s.cpus[d].cur != s.cpus[e].cur;
    }
    forall u: Tid | u in s'.threads ensures ThreadOk(s', u) {
      assert ThreadOk(s, u);
    }
  }

  lemma KeepStep(s: State, step: Step)
    requires Inv(s) && Enabled(s, step)
    ensures Inv(Apply(s, step))
  {
    match step
    case Splx(_, _) => KeepSplx(s, step);
    case BeginSwitch(_, _) => KeepSplx(s, step);
    case Restore(_) => KeepSplx(s, step);
    case Acquire(_, _) => KeepAcquire(s, step);
    case LockQueue(_) => KeepAcquire(s, step);
    case IdleBack(_) => KeepAcquire(s, step);
    case Get(c) => KeepGet(s, c);
    case Release(_, _) => KeepRelease(s, step);
    case IdleOut(_) => KeepRelease(s, step);
    case UnlockQueue(_) => KeepRelease(s, step);
    case Place(c) => if s.cpus[c].pc.lk.Some? { KeepRelease(s, step); } else { KeepMove(s, step); }
    case NothingToDo(_) => KeepMove(s, step);
    case IdleReturn(c) => KeepIdle(s, c);
    case Fork(c, t) => KeepFork(s, c, t);
    case Dispatch(c, next) => KeepDispatch(s, c, next);
  }

  /** After boot: every CPU runs its own first thread with interrupts off and no spinlock. */
  function Boot(n: nat): State {
    State(seq(n, c requires 0 <= c < n => Cpu(c, Code, {}, None, 0, false)),
          BootThreads(n), map[])
  }

  function BootThreads(n: nat): (m: map<Tid, Thread>)
    ensures forall t: Tid :: t in m <==> t < n
    ensures forall t: Tid :: t in m ==> m[t] == Thread(true, 1, OnCpu)
  {
    if n == 0 then map[] else BootThreads(n - 1)[n - 1 := Thread(true, 1, OnCpu)]
  }

  lemma BootInv(n: nat)
    ensures Inv(Boot(n))
  {
  }

  predicate IsRun(run: seq<State>, steps: seq<Step>) {
    && |run| == |steps| + 1
    && forall i :: 0 <= i < |steps| ==> Enabled(run[i], steps[i]) && run[i + 1] == Apply(run[i], steps[i])
  }

  lemma {:induction false} RunInv(run: seq<State>, steps: seq<Step>, n: nat, k: nat)
    requires IsRun(run, steps) && run[0] == Boot(n) && k < |run|
    ensures Inv(run[k])
  {
    if k == 0 {
      BootInv(n);
    } else {
      RunInv(run, steps, n, k - 1);
      KeepStep(run[k - 1], steps[k - 1]);
    }
  }

  /** In every state of every run: the running thread's count is its level plus the releases
      still owed, interrupts are on exactly when that is zero (so never with a spinlock held),
      c_spinlocks counts the locks, and every switched-out or fresh thread has exactly two. */
  lemma AccountingTheorem(run: seq<State>, steps: seq<Step>, n: nat, k: nat, c: Cid, t: Tid)
    requires IsRun(run, steps) && run[0] == Boot(n) && k < |run| && c < |run[k].cpus| && t in run[k].threads
    ensures var s := run[k];
            && IsCpu(s, c)
            && LevelOf(s, c).count == Bit(LevelOf(s, c).high) + |s.cpus[c].mine|
            && s.cpus[c].spinlocks == |s.cpus[c].mine|
            && (s.cpus[c].irq <==> LevelOf(s, c).count == 0)
            && (s.cpus[c].irq ==> forall l: Lock :: !Holds(s, c, l))
            && (s.threads[t].frame != OnCpu ==> s.threads[t].count == 2 && s.threads[t].high)
  {
    RunInv(run, steps, n, k);
    assert CpuOk(run[k], c) && ThreadOk(run[k], t);
  }

  /** c_spinlocks is one at every switch, and the assertions of spinlock_release hold at every
      release in thread_switch and thread_startup, on whichever CPU the thread comes back. */
  lemma SwitchTheorem(run: seq<State>, steps: seq<Step>, n: nat, k: nat, c: Cid)
    requires IsRun(run, steps) && run[0] == Boot(n) && k < |run| && c < |run[k].cpus|
    ensures var s, pc := run[k], run[k].cpus[c].pc;
            && ((pc.SwitchPlaced? && s.cpus[c].spin == None) || pc.Resumed? ==>
                  s.cpus[c].spinlocks == 1 && CanRelease(s, c, RunQueueLock(c)))
            && (pc.SwitchLocked? && s.cpus[c].spin == None && pc.lk.Some? ==> CanRelease(s, c, pc.lk.value))
            && (pc.Unlocked? || pc.SwitchIdle? ==> s.cpus[c].spinlocks == 0)
  {
    RunInv(run, steps, n, k);
    var s := run[k];
    assert CpuOk(s, c);
    var pc := s.cpus[c].pc;
    if (pc.SwitchPlaced? && s.cpus[c].spin == None) || pc.Resumed? {
      assert RunQueueLock(c) in s.cpus[c].mine;
      assert Holds(s, c, RunQueueLock(c));
    }
    if pc.SwitchLocked? && s.cpus[c].spin == None && pc.lk.Some? {
      assert pc.lk.value in s.cpus[c].mine;
      assert Holds(s, c, pc.lk.value);
    }
  }

  /** Two CPUs never have the same spinlock. */
  lemma SpinlocksExclude(run: seq<State>, steps: seq<Step>, n: nat, k: nat, c: Cid, d: Cid, l: Lock)
    requires IsRun(run, steps) && run[0] == Boot(n) && k < |run| && c < |run[k].cpus| && d < |run[k].cpus| && c != d
    requires l in run[k].cpus[c].mine && l in run[k].cpus[d].mine
    ensures run[k].cpus[c].spin == Some(l) || run[k].cpus[d].spin == Some(l)
  {
    RunInv(run, steps, n, k);
    assert CpuOk(run[k], c) && CpuOk(run[k], d);
    assert Holds(run[k], c, l) ==> !Holds(run[k], d, l);
  }

  // ---------------------------------------------------------------- levels over time

  /** splx sets the level asked for and changes the count by the difference; raising and lowering
      undo each other. */
  lemma SplxTheorem(v: Level, high: bool)
    requires (v.irq <==> v.count == 0) && (v.high ==> v.count > 0)
    ensures var w := SetLevel(v, high); w.high == high && w.count == v.count - Bit(v.high) + Bit(high) && (w.irq <==> w.count == 0)
    ensures SetLevel(SetLevel(v, high), v.high) == v && Lower(Raise(v)) == v
  {
  }

  /** What the operations outside thread_switch do to a CPU, its thread's level and its locks. */
  ghost predicate CodeEffect(s: State, s': State, step: Step) {
    var c := step.c;
    && IsCpu(s, c) && IsCpu(s', c)
    && var v, w, cpu, cpu' := LevelOf(s, c), LevelOf(s', c), s.cpus[c], s'.cpus[c];
    match step
    case Splx(_, high) => w.high == high && cpu'.cur == cpu.cur && cpu'.mine == cpu.mine && s'.holder == s.holder
    case Acquire(_, l) =>
      && w == Level(v.high, v.count + 1, false) && cpu'.mine == cpu.mine + {l} && cpu'.spin == Some(l)
      && cpu'.spinlocks == cpu.spinlocks + 1 && s'.holder == s.holder
    case Get(_) => w == v && cpu.spin.Some? && cpu.spin.value !in s.holder && cpu' == cpu.(spin := None) && Holds(s', c, cpu.spin.value)
    case Release(_, l) =>
      && w.high == v.high && w.count == v.count - 1 && l in cpu.mine && cpu'.mine == cpu.mine - {l}
      && cpu'.spinlocks == cpu.spinlocks - 1 && l !in s'.holder
    case _ => true
  }

  lemma CodeStepTheorem(run: seq<State>, steps: seq<Step>, n: nat, k: nat)
    requires IsRun(run, steps) && run[0] == Boot(n) && k < |steps|
    requires steps[k].Splx? || steps[k].Acquire? || steps[k].Get? || steps[k].Release?
    ensures CodeEffect(run[k], run[k + 1], steps[k])
  {
    RunInv(run, steps, n, k);
    CodeStep(run[k], steps[k]);
  }

  lemma CodeStep(s: State, step: Step)
    requires Inv(s) && Enabled(s, step) && (step.Splx? || step.Acquire? || step.Get? || step.Release?)
    ensures CodeEffect(s, Apply(s, step), step)
  {
    var c := step.c;
    assert CpuOk(s, c);
    match step
    case Release(_, l) => ReleaseEffect(s, c, l);
    case Acquire(_, l) => StartAcquireOk(s, c, l);
    case _ =>
  }

  lemma ReleaseEffect(s: State, c: Cid, l: Lock)
    requires Inv(s) && Enabled(s, Release(c, l))
    ensures CodeEffect(s, LetGo(s, c, l), Release(c, l))
  {
    assert CpuOk(s, c);
    LetGoOk(s, c, l);
    assert Holds(s, c, l);
  }

  /** What each stage of thread_switch does.  Only the run queue lock and the channel's lock come
      and go; at the switch itself the outgoing thread keeps the level it is to restore, and the
      incoming one brings its own. */
  ghost predicate SwitchEffect(s: State, s': State, step: Step) {
    var c, q := step.c, RunQueueLock(step.c);
    && IsCpu(s, c) && IsCpu(s', c)
    && var v, w, cpu, cpu' := LevelOf(s, c), LevelOf(s', c), s.cpus[c], s'.cpus[c];
    && (!step.Dispatch? ==> cpu'.cur == cpu.cur)
    && match step
       case BeginSwitch(_, lk) => cpu'.pc == SwitchHigh(v.high, lk) && w.high && cpu'.mine == cpu.mine
       case LockQueue(_) =>
         && cpu.pc.SwitchHigh? && cpu'.pc == SwitchLocked(cpu.pc.level, cpu.pc.lk)
         && cpu'.mine == cpu.mine + {q} && cpu'.spin == Some(q) && w == Level(true, v.count + 1, false)
       case NothingToDo(_) => cpu.pc.SwitchLocked? && cpu'.pc == Resumed(cpu.pc.level) && cpu'.mine == cpu.mine == {q} && w == v
       case Place(_) =>
         && cpu.pc.SwitchLocked? && cpu'.pc == SwitchPlaced(cpu.pc.level) && cpu'.mine == {q} && Holds(s', c, q)
         && (cpu.pc.lk.Some? ==> Holds(s, c, cpu.pc.lk.value) && cpu.pc.lk.value !in s'.holder)
         && w == Level(true, 2, false)
       case IdleOut(_) =>
         cpu.pc.SwitchPlaced? && cpu'.pc == SwitchIdle(cpu.pc.level) && cpu'.mine == {} && q !in s'.holder && w == Level(true, 1, false)
       case IdleReturn(_) => s' == s
       case IdleBack(_) =>
         && cpu.pc.SwitchIdle? && cpu'.pc == SwitchPlaced(cpu.pc.level) && cpu'.mine == {q} && cpu'.spin == Some(q)
         && w == Level(true, 2, false)
       case Dispatch(_, next) =>
         && cpu.pc.SwitchPlaced? && cpu'.cur == next && cpu'.mine == cpu.mine && s'.holder == s.holder && w == Level(true, 2, false)
         && next in s.threads && cpu'.pc.Resumed?
         && cpu'.pc.level == (if next == cpu.cur then cpu.pc.level else s.threads[next].frame == InSwitch(true))
         && (next != cpu.cur ==> cpu.cur in s'.threads && s'.threads[cpu.cur].frame == InSwitch(cpu.pc.level))
       case UnlockQueue(_) =>
         cpu.pc.Resumed? && cpu'.pc == Unlocked(cpu.pc.level) && cpu'.mine == {} && q !in s'.holder && w == Level(true, 1, false)
       case Restore(_) => cpu.pc.Unlocked? && cpu'.pc == Code && w.high == cpu.pc.level && cpu'.mine == {}
       case _ => true
  }

  predicate InSwitching(step: Step) {
    || step.BeginSwitch? || step.LockQueue? || step.NothingToDo? || step.Place? || step.IdleOut? || step.IdleReturn? || step.IdleBack?
    || step.Dispatch? || step.UnlockQueue? || step.Restore?
  }

  lemma SwitchStepTheorem(run: seq<State>, steps: seq<Step>, n: nat, k: nat)
    requires IsRun(run, steps) && run[0] == Boot(n) && k < |steps| && InSwitching(steps[k])
    ensures SwitchEffect(run[k], run[k + 1], steps[k])
  {
    RunInv(run, steps, n, k);
    SwitchStep(run[k], steps[k]);
  }

  lemma SwitchStep(s: State, step: Step)
    requires Inv(s) && Enabled(s, step) && InSwitching(step)
    ensures SwitchEffect(s, Apply(s, step), step)
  {
    var c := step.c;
    assert CpuOk(s, c);
    match step
    case BeginSwitch(_, lk) => BeginEffect(s, c, lk);
    case NothingToDo(_) => NothingEffect(s, c);
    case LockQueue(_) => QueueTaken(s, step);
    case IdleBack(_) => QueueTaken(s, step);
    case Place(_) => PlaceEffect(s, c);
    case IdleOut(_) => QueueLeft(s, step);
    case UnlockQueue(_) => QueueLeft(s, step);
    case IdleReturn(_) => KeepIdle(s, c);
    case Dispatch(_, next) => DispatchEffect(s, c, next);
    case Restore(_) => RestoreEffect(s, c);
  }

  lemma BeginEffect(s: State, c: Cid, lk: Option<Lock>)
    requires Inv(s) && Enabled(s, BeginSwitch(c, lk))
    ensures SwitchEffect(s, Apply(s, BeginSwitch(c, lk)), BeginSwitch(c, lk))
  {
    assert CpuOk(s, c);
  }

  lemma NothingEffect(s: State, c: Cid)
    requires Inv(s) && Enabled(s, NothingToDo(c))
    ensures SwitchEffect(s, Apply(s, NothingToDo(c)), NothingToDo(c))
  {
    assert CpuOk(s, c);
  }

  lemma RestoreEffect(s: State, c: Cid)
    requires Inv(s) && Enabled(s, Restore(c))
    ensures SwitchEffect(s, Apply(s, Restore(c)), Restore(c))
  {
    assert CpuOk(s, c);
  }

  lemma QueueTaken(s: State, step: Step)
    requires Inv(s) && Enabled(s, step) && (step.LockQueue? || step.IdleBack?)
    ensures SwitchEffect(s, Apply(s, step), step)
  {
    assert CpuOk(s, step.c);
    StartAcquireOk(s, step.c, RunQueueLock(step.c));
  }

  lemma QueueLeft(s: State, step: Step)
    requires Inv(s) && Enabled(s, step) && (step.IdleOut? || step.UnlockQueue?)
    ensures SwitchEffect(s, Apply(s, step), step)
  {
    assert CpuOk(s, step.c);
    LetGoOk(s, step.c, RunQueueLock(step.c));
  }

  lemma PlaceEffect(s: State, c: Cid)
    requires Inv(s) && Enabled(s, Place(c))
    ensures SwitchEffect(s, Apply(s, Place(c)), Place(c))
  {
    assert CpuOk(s, c);
    var pc, q := s.cpus[c].pc, RunQueueLock(c);
    assert q in s.cpus[c].mine;
    assert Holds(s, c, q);
    if pc.lk.Some? { LetGoOk(s, c, pc.lk.value); }
  }

  lemma DispatchEffect(s: State, c: Cid, next: Tid)
    requires Inv(s) && Enabled(s, Dispatch(c, next))
    ensures SwitchEffect(s, Apply(s, Dispatch(c, next)), Dispatch(c, next))
  {
    assert CpuOk(s, c);
    assert ThreadOk(s, next);
    KeepDispatch(s, c, next);
  }

  /** t is between splhigh and splx of thread_switch, wherever it is, and owes itself the level
      high; a thread that has not started yet owes itself the low one. */
  ghost predicate Owes(s: State, t: Tid, high: bool) {
    && t in s.threads
    && (s.threads[t].frame == OnCpu || s.threads[t].frame == InSwitch(high) || (s.threads[t].frame == Fresh && !high))
    && forall c: Cid {:trigger s.cpus[c]} :: c < |s.cpus| && s.cpus[c].cur == t ==> s.cpus[c].pc != Code && s.cpus[c].pc.level == high
  }

  /** t leaves thread_switch, or thread_startup. */
  predicate Returns(s: State, step: Step, t: Tid) {
    step.Restore? && step.c < |s.cpus| && s.cpus[step.c].cur == t
  }

  /** Everywhere but at a switch, a CPU stays with its thread, and inside thread_switch with the
      level it is to restore; nobody's frame changes. */
  ghost predicate Keeps(s: State, s': State, c: Cid) {
    && c < |s.cpus| == |s'.cpus|
    && (forall d: Cid :: d < |s.cpus| && d != c ==> s'.cpus[d] == s.cpus[d])
    && s'.cpus[c].cur == s.cpus[c].cur
    && (s.cpus[c].pc != Code ==> s'.cpus[c].pc == Code || s'.cpus[c].pc.level == s.cpus[c].pc.level)
    && (forall t :: t in s.threads ==> t in s'.threads && s'.threads[t].frame == s.threads[t].frame)
  }

  lemma StepKeeps(s: State, step: Step)
    requires Enabled(s, step) && !step.Dispatch? && !step.Fork?
    ensures Keeps(s, Apply(s, step), step.c)
    ensures s.cpus[step.c].pc != Code && !step.Restore? ==> Apply(s, step).cpus[step.c].pc != Code
  {
  }

  lemma OwesKept(s: State, s': State, c: Cid, t: Tid, high: bool)
    requires Owes(s, t, high) && Keeps(s, s', c) && (s.cpus[c].pc != Code ==> s'.cpus[c].pc != Code)
    ensures Owes(s', t, high)
  {
    forall d: Cid | d < |s'.cpus| && s'.cpus[d].cur == t ensures s'.cpus[d].pc != Code && s'.cpus[d].pc.level == high {
      assert s.cpus[d].cur == t;
    }
  }

  lemma OwesStep(s: State, step: Step, t: Tid, high: bool)
    requires Inv(s) && Enabled(s, step) && Owes(s, t, high)
    ensures !Returns(s, step, t) ==> Owes(Apply(s, step), t, high)
    ensures Returns(s, step, t) ==> var s' := Apply(s, step); t in s'.threads && s'.threads[t].high == high
  {
    if step.Dispatch? {
      OwesDispatch(s, step.c, step.next, t, high);
    } else if step.Fork? {
      OwesFork(s, step.c, step.t, t, high);
    } else if step.Restore? {
      OwesRestore(s, step.c, t, high);
    } else {
      StepKeeps(s, step);
      OwesKept(s, Apply(s, step), step.c, t, high);
    }
  }

  lemma OwesFork(s: State, c: Cid, u: Tid, t: Tid, high: bool)
    requires Enabled(s, Fork(c, u)) && Owes(s, t, high)
    ensures Owes(Apply(s, Fork(c, u)), t, high)
  {
  }

  lemma OwesRestore(s: State, c: Cid, t: Tid, high: bool)
    requires Enabled(s, Restore(c)) && Owes(s, t, high)
    ensures var s' := Apply(s, Restore(c));
            if s.cpus[c].cur == t then t in s'.threads && s'.threads[t].high == high else Owes(s', t, high)
  {
    StepKeeps(s, Restore(c));
  }

  lemma OwesDispatch(s: State, c: Cid, next: Tid, t: Tid, high: bool)
    requires Inv(s) && Enabled(s, Dispatch(c, next)) && Owes(s, t, high)
    ensures Owes(Apply(s, Dispatch(c, next)), t, high)
  {
    assert CpuOk(s, c);
  }

  /** The run, seen by a thread that owes itself a level. */
  ghost predicate OwesOn(run: seq<State>, steps: seq<Step>, k: nat, t: Tid, high: bool)
    requires |run| == |steps| + 1
  {
    k < |steps| && Owes(run[k], t, high) && !Returns(run[k], steps[k], t) ==> Owes(run[k + 1], t, high)
  }

  lemma RunOwes(run: seq<State>, steps: seq<Step>, n: nat, k: nat, t: Tid, high: bool)
    requires IsRun(run, steps) && run[0] == Boot(n)
    ensures OwesOn(run, steps, k, t, high)
  {
    if k < |steps| && Owes(run[k], t, high) {
      RunInv(run, steps, n, k);
      OwesStep(run[k], steps[k], t, high);
    }
  }

  lemma {:induction false} OwesThrough(run: seq<State>, steps: seq<Step>, i: nat, j: nat, t: Tid, high: bool)
    requires |run| == |steps| + 1 && i <= j < |run| && Owes(run[i], t, high)
    requires forall k: nat {:trigger OwesOn(run, steps, k, t, high)} :: OwesOn(run, steps, k, t, high)
    requires forall k :: i <= k < j ==> !Returns(run[k], steps[k], t)
    ensures Owes(run[j], t, high)
    decreases j - i
  {
    if i < j {
      OwesThrough(run, steps, i, j - 1, t, high);
      assert OwesOn(run, steps, j - 1, t, high);
    }
  }

  lemma OwesAlong(run: seq<State>, steps: seq<Step>, n: nat, i: nat, j: nat, t: Tid, high: bool)
    requires IsRun(run, steps) && run[0] == Boot(n) && i <= j < |run| && Owes(run[i], t, high)
    requires forall k :: i <= k < j ==> !Returns(run[k], steps[k], t)
    ensures Owes(run[j], t, high)
  {
    forall k: nat ensures OwesOn(run, steps, k, t, high) { RunOwes(run, steps, n, k, t, high); }
    OwesThrough(run, steps, i, j, t, high);
  }

  /** A thread comes out of thread_switch at the level it went in with, whichever CPU it comes
      back on and whatever ran meanwhile; a forked thread starts at the low level. */
  lemma LevelTheorem(run: seq<State>, steps: seq<Step>, n: nat, i: nat, j: nat, t: Tid)
    requires IsRun(run, steps) && run[0] == Boot(n) && i < j < |steps| && Returns(run[j], steps[j], t)
    requires forall k :: i < k < j ==> !Returns(run[k], steps[k], t)
    ensures steps[i].BeginSwitch? && IsCpu(run[i], steps[i].c) && run[i].cpus[steps[i].c].cur == t ==>
              t in run[i].threads && t in run[j + 1].threads && run[j + 1].threads[t].high == run[i].threads[t].high
    ensures steps[i].Fork? && steps[i].t == t ==> t in run[j + 1].threads && !run[j + 1].threads[t].high
  {
    RunInv(run, steps, n, i);
    RunInv(run, steps, n, j);
    var s := run[i];
    if steps[i].BeginSwitch? && IsCpu(s, steps[i].c) && s.cpus[steps[i].c].cur == t {
      BeginOwes(s, steps[i], t);
      OwesAlong(run, steps, n, i + 1, j, t, s.threads[t].high);
      OwesStep(run[j], steps[j], t, s.threads[t].high);
    } else if steps[i].Fork? && steps[i].t == t {
      BeginOwes(s, steps[i], t);
      OwesAlong(run, steps, n, i + 1, j, t, false);
      OwesStep(run[j], steps[j], t, false);
    }
  }

  lemma BeginOwes(s: State, step: Step, t: Tid)
    requires Inv(s) && Enabled(s, step)
    ensures step.BeginSwitch? && s.cpus[step.c].cur == t ==> Owes(Apply(s, step), t, s.threads[t].high)
    ensures step.Fork? && step.t == t ==> Owes(Apply(s, step), t, false)
  {
    assert CpuOk(s, step.c);
    if step.Fork? { forall c: Cid | c < |s.cpus| ensures s.cpus[c].cur in s.threads { assert CpuOk(s, c); } }
  }
}
