/** Condition variables: cv_wait, cv_signal and cv_broadcast with their lock, any number of
    threads, one step at a time.  The two spinlocks (the CV's and the lock's) are variables of
    the machine.  Waiting inside lock_acquire is the subject of module Semaphore; here the
    call completes in one step, when both the lock and its spinlock are free. */
module CondVar {

  import opened Collections
  import Bits

  type Tid = nat

  /** What a release of the lock is part of. */
  datatype Cause = Unlock | Waiting | Waking(all: bool)

  datatype Point =
    | Idle
    | WantLock                // in lock_acquire
    | Locked                  // has the lock, in its own code
    | RelSpin(why: Cause)     // in lock_release, spinning for the lock's spinlock
    | RelIn(why: Cause)       // has that spinlock, lock not yet given up
    | RelFreed(why: Cause)    // has that spinlock, lock given up
    | WaitSpin                // in cv_wait, spinning for the CV's spinlock
    | WaitIn                  // has it, and the lock
    | WaitGap                 // lock_release has returned
    | WaitSleep               // cv_count incremented, entering wchan_sleep
    | WaitQueued              // on the channel, CV's spinlock not yet let go by thread_switch
    | WaitAsleep              // on the channel
    | WaitWoken               // spinning for the CV's spinlock again
    | WaitBack                // has it
    | WaitDone                // cv_count decremented
    | WakeSpin(all: bool)     // in cv_signal or cv_broadcast, spinning for the CV's spinlock
    | WakeIn(all: bool)       // has it, about to call wchan_wakeone or wchan_wakeall
    | WakeDone

  datatype State = State(
    owner: Option<Tid>, lockSpin: Option<Tid>, cvSpin: Option<Tid>, chan: seq<Tid>, count: nat, pcs: map<Tid, Point>)

  datatype Step =
    | CallAcquire(t: Tid)
    | Acquire(t: Tid)
    | CallRelease(t: Tid)
    | CallWait(t: Tid)
    | CallWake(t: Tid, all: bool)
    | SpinLock(t: Tid)      // gets the lock's spinlock
    | GiveUp(t: Tid)        // gives up the lock
    | Released(t: Tid)      // lets go of the lock's spinlock
    | SpinCv(t: Tid)        // gets the CV's spinlock
    | CallLockRelease(t: Tid)
    | Count(t: Tid)
    | Enqueue(t: Tid)
    | SwitchAway(t: Tid)
    | Uncount(t: Tid)
    | Wake(t: Tid)
    | LeaveCv(t: Tid)

  function Pc(s: State, t: Tid): Point {
    if t in s.pcs then s.pcs[t] else Idle
  }

  function At(s: State, t: Tid, pc: Point): State {
    s.(pcs := s.pcs[t := pc])
  }

  predicate Enabled(s: State, step: Step) {
    var pc := Pc(s, step.t);
    match step
    case CallAcquire(_) => pc == Idle
    case Acquire(_) => pc == WantLock && s.lockSpin == None && s.owner == None
    case CallRelease(_) => pc == Locked
    case CallWait(_) => pc == Locked
    case CallWake(_, _) => pc == Locked
    case SpinLock(_) => pc.RelSpin? && s.lockSpin == None
    case GiveUp(_) => pc.RelIn?
    case Released(_) => pc.RelFreed?
    case SpinCv(_) => s.cvSpin == None && (pc == WaitSpin || pc == WaitWoken || pc.WakeSpin?)
    case CallLockRelease(_) => pc == WaitIn
    case Count(_) => pc == WaitGap
    case Enqueue(_) => pc == WaitSleep
    case SwitchAway(_) => pc == WaitQueued
    case Uncount(_) => pc == WaitBack
    case Wake(_) => pc.WakeIn?
    case LeaveCv(_) => pc == WaitDone || pc == WakeDone
  }

  /** wchan_wakeone. */
  function WakeOne(s: State): State {
    if s.chan == [] then s else At(s, s.chan[0], WaitWoken).(chan := s.chan[1..])
  }

  /** wchan_wakeall. */
  function WakeAll(s: State): State
    decreases |s.chan|
  {
    if s.chan == [] then s else WakeAll(WakeOne(s))
  }

  function Apply(s: State, step: Step): State
    requires Enabled(s, step)
  {
    var t := step.t;
    var pc := Pc(s, t);
    match step
    case CallAcquire(_) => At(s, t, WantLock)
    case Acquire(_) => At(s, t, Locked).(owner := Some(t))
    case CallRelease(_) => At(s, t, RelSpin(Unlock))
    case CallWait(_) => At(s, t, WaitSpin)
    case CallWake(_, all) => At(s, t, RelSpin(Waking(all)))
    case SpinLock(_) => At(s, t, RelIn(pc.why)).(lockSpin := Some(t))
    case GiveUp(_) => At(s, t, RelFreed(pc.why)).(owner := None)
    case Released(_) =>
      At(s, t, match pc.why
               case Unlock => Idle
               case Waiting => WaitGap
               case Waking(all) => WakeSpin(all)).(lockSpin := None)
    case SpinCv(_) =>
      At(s, t, if pc == WaitSpin then WaitIn else if pc == WaitWoken then WaitBack else WakeIn(pc.all)).(cvSpin := Some(t))
    case CallLockRelease(_) => At(s, t, RelSpin(Waiting))
    case Count(_) => At(s, t, WaitSleep).(count := (s.count + 1) % Bits.W)
    case Enqueue(_) => At(s, t, WaitQueued).(chan := s.chan + [t])
    case SwitchAway(_) => At(s, t, WaitAsleep).(cvSpin := None)
    case Uncount(_) => At(s, t, WaitDone).(count := (s.count - 1) % Bits.W)
    case Wake(_) => At(Woken(s, pc.all), t, WakeDone)
    case LeaveCv(_) => At(s, t, WantLock).(cvSpin := None)
  }

  function Boot(): State {
    State(None, None, None, [], 0, map[])
  }

  predicate Owns(pc: Point) {
    pc == Locked || pc.RelSpin? || pc.RelIn? || pc == WaitSpin || pc == WaitIn
  }

  predicate HoldsLockSpin(pc: Point) {
    pc.RelIn? || pc.RelFreed?
  }

  predicate HoldsCvSpin(pc: Point) {
    || ((pc.RelSpin? || pc.RelIn? || pc.RelFreed?) && pc.why == Waiting)
    || pc == WaitIn || pc == WaitGap || pc == WaitSleep || pc == WaitQueued || pc == WaitBack || pc == WaitDone
    || pc.WakeIn? || pc == WakeDone
  }

  predicate OnChannel(pc: Point) {
    pc == WaitQueued || pc == WaitAsleep
  }

  predicate Counted(pc: Point) {
    pc == WaitSleep || pc == WaitQueued || pc == WaitAsleep || pc == WaitWoken || pc == WaitBack
  }

  /** Has given up the lock in cv_wait and is not on the channel yet. */
  predicate InGap(pc: Point) {
    pc == RelFreed(Waiting) || pc == WaitGap || pc == WaitSleep
  }

  /** Has given up the lock in cv_wait and has not been woken. */
  predicate Waiter(pc: Point) {
    InGap(pc) || OnChannel(pc)
  }

  function CountedSet(s: State): set<Tid> {
    set t | t in s.pcs && Counted(s.pcs[t])
  }

  ghost predicate Held(s: State) {
    && (forall t: Tid :: Owns(Pc(s, t)) <==> s.owner == Some(t))
    && (forall t: Tid :: HoldsLockSpin(Pc(s, t)) <==> s.lockSpin == Some(t))
    && (forall t: Tid :: HoldsCvSpin(Pc(s, t)) <==> s.cvSpin == Some(t))
  }

  ghost predicate Inv(s: State) {
    && Held(s)
    && (forall t: Tid :: t in s.chan <==> OnChannel(Pc(s, t)))
    && NoDuplicates(s.chan)
    && s.count == |CountedSet(s)| % Bits.W
  }

  lemma CountedChange(s: State, s': State, t: Tid)
    requires forall u: Tid :: u != t ==> Pc(s', u) == Pc(s, u)
    ensures |CountedSet(s')| == |CountedSet(s)| - (if Counted(Pc(s, t)) then 1 else 0) + (if Counted(Pc(s', t)) then 1 else 0)
  {
    forall u: Tid | u != t ensures u in CountedSet(s) <==> u in CountedSet(s') {
      assert Pc(s', u) == Pc(s, u);
    }
    assert Counted(Pc(s, t)) <==> t in CountedSet(s);
    assert Counted(Pc(s', t)) <==> t in CountedSet(s');
    SizesDiffer(CountedSet(s), CountedSet(s'), t);
  }

  /** Steps that leave channel and count alone. */
  lemma KeepMove(s: State, step: Step)
    requires Inv(s) && Enabled(s, step)
    requires !step.Count? && !step.Uncount? && !step.Enqueue? && !step.Wake?
    ensures Inv(Apply(s, step))
  {
    if step.CallAcquire? || step.CallRelease? || step.CallWait? || step.CallWake? || step.CallLockRelease? {
      KeepHeldCalls(s, step);
    } else if step.Acquire? || step.SpinLock? || step.GiveUp? || step.Released? {
      KeepHeldLock(s, step);
    } else {
      KeepHeldCv(s, step);
    }
    KeepChannel(s, step);
    KeepCounted(s, step);
  }

  lemma KeepChannel(s: State, step: Step)
    requires Inv(s) && Enabled(s, step)
    requires !step.Count? && !step.Uncount? && !step.Enqueue? && !step.Wake?
    ensures Apply(s, step).chan == s.chan && forall t: Tid :: t in s.chan <==> OnChannel(Pc(Apply(s, step), t))
  {
  }

  lemma KeepCounted(s: State, step: Step)
    requires Enabled(s, step) && s.count == |CountedSet(s)| % Bits.W
    requires !step.Count? && !step.Uncount? && !step.Enqueue? && !step.Wake?
    ensures Apply(s, step).count == |CountedSet(Apply(s, step))| % Bits.W
  {
    CountedChange(s, Apply(s, step), step.t);
  }

  lemma KeepHeldCalls(s: State, step: Step)
    requires Held(s) && Enabled(s, step)
    requires step.CallAcquire? || step.CallRelease? || step.CallWait? || step.CallWake? || step.CallLockRelease?
    ensures Held(Apply(s, step))
  {
  }

  lemma KeepHeldLock(s: State, step: Step)
    requires Held(s) && Enabled(s, step)
    requires step.Acquire? || step.SpinLock? || step.GiveUp? || step.Released?
    ensures Held(Apply(s, step))
  {
  }

  lemma KeepHeldCv(s: State, step: Step)
    requires Held(s) && Enabled(s, step) && (step.SpinCv? || step.SwitchAway? || step.LeaveCv?)
    ensures Held(Apply(s, step))
  {
    match step
    case SpinCv(t) => KeepSpinCv(s, t);
    case SwitchAway(_) =>
    case LeaveCv(_) =>
  }

  lemma KeepSpinCv(s: State, t: Tid)
    requires Held(s) && Enabled(s, SpinCv(t))
    ensures Held(Apply(s, SpinCv(t)))
  {
  }

  lemma StepModWord(x: nat)
    ensures (x % Bits.W + 1) % Bits.W == (x + 1) % Bits.W
    ensures x > 0 ==> (x % Bits.W - 1) % Bits.W == (x - 1) % Bits.W
  {
  }

  lemma KeepCount(s: State, step: Step)
    requires Inv(s) && Enabled(s, step) && (step.Count? || step.Uncount?)
    ensures Inv(Apply(s, step))
  {
    var s' := Apply(s, step);
    CountedChange(s, s', step.t);
    StepModWord(|CountedSet(s)|);
    assert Held(s');
  }

  lemma KeepEnqueue(s: State, t: Tid)
    requires Inv(s) && Enabled(s, Enqueue(t))
    ensures Inv(Apply(s, Enqueue(t)))
  {
    CountedChange(s, Apply(s, Enqueue(t)), t);
  }

  lemma KeepWakeOne(s: State, waker: Tid)
    requires Inv(s) && Pc(s, waker).WakeIn?
    ensures Inv(WakeOne(s))
    ensures forall u: Tid :: Pc(WakeOne(s), u) == (if s.chan != [] && u == s.chan[0] then WaitWoken else Pc(s, u))
  {
    if s.chan != [] {
      var s', first := WakeOne(s), s.chan[0];
      assert first in s.chan;
      assert Pc(s, first) == WaitAsleep;
      CountedChange(s, s', first);
      assert s.chan == [first] + s'.chan;
      assert first !in s'.chan;
      forall u: Tid ensures Pc(s', u) == (if u == first then WaitWoken else Pc(s, u)) {}
      forall u: Tid ensures u in s'.chan <==> OnChannel(Pc(s', u)) {
        assert u in s.chan <==> u == first || u in s'.chan;
      }
      assert Held(s');
    }
  }

  /** Everyone on the channel is woken and nobody else notices. */
  lemma {:induction false} KeepWakeAll(s: State, waker: Tid)
    requires Inv(s) && Pc(s, waker).WakeIn?
    ensures Inv(WakeAll(s)) && WakeAll(s).chan == []
    ensures forall u: Tid :: Pc(WakeAll(s), u) == (if u in s.chan then WaitWoken else Pc(s, u))
    decreases |s.chan|
  {
    if s.chan != [] {
      KeepWakeOne(s, waker);
      KeepWakeAll(WakeOne(s), waker);
      forall u: Tid ensures Pc(WakeAll(s), u) == (if u in s.chan then WaitWoken else Pc(s, u)) {
        assert u in s.chan <==> u == s.chan[0] || u in s.chan[1..];
      }
    }
  }

  /** Whom wchan_wakeone or wchan_wakeall takes off the channel. */
  predicate Chosen(s: State, all: bool, u: Tid) {
    u in s.chan && (all || u == s.chan[0])
  }

  function Woken(s: State, all: bool): State {
    if all then WakeAll(s) else WakeOne(s)
  }

  lemma WokenPoint(s: State, waker: Tid, u: Tid)
    requires Inv(s) && Pc(s, waker).WakeIn?
    ensures var all := Pc(s, waker).all;
            Inv(Woken(s, all)) && Pc(Woken(s, all), u) == (if Chosen(s, all, u) then WaitWoken else Pc(s, u))
  {
    if Pc(s, waker).all { KeepWakeAll(s, waker); } else { KeepWakeOne(s, waker); }
  }

  lemma KeepWake(s: State, t: Tid)
    requires Inv(s) && Enabled(s, Wake(t))
    ensures Inv(Apply(s, Wake(t)))
  {
    WokenPoint(s, t, t);
    MarkDone(Woken(s, Pc(s, t).all), t);
  }

  lemma MarkDone(s: State, t: Tid)
    requires Inv(s) && Pc(s, t).WakeIn?
    ensures Inv(At(s, t, WakeDone))
  {
    var s' := At(s, t, WakeDone);
    CountedChange(s, s', t);
    MarkDoneHeld(s, t);
  }

  lemma MarkDoneHeld(s: State, t: Tid)
    requires Held(s) && Pc(s, t).WakeIn?
    ensures Held(At(s, t, WakeDone))
  {
    assert HoldsCvSpin(WakeDone) && !Owns(WakeDone) && !HoldsLockSpin(WakeDone);
  }

  lemma KeepStep(s: State, step: Step)
    requires Inv(s) && Enabled(s, step)
    ensures Inv(Apply(s, step))
  {
    match step
    case Count(_) => KeepCount(s, step);
    case Uncount(_) => KeepCount(s, step);
    case Enqueue(t) => KeepEnqueue(s, t);
    case Wake(t) => KeepWake(s, t);
    case _ => KeepMove(s, step);
  }

  predicate IsRun(run: seq<State>, steps: seq<Step>) {
    && |run| == |steps| + 1
    && run[0] == Boot()
    && forall i :: 0 <= i < |steps| ==> Enabled(run[i], steps[i]) && run[i + 1] == Apply(run[i], steps[i])
  }

  lemma {:induction false} RunInv(run: seq<State>, steps: seq<Step>, k: nat)
    requires IsRun(run, steps) && k < |run|
    ensures Inv(run[k])
  {
    if k == 0 {
    } else {
      RunInv(run, steps, k - 1);
      KeepStep(run[k - 1], steps[k - 1]);
    }
  }

  /** A thread that has given up the lock in cv_wait shuts everyone out of wchan_wakeone and
      wchan_wakeall on this CV until it is on the channel. */
  lemma NoWakeInGap(run: seq<State>, steps: seq<Step>, k: nat, w: Tid, x: Tid)
    requires IsRun(run, steps) && k < |run| && InGap(Pc(run[k], w))
    ensures run[k].cvSpin == Some(w) && !Pc(run[k], x).WakeIn?
  {
    RunInv(run, steps, k);
  }

  /** So a waker finds on the channel exactly those who gave up the lock and have not been
      woken: a signal wakes the one who has waited longest if there is any, a broadcast
      leaves nobody waiting. */
  lemma WakersMissNobody(run: seq<State>, steps: seq<Step>, k: nat, x: Tid, w: Tid)
    requires IsRun(run, steps) && k < |steps| && steps[k] == Wake(x)
    ensures w in run[k].chan <==> Waiter(Pc(run[k], w))
    ensures Waiter(Pc(run[k + 1], w)) <==> Waiter(Pc(run[k], w)) && !Pc(run[k], x).all && w != run[k].chan[0]
    ensures Waiter(Pc(run[k], w)) && !Waiter(Pc(run[k + 1], w)) ==> Pc(run[k + 1], w) == WaitWoken
  {
    RunInv(run, steps, k);
    if InGap(Pc(run[k], w)) { NoWakeInGap(run, steps, k, w, x); }
    assert Enabled(run[k], steps[k]);
    WakeFinds(run[k], x, w);
  }

  lemma WakeFinds(s: State, x: Tid, w: Tid)
    requires Inv(s) && Enabled(s, Wake(x)) && !InGap(Pc(s, w))
    ensures var s' := Apply(s, Wake(x));
            && (w in s.chan <==> Waiter(Pc(s, w)))
            && (Waiter(Pc(s', w)) <==> Waiter(Pc(s, w)) && !Pc(s, x).all && w != s.chan[0])
            && (Waiter(Pc(s, w)) && !Waiter(Pc(s', w)) ==> Pc(s', w) == WaitWoken)
  {
    WokenPoint(s, x, w);
    assert w != x ==> Pc(Apply(s, Wake(x)), w) == Pc(Woken(s, Pc(s, x).all), w);
  }

  /** Stated over time: between the moment a waiter gives up the lock and any later wake, the
      waiter has been on the channel. */
  lemma QueuedBeforeAnyWake(run: seq<State>, steps: seq<Step>, i: nat, j: nat, w: Tid, x: Tid)
    requires IsRun(run, steps) && i < j < |steps| && InGap(Pc(run[i], w)) && steps[j] == Wake(x)
    ensures exists m :: i < m <= j && w in run[m].chan
  {
    if InGap(Pc(run[j], w)) { NoWakeInGap(run, steps, j, w, x); }
    LeavesGapForChannel(run, steps, i, j, w);
  }

  lemma {:induction false} LeavesGapForChannel(run: seq<State>, steps: seq<Step>, i: nat, j: nat, w: Tid)
    requires IsRun(run, steps) && i < j < |run| && InGap(Pc(run[i], w)) && !InGap(Pc(run[j], w))
    ensures exists m :: i < m <= j && w in run[m].chan
    decreases j - i
  {
    GapStep(run, steps, i, w);
    if InGap(Pc(run[i + 1], w)) {
      LeavesGapForChannel(run, steps, i + 1, j, w);
    }
  }

  lemma GapStep(run: seq<State>, steps: seq<Step>, i: nat, w: Tid)
    requires IsRun(run, steps) && i < |steps| && InGap(Pc(run[i], w))
    ensures InGap(Pc(run[i + 1], w)) || w in run[i + 1].chan
  {
    RunInv(run, steps, i);
    match steps[i]
    case Wake(x) => NoWakeInGap(run, steps, i, w, x);
    case _ =>
  }

  /** Whoever enters wchan_sleep has the CV's spinlock and no other. */
  lemma OneSpinlockAtSleep(run: seq<State>, steps: seq<Step>, k: nat, w: Tid)
    requires IsRun(run, steps) && k < |run| && Pc(run[k], w) == WaitSleep
    ensures run[k].cvSpin == Some(w) && run[k].lockSpin != Some(w) && run[k].owner != Some(w)
  {
    RunInv(run, steps, k);
  }

  /** cv_count is the number of threads between the increment and the decrement. */
  lemma CountTheorem(run: seq<State>, steps: seq<Step>, k: nat)
    requires IsRun(run, steps) && k < |run|
    ensures run[k].count == |CountedSet(run[k])| % Bits.W
    ensures forall t: Tid :: t in run[k].chan ==> t in CountedSet(run[k])
  {
    RunInv(run, steps, k);
    forall t: Tid | t in run[k].chan ensures t in CountedSet(run[k]) {
      assert OnChannel(Pc(run[k], t));
    }
  }

  // ---------------------------------------------------------------- whole calls

  /** What a waker does to the channel: a signal takes the first, a broadcast everyone. */
  predicate Wakes(s: State, s': State, all: bool) {
    s'.chan == if all || s.chan == [] then [] else s.chan[1..]
  }

  /** Where t, at pc, goes with a step: along its own path, or woken by another thread. */
  predicate Follows(pc: Point, step: Step, t: Tid, pc': Point) {
    if step.t != t then pc' == pc || (step.Wake? && pc == WaitAsleep && pc' == WaitWoken) else
    && (step.GiveUp? ==> pc.RelIn?) && (step.Enqueue? ==> pc == WaitSleep) && (step.Wake? ==> pc.WakeIn?)
    && match pc
      case Idle => pc' == WantLock
      case WantLock => pc' == Locked
      case Locked => step.CallRelease? || step.CallWait? || step.CallWake?
      case RelSpin(why) => pc' == RelIn(why)
      case RelIn(why) => pc' == RelFreed(why) && step.GiveUp?
      case RelFreed(why) => pc' == (match why case Unlock => Idle case Waiting => WaitGap case Waking(all) => WakeSpin(all))
      case WaitSpin => pc' == WaitIn
      case WaitIn => pc' == RelSpin(Waiting)
      case WaitGap => pc' == WaitSleep
      case WaitSleep => pc' == WaitQueued && step.Enqueue?
      case WaitQueued => pc' == WaitAsleep
      case WaitAsleep => false
      case WaitWoken => pc' == WaitBack
      case WaitBack => pc' == WaitDone
      case WaitDone => pc' == WantLock
      case WakeSpin(all) => pc' == WakeIn(all)
      case WakeIn(_) => pc' == WakeDone && step.Wake?
      case WakeDone => pc' == WantLock
  }

  /** What else a step of t does that its calls are about. */
  predicate Does(s: State, s': State, step: Step, t: Tid) {
    && (step == GiveUp(t) ==> s.owner == Some(t) && s'.owner == None)
    && (step == Enqueue(t) ==> s'.chan == s.chan + [t])
    && (step == Wake(t) ==> Pc(s, t).WakeIn? && Wakes(s, s', Pc(s, t).all))
    && (step.t != t && Pc(s', t) != Pc(s, t) ==> t in s.chan && t !in s'.chan)
  }

  lemma NextPoint(run: seq<State>, steps: seq<Step>, k: nat, t: Tid)
    requires IsRun(run, steps) && k < |steps|
    ensures Follows(Pc(run[k], t), steps[k], t, Pc(run[k + 1], t)) && Does(run[k], run[k + 1], steps[k], t)
  {
    RunInv(run, steps, k);
    StepFollows(run[k], steps[k], t);
  }

  lemma StepFollows(s: State, step: Step, t: Tid)
    requires Inv(s) && Enabled(s, step)
    ensures Follows(Pc(s, t), step, t, Pc(Apply(s, step), t)) && Does(s, Apply(s, step), step, t)
  {
    if step.Wake? { WakeFollows(s, step.t, t); }
  }

  lemma WakeFollows(s: State, x: Tid, t: Tid)
    requires Inv(s) && Enabled(s, Wake(x))
    ensures Follows(Pc(s, t), Wake(x), t, Pc(Apply(s, Wake(x)), t)) && Does(s, Apply(s, Wake(x)), Wake(x), t)
  {
    WokenPoint(s, x, t);
    WakeChannel(s, x);
  }

  lemma WakeChannel(s: State, x: Tid)
    requires Inv(s) && Pc(s, x).WakeIn?
    ensures Wakes(s, Woken(s, Pc(s, x).all), Pc(s, x).all)
    ensures forall t: Tid :: Chosen(s, Pc(s, x).all, t) ==> t !in Woken(s, Pc(s, x).all).chan && (t != x ==> Pc(s, t) == WaitAsleep)
  {
    if Pc(s, x).all { KeepWakeAll(s, x); } else { KeepWakeOne(s, x); }
  }

  /** Between i and m, t is in a call: neither outside nor in its own code. */
  predicate InCall(run: seq<State>, i: nat, m: nat, t: Tid)
    requires i <= m < |run|
  {
    forall k :: i < k <= m ==> Pc(run[k], t) != Idle && Pc(run[k], t) != Locked
  }

  /** At a, t gives up the lock. */
  predicate GivesUpAt(run: seq<State>, steps: seq<Step>, a: nat, t: Tid) {
    a < |steps| && a + 1 < |run| && steps[a] == GiveUp(t) && run[a].owner == Some(t) && run[a + 1].owner == None
  }

  /** At b, t goes to the end of the channel. */
  predicate SleepsAt(run: seq<State>, steps: seq<Step>, b: nat, t: Tid) {
    b < |steps| && b + 1 < |run| && steps[b] == Enqueue(t) && run[b + 1].chan == run[b].chan + [t]
  }

  /** At c, somebody takes t off the channel. */
  predicate RousedAt(run: seq<State>, steps: seq<Step>, c: nat, t: Tid) {
    c < |steps| && c + 1 < |run| && steps[c].Wake? && t in run[c].chan && t !in run[c + 1].chan
  }

  /** At b, t takes the first or all off the channel. */
  predicate WakesAt(run: seq<State>, steps: seq<Step>, b: nat, t: Tid, all: bool) {
    b < |steps| && b + 1 < |run| && steps[b] == Wake(t) && Wakes(run[b], run[b + 1], all)
  }

  /** After i and before m, t wakes nobody, except at b. */
  predicate OnlyAt(steps: seq<Step>, i: nat, m: nat, b: nat, t: Tid)
    requires m <= |steps|
  {
    forall k: nat :: i < k < m && k != b && steps[k].Wake? ==> steps[k].t != t
  }

  /** Where a thread in cv_wait since i can be at m, and what it has done by then. */
  predicate WaitSoFar(run: seq<State>, steps: seq<Step>, i: nat, a: nat, b: nat, c: nat, m: nat, t: Tid)
    requires |run| == |steps| + 1 && m <= |steps|
  {
    match Pc(run[m], t)
    case WaitSpin => true
    case WaitIn => true
    case RelSpin(why) => why == Waiting
    case RelIn(why) => why == Waiting
    case RelFreed(why) => why == Waiting && i < a < m && GivesUpAt(run, steps, a, t)
    case WaitGap => i < a < m && GivesUpAt(run, steps, a, t)
    case WaitSleep => i < a < m && GivesUpAt(run, steps, a, t)
    case WaitQueued => i < a < b < m && GivesUpAt(run, steps, a, t) && SleepsAt(run, steps, b, t)
    case WaitAsleep => i < a < b < m && GivesUpAt(run, steps, a, t) && SleepsAt(run, steps, b, t)
    case WaitWoken => WaitPast(run, steps, i, a, b, c, m, t)
    case WaitBack => WaitPast(run, steps, i, a, b, c, m, t)
    case WaitDone => WaitPast(run, steps, i, a, b, c, m, t)
    case WantLock => WaitPast(run, steps, i, a, b, c, m, t)
    case _ => false
  }

  predicate WaitPast(run: seq<State>, steps: seq<Step>, i: nat, a: nat, b: nat, c: nat, m: nat, t: Tid) {
    i < a < b < c < m && GivesUpAt(run, steps, a, t) && SleepsAt(run, steps, b, t) && RousedAt(run, steps, c, t)
  }

  /** The same for cv_signal and cv_broadcast. */
  predicate WakeSoFar(run: seq<State>, steps: seq<Step>, i: nat, a: nat, b: nat, m: nat, t: Tid, all: bool)
    requires |run| == |steps| + 1 && m <= |steps|
  {
    match Pc(run[m], t)
    case RelSpin(why) => why == Waking(all) && OnlyAt(steps, i, m, i, t)
    case RelIn(why) => why == Waking(all) && OnlyAt(steps, i, m, i, t)
    case RelFreed(why) => why == Waking(all) && OnlyAt(steps, i, m, i, t) && i < a < m && GivesUpAt(run, steps, a, t)
    case WakeSpin(x) => x == all && OnlyAt(steps, i, m, i, t) && i < a < m && GivesUpAt(run, steps, a, t)
    case WakeIn(x) => x == all && OnlyAt(steps, i, m, i, t) && i < a < m && GivesUpAt(run, steps, a, t)
    case WakeDone => WakePast(run, steps, i, a, b, m, t, all)
    case WantLock => WakePast(run, steps, i, a, b, m, t, all)
    case _ => false
  }

  predicate WakePast(run: seq<State>, steps: seq<Step>, i: nat, a: nat, b: nat, m: nat, t: Tid, all: bool)
    requires m <= |steps|
  {
    i < a < b < m && GivesUpAt(run, steps, a, t) && WakesAt(run, steps, b, t, all) && OnlyAt(steps, i, m, b, t)
  }

  lemma FirstPoint(run: seq<State>, steps: seq<Step>, i: nat, t: Tid)
    requires IsRun(run, steps) && i < |steps|
    ensures steps[i] == CallWait(t) ==> Pc(run[i + 1], t) == WaitSpin
    ensures forall all :: steps[i] == CallWake(t, all) ==> Pc(run[i + 1], t) == RelSpin(Waking(all))
    ensures steps[i] == CallAcquire(t) ==> Pc(run[i + 1], t) == WantLock
    ensures steps[i] == CallRelease(t) ==> Pc(run[i + 1], t) == RelSpin(Unlock)
  {
  }

  lemma WaitOnward(run: seq<State>, steps: seq<Step>, i: nat, a: nat, b: nat, c: nat, m: nat, t: Tid) returns (a': nat, b': nat, c': nat)
    requires |run| == |steps| + 1 && i < m < |steps| && WaitSoFar(run, steps, i, a, b, c, m, t)
    requires Follows(Pc(run[m], t), steps[m], t, Pc(run[m + 1], t)) && Does(run[m], run[m + 1], steps[m], t)
    ensures Pc(run[m + 1], t) != Locked ==> WaitSoFar(run, steps, i, a', b', c', m + 1, t)
    ensures Pc(run[m + 1], t) == Locked ==> WaitPast(run, steps, i, a', b', c', m + 1, t)
    ensures Pc(run[m + 1], t) != Idle
  {
    a', b', c' := a, b, c;
    if steps[m].t != t { if Pc(run[m + 1], t) != Pc(run[m], t) { c' := m; } }
    else if steps[m].GiveUp? { a' := m; }
    else if steps[m].Enqueue? { b' := m; }
  }

  lemma WakeOnward(run: seq<State>, steps: seq<Step>, i: nat, a: nat, b: nat, m: nat, t: Tid, all: bool) returns (a': nat, b': nat)
    requires |run| == |steps| + 1 && i < m < |steps| && WakeSoFar(run, steps, i, a, b, m, t, all)
    requires Follows(Pc(run[m], t), steps[m], t, Pc(run[m + 1], t)) && Does(run[m], run[m + 1], steps[m], t)
    ensures Pc(run[m + 1], t) != Locked ==> WakeSoFar(run, steps, i, a', b', m + 1, t, all)
    ensures Pc(run[m + 1], t) == Locked ==> WakePast(run, steps, i, a', b', m + 1, t, all)
    ensures Pc(run[m + 1], t) != Idle
  {
    a', b' := a, b;
    if steps[m] == GiveUp(t) { a' := m; }
    if steps[m] == Wake(t) { b' := m; }
  }

  /** The run, seen from t. */
  predicate Next(run: seq<State>, steps: seq<Step>, k: nat, t: Tid)
    requires |run| == |steps| + 1
  {
    k < |steps| ==> Follows(Pc(run[k], t), steps[k], t, Pc(run[k + 1], t)) && Does(run[k], run[k + 1], steps[k], t)
  }

  ghost predicate Seen(run: seq<State>, steps: seq<Step>, t: Tid) {
    |run| == |steps| + 1 && forall k: nat {:trigger Next(run, steps, k, t)} :: Next(run, steps, k, t)
  }

  lemma RunSeen(run: seq<State>, steps: seq<Step>, t: Tid)
    requires IsRun(run, steps)
    ensures Seen(run, steps, t)
  {
    forall k: nat ensures Next(run, steps, k, t) { if k < |steps| { NextPoint(run, steps, k, t); } }
  }

  lemma {:induction false} WaitProgress(run: seq<State>, steps: seq<Step>, i: nat, m: nat, t: Tid) returns (a: nat, b: nat, c: nat)
    requires Seen(run, steps, t) && i < m < |run| && Pc(run[i + 1], t) == WaitSpin && InCall(run, i, m, t)
    ensures WaitSoFar(run, steps, i, a, b, c, m, t)
    decreases m
  {
    a, b, c := i, i, i;
    if i < m - 1 {
      a, b, c := WaitProgress(run, steps, i, m - 1, t);
      assert Next(run, steps, m - 1, t);
      a, b, c := WaitOnward(run, steps, i, a, b, c, m - 1, t);
    }
  }

  lemma {:induction false} WakeProgress(run: seq<State>, steps: seq<Step>, i: nat, m: nat, t: Tid, all: bool) returns (a: nat, b: nat)
    requires Seen(run, steps, t) && i < m < |run| && Pc(run[i + 1], t) == RelSpin(Waking(all)) && InCall(run, i, m, t)
    ensures WakeSoFar(run, steps, i, a, b, m, t, all)
    decreases m
  {
    a, b := i, i;
    if i < m - 1 {
      a, b := WakeProgress(run, steps, i, m - 1, t, all);
      assert Next(run, steps, m - 1, t);
      a, b := WakeOnward(run, steps, i, a, b, m - 1, t, all);
    }
  }

  lemma WaitEnd(run: seq<State>, steps: seq<Step>, i: nat, j: nat, t: Tid) returns (a: nat, b: nat, c: nat)
    requires Seen(run, steps, t) && i < j < |run| && Pc(run[i + 1], t) == WaitSpin
    requires InCall(run, i, j - 1, t) && (Pc(run[j], t) == Idle || Pc(run[j], t) == Locked)
    ensures Pc(run[j], t) == Locked && WaitPast(run, steps, i, a, b, c, j, t)
  {
    a, b, c := WaitProgress(run, steps, i, j - 1, t);
    assert Next(run, steps, j - 1, t);
    a, b, c := WaitOnward(run, steps, i, a, b, c, j - 1, t);
  }

  lemma WakeEnd(run: seq<State>, steps: seq<Step>, i: nat, j: nat, t: Tid, all: bool) returns (a: nat, b: nat)
    requires Seen(run, steps, t) && i < j < |run| && Pc(run[i + 1], t) == RelSpin(Waking(all))
    requires InCall(run, i, j - 1, t) && (Pc(run[j], t) == Idle || Pc(run[j], t) == Locked)
    ensures Pc(run[j], t) == Locked && WakePast(run, steps, i, a, b, j, t, all)
  {
    a, b := WakeProgress(run, steps, i, j - 1, t, all);
    assert Next(run, steps, j - 1, t);
    a, b := WakeOnward(run, steps, i, a, b, j - 1, t, all);
  }

  /** cv_wait returns with the lock, having given it up, slept on the channel and been woken in
      between, in this order. */
  lemma WaitCallTheorem(run: seq<State>, steps: seq<Step>, i: nat, j: nat, t: Tid) returns (a: nat, b: nat, c: nat)
    requires IsRun(run, steps) && i < j < |run| && steps[i] == CallWait(t)
    requires InCall(run, i, j - 1, t) && (Pc(run[j], t) == Idle || Pc(run[j], t) == Locked)
    ensures Pc(run[j], t) == Locked && run[j].owner == Some(t)
    ensures i < a < b < c < j && GivesUpAt(run, steps, a, t) && SleepsAt(run, steps, b, t) && RousedAt(run, steps, c, t)
  {
    FirstPoint(run, steps, i, t);
    RunSeen(run, steps, t);
    a, b, c := WaitEnd(run, steps, i, j, t);
    LockedOwns(run, steps, j, t);
  }

  lemma LockedOwns(run: seq<State>, steps: seq<Step>, j: nat, t: Tid)
    requires IsRun(run, steps) && j < |run|
    ensures Pc(run[j], t) == Locked ==> run[j].owner == Some(t)
    ensures Pc(run[j], t) == Idle ==> run[j].owner != Some(t)
  {
    RunInv(run, steps, j);
  }

  /** cv_signal and cv_broadcast return with the lock, having given it up and then, once, taken
      the first waiter or all of them off the channel. */
  lemma WakeCallTheorem(run: seq<State>, steps: seq<Step>, i: nat, j: nat, t: Tid, all: bool) returns (a: nat, b: nat)
    requires IsRun(run, steps) && i < j < |run| && steps[i] == CallWake(t, all)
    requires InCall(run, i, j - 1, t) && (Pc(run[j], t) == Idle || Pc(run[j], t) == Locked)
    ensures Pc(run[j], t) == Locked && run[j].owner == Some(t)
    ensures i < a < b < j && GivesUpAt(run, steps, a, t) && WakesAt(run, steps, b, t, all) && OnlyAt(steps, i, j, b, t)
  {
    FirstPoint(run, steps, i, t);
    RunSeen(run, steps, t);
    a, b := WakeEnd(run, steps, i, j, t, all);
    LockedOwns(run, steps, j, t);
  }

  /** lock_acquire returns with the lock; lock_release without it. */
  lemma LockCallTheorem(run: seq<State>, steps: seq<Step>, i: nat, j: nat, t: Tid)
    requires IsRun(run, steps) && i < j < |run| && InCall(run, i, j - 1, t) && (Pc(run[j], t) == Idle || Pc(run[j], t) == Locked)
    ensures steps[i] == CallAcquire(t) ==> Pc(run[j], t) == Locked && run[j].owner == Some(t)
    ensures steps[i] == CallRelease(t) ==> Pc(run[j], t) == Idle && run[j].owner != Some(t)
  {
    FirstPoint(run, steps, i, t);
    RunSeen(run, steps, t);
    LockEnd(run, steps, i, j, t);
    LockedOwns(run, steps, j, t);
  }

  lemma LockEnd(run: seq<State>, steps: seq<Step>, i: nat, j: nat, t: Tid)
    requires Seen(run, steps, t) && i < j < |run| && InCall(run, i, j - 1, t) && (Pc(run[j], t) == Idle || Pc(run[j], t) == Locked)
    ensures Pc(run[i + 1], t) == WantLock ==> Pc(run[j], t) == Locked
    ensures Pc(run[i + 1], t) == RelSpin(Unlock) ==> Pc(run[j], t) == Idle
  {
    if i < j - 1 {
      LockProgress(run, steps, i, j - 1, t);
      assert Next(run, steps, j - 1, t);
    }
  }

  lemma {:induction false} LockProgress(run: seq<State>, steps: seq<Step>, i: nat, m: nat, t: Tid)
    requires Seen(run, steps, t) && i < m < |run| && InCall(run, i, m, t)
    ensures Pc(run[i + 1], t) == WantLock ==> Pc(run[m], t) == WantLock
    ensures Pc(run[i + 1], t) == RelSpin(Unlock) ==> Pc(run[m], t) in {RelSpin(Unlock), RelIn(Unlock), RelFreed(Unlock)}
    decreases m
  {
    if i < m - 1 {
      LockProgress(run, steps, i, m - 1, t);
      assert Next(run, steps, m - 1, t);
    }
  }
}
