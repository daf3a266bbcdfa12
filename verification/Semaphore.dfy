/** P and V, and lock_acquire and lock_release, which are the same two loops on a count that
    starts at one.  Any number of threads interleave one step at a time; a step is what a
    thread does between two points at which another CPU could act, so the semaphore's
    spinlock is an ordinary variable of the machine. */
module Semaphore {

  import opened Collections
  import Bits

  type Tid = nat
  type Cid = nat

  /** Where a thread is.  Fields marked again say that the thread has been woken since it
      called P and has not yet seen the count. */
  datatype Point =
    | Outside
    | PSpin(again: bool)   // spinning for the spinlock in P
    | PTest(again: bool)   // holds it, at the test of the while loop
    | PSleep               // holds it, has seen zero, is entering wchan_sleep
    | PQueued              // on the channel, spinlock not yet let go by thread_switch
    | Asleep               // on the channel
    | PTake(again: bool)   // holds the spinlock, has seen a positive count
    | PLeave               // holds it, count decremented
    | VSpin
    | VAdd                 // holds it
    | VWake                // holds it, count incremented
    | VLeave

  /** wraps counts how often the 32-bit count went from its maximum to zero; adds and takes
      count the increments and decrements; got says who took a unit, and on which CPU, and
      has not given one back. */
  datatype State = State(
    count: nat, spin: Option<Tid>, chan: seq<Tid>, pcs: map<Tid, Point>, holder: Option<Cid>,
    adds: nat, takes: nat, wraps: nat, got: map<Tid, Cid>)

  datatype Step =
    | CallP(t: Tid)
    | CallV(t: Tid, cpu: Cid)
    | Spin(t: Tid)
    | Test(t: Tid)
    | Enqueue(t: Tid)
    | LetGo(t: Tid)
    | Take(t: Tid, cpu: Cid)
    | Add(t: Tid)
    | Wake(t: Tid)
    | Leave(t: Tid)

  function Pc(s: State, t: Tid): Point {
    if t in s.pcs then s.pcs[t] else Outside
  }

  function At(s: State, t: Tid, pc: Point): State {
    s.(pcs := s.pcs[t := pc])
  }

  predicate Enabled(s: State, step: Step) {
    match step
    case CallP(t) => Pc(s, t) == Outside
    case CallV(t, _) => Pc(s, t) == Outside
    case Spin(t) => s.spin == None && (Pc(s, t).PSpin? || Pc(s, t) == VSpin)
    case Test(t) => Pc(s, t).PTest?
    case Enqueue(t) => Pc(s, t) == PSleep
    case LetGo(t) => Pc(s, t) == PQueued
    case Take(t, _) => Pc(s, t).PTake?
    case Add(t) => Pc(s, t) == VAdd
    case Wake(t) => Pc(s, t) == VWake
    case Leave(t) => Pc(s, t) == PLeave || Pc(s, t) == VLeave
  }

  /** Removes the first sleeper, if any, who then spins for the spinlock again. */
  function WakeOne(s: State): State {
    if s.chan == [] then s else At(s, s.chan[0], PSpin(true)).(chan := s.chan[1..])
  }

  function Apply(s: State, step: Step): State
    requires Enabled(s, step)
  {
    match step
    case CallP(t) => At(s, t, PSpin(false))
    case CallV(t, _) => At(s, t, VSpin)
    case Spin(t) => At(s, t, if Pc(s, t) == VSpin then VAdd else PTest(Pc(s, t).again)).(spin := Some(t))
    case Test(t) => At(s, t, if s.count == 0 then PSleep else PTake(Pc(s, t).again))
    case Enqueue(t) => At(s, t, PQueued).(chan := s.chan + [t])
    case LetGo(t) => At(s, t, Asleep).(spin := None)
    case Take(t, cpu) =>
      At(s, t, PLeave).(count := (s.count - 1) % Bits.W, takes := s.takes + 1, holder := Some(cpu), got := s.got[t := cpu])
    case Add(t) =>
      At(s, t, VWake).(count := (s.count + 1) % Bits.W, adds := s.adds + 1, holder := None, got := s.got - {t},
                       wraps := if s.count + 1 == Bits.W then s.wraps + 1 else s.wraps)
    case Wake(t) => At(WakeOne(s), t, VLeave)
    case Leave(t) => At(s, t, Outside).(spin := None)
  }

  function Boot(n: nat): State {
    State(n, None, [], map[], None, 0, 0, 0, map[])
  }

  predicate HoldsSpin(pc: Point) {
    pc.PTest? || pc == PSleep || pc == PQueued || pc.PTake? || pc == PLeave || pc == VAdd || pc == VWake || pc == VLeave
  }

  predicate Queued(pc: Point) {
    pc == PQueued || pc == Asleep
  }

  /** Woken, and not yet seen what the count is. */
  predicate Retesting(pc: Point) {
    (pc.PSpin? || pc.PTest? || pc.PTake?) && pc.again
  }

  function Awake(s: State): set<Tid> {
    set t | t in s.pcs && Retesting(s.pcs[t])
  }

  /** A V that has added but not yet woken anyone. */
  function Owed(s: State): nat {
    if s.spin.Some? && Pc(s, s.spin.value) == VWake then 1 else 0
  }

  ghost predicate Inv(s: State, init: nat) {
    && s.count < Bits.W
    && (forall t: Tid :: HoldsSpin(Pc(s, t)) <==> s.spin == Some(t))
    && (forall t: Tid :: t in s.chan <==> Queued(Pc(s, t)))
    && NoDuplicates(s.chan)
    && (forall t: Tid :: Pc(s, t) == PSleep || Pc(s, t) == PQueued ==> s.count == 0)
    && (forall t: Tid :: Pc(s, t).PTake? ==> s.count > 0)
    && s.count + Bits.W * s.wraps + s.takes == init + s.adds
    && (s.chan != [] ==> s.count <= |Awake(s)| + Owed(s))
  }

  lemma AwakeChange(s: State, s': State, t: Tid)
    requires forall u: Tid :: u != t ==> Pc(s', u) == Pc(s, u)
    ensures Retesting(Pc(s, t)) == Retesting(Pc(s', t)) ==> |Awake(s')| == |Awake(s)|
    ensures Retesting(Pc(s, t)) && !Retesting(Pc(s', t)) ==> |Awake(s')| + 1 == |Awake(s)|
    ensures !Retesting(Pc(s, t)) && Retesting(Pc(s', t)) ==> |Awake(s')| == |Awake(s)| + 1
  {
    forall u: Tid | u != t ensures u in Awake(s) <==> u in Awake(s') {
      assert Pc(s', u) == Pc(s, u);
    }
    assert Retesting(Pc(s, t)) <==> t in Awake(s);
    assert Retesting(Pc(s', t)) <==> t in Awake(s');
    SizesDiffer(Awake(s), Awake(s'), t);
  }

  lemma BootInv(n: nat)
    requires n < Bits.W
    ensures Inv(Boot(n), n)
  {
  }

  /** Steps that move one thread and touch neither the channel nor the count. */
  lemma KeepMove(s: State, step: Step, init: nat)
    requires Inv(s, init) && Enabled(s, step)
    requires step.CallP? || step.CallV? || step.Spin? || step.Test? || step.LetGo? || step.Leave?
    ensures Inv(Apply(s, step), init)
  {
    AwakeChange(s, Apply(s, step), step.t);
  }

  lemma KeepEnqueue(s: State, t: Tid, init: nat)
    requires Inv(s, init) && Enabled(s, Enqueue(t))
    ensures Inv(Apply(s, Enqueue(t)), init)
  {
  }

  lemma KeepTake(s: State, t: Tid, cpu: Cid, init: nat)
    requires Inv(s, init) && Enabled(s, Take(t, cpu))
    ensures Inv(Apply(s, Take(t, cpu)), init)
    ensures Apply(s, Take(t, cpu)).count == s.count - 1
  {
    AwakeChange(s, Apply(s, Take(t, cpu)), t);
  }

  lemma KeepAdd(s: State, t: Tid, init: nat)
    requires Inv(s, init) && Enabled(s, Add(t))
    ensures Inv(Apply(s, Add(t)), init)
  {
    AwakeChange(s, Apply(s, Add(t)), t);
  }

  lemma KeepWake(s: State, t: Tid, init: nat)
    requires Inv(s, init) && Enabled(s, Wake(t))
    ensures Inv(Apply(s, Wake(t)), init)
  {
    var woken := WakeOne(s);
    if s.chan != [] {
      assert s.chan[0] in s.chan;
      AwakeChange(s, woken, s.chan[0]);
    }
    AwakeChange(woken, Apply(s, Wake(t)), t);
  }

  lemma KeepStep(s: State, step: Step, init: nat)
    requires Inv(s, init) && Enabled(s, step)
    ensures Inv(Apply(s, step), init)
  {
    match step
    case Enqueue(t) => KeepEnqueue(s, t, init);
    case Take(t, cpu) => KeepTake(s, t, cpu, init);
    case Add(t) => KeepAdd(s, t, init);
    case Wake(t) => KeepWake(s, t, init);
    case _ => KeepMove(s, step, init);
  }

  predicate IsRun(run: seq<State>, steps: seq<Step>) {
    && |run| == |steps| + 1
    && forall i :: 0 <= i < |steps| ==> Enabled(run[i], steps[i]) && run[i + 1] == Apply(run[i], steps[i])
  }

  lemma {:induction false} RunInv(run: seq<State>, steps: seq<Step>, n: nat, k: nat)
    requires n < Bits.W && IsRun(run, steps) && run[0] == Boot(n) && k < |run|
    ensures Inv(run[k], n)
  {
    if k == 0 {
      BootInv(n);
    } else {
      RunInv(run, steps, n, k - 1);
      KeepStep(run[k - 1], steps[k - 1], n);
    }
  }

  /** No wakeup is lost and no unit appears or disappears, in every state of every run: the
      count is what was put in less what was taken out, modulo 2^32, and sleepers are never
      left beside more units than there are threads on their way to look (or a V about to
      wake one). */
  lemma SemaphoreTheorem(run: seq<State>, steps: seq<Step>, n: nat, k: nat)
    requires n < Bits.W && IsRun(run, steps) && run[0] == Boot(n) && k < |run|
    ensures var s := run[k];
            && s.count == (n + s.adds - s.takes) % Bits.W
            && s.takes <= n + s.adds
            && (s.count == n + s.adds - s.takes <==> n + s.adds - s.takes < Bits.W)
            && (s.chan != [] ==> s.count <= |Awake(s)| + Owed(s))
  {
    RunInv(run, steps, n, k);
    var s := run[k];
    assert n + s.adds - s.takes == s.count + Bits.W * s.wraps;
  }

  /** When nobody is between calls and everybody who waits is asleep, waiting was right. */
  lemma QuiescentMeansEmpty(s: State, n: nat)
    requires Inv(s, n) && s.chan != [] && forall t: Tid :: Pc(s, t) == Outside || Pc(s, t) == Asleep
    ensures s.count == 0
  {
    assert forall t :: t in s.pcs ==> Pc(s, t) == s.pcs[t];
    assert Awake(s) == {};
  }

  /** The assertions inside P and V: P's never fails, V's holds exactly when the count was
      below its maximum. */
  lemma AssertionsInside(s: State, t: Tid, n: nat)
    requires Inv(s, n)
    ensures Pc(s, t).PTake? ==> s.count > 0
    ensures Enabled(s, Add(t)) ==> (Apply(s, Add(t)).count > 0 <==> s.count < Bits.W - 1)
  {
  }

  /** V's assertion fails in a run: a semaphore created with the largest count and one V.  From
      there on the count is 2^32 too low. */
  lemma AssertionFails(t: Tid, cpu: Cid) returns (run: seq<State>, steps: seq<Step>)
    ensures IsRun(run, steps) && run[0] == Boot(Bits.W - 1) && steps == [CallV(t, cpu), Spin(t), Add(t)]
    ensures run[3].count == 0 && run[3].adds == 1 && run[3].takes == 0
  {
    var s0 := Boot(Bits.W - 1);
    var s1 := Apply(s0, CallV(t, cpu));
    var s2 := Apply(s1, Spin(t));
    run, steps := [s0, s1, s2, Apply(s2, Add(t))], [CallV(t, cpu), Spin(t), Add(t)];
  }

  /** Only who holds the lock releases it, and on the CPU it was taken on. */
  predicate Disciplined(s: State, step: Step) {
    step.CallV? ==> step.t in s.got && s.got[step.t] == step.cpu
  }

  /** One unit, in the lock or with its one holder. */
  ghost predicate LockInv(s: State) {
    && Inv(s, 1)
    && LockHeld(s)
  }

  ghost predicate LockHeld(s: State) {
    && s.count + |s.got| == 1 && s.wraps == 0
    && (forall t: Tid :: Pc(s, t) == VSpin || Pc(s, t) == VAdd ==> t in s.got)
    && (s.got == map[] ==> s.holder == None)
    && (forall t: Tid :: t in s.got ==> s.holder == Some(s.got[t]))
  }

  lemma OneKey(m: map<Tid, Cid>, t: Tid)
    requires t in m && |m| == 1
    ensures m.Keys == {t} && m - {t} == map[]
  {
    assert |m.Keys| == 1;
    assert m.Keys == {t} by {
      assert |m.Keys - {t}| == 0;
    }
    assert (m - {t}).Keys == {};
  }

  lemma KeepLock(s: State, step: Step)
    requires LockInv(s) && Enabled(s, step) && Disciplined(s, step)
    ensures LockInv(Apply(s, step))
    ensures step.CallV? ==> s.holder == Some(step.cpu)
  {
    KeepStep(s, step, 1);
    match step
    case Take(t, cpu) => KeepLockTake(s, t, cpu);
    case Add(t) => KeepLockAdd(s, t);
    case _ => KeepLockOther(s, step);
  }

  lemma KeepLockOther(s: State, step: Step)
    requires LockInv(s) && Enabled(s, step) && Disciplined(s, step) && !step.Take? && !step.Add?
    ensures LockHeld(Apply(s, step))
  {
    var s' := Apply(s, step);
    assert s'.got == s.got && s'.count == s.count && s'.holder == s.holder && s'.wraps == s.wraps;
    forall t: Tid | Pc(s', t) == VSpin || Pc(s', t) == VAdd ensures t in s.got {
      assert t == step.t || Pc(s', t) == Pc(s, t) || Pc(s', t) == PSpin(true);
    }
  }

  lemma KeepLockTake(s: State, t: Tid, cpu: Cid)
    requires LockInv(s) && Enabled(s, Take(t, cpu))
    ensures LockHeld(Apply(s, Take(t, cpu)))
  {
    assert |s.got| == 0;
    assert s.got == map[];
    assert Apply(s, Take(t, cpu)).got == map[t := cpu];
  }

  lemma KeepLockAdd(s: State, t: Tid)
    requires LockInv(s) && Enabled(s, Add(t))
    ensures LockHeld(Apply(s, Add(t)))
  {
    var s' := Apply(s, Add(t));
    assert Pc(s, t) == VAdd;
    OneKey(s.got, t);
    assert s'.got == map[];
    assert s.count == 0;
    assert s'.count == 1;
    forall u: Tid ensures Pc(s', u) != VSpin && Pc(s', u) != VAdd {
      assert u != t ==> Pc(s', u) == Pc(s, u) && u !in s.got.Keys;
    }
  }

  /** Mutual exclusion: under the discipline, in every state of every run, either the lock is
      free and nobody has it or exactly one thread does. */
  lemma {:induction false} LockTheorem(run: seq<State>, steps: seq<Step>, k: nat)
    requires IsRun(run, steps) && run[0] == Boot(1) && k < |run|
    requires forall i :: 0 <= i < |steps| ==> Disciplined(run[i], steps[i])
    ensures LockInv(run[k]) && run[k].wraps == 0
    ensures run[k].count + |run[k].got| == 1
    ensures forall t: Tid, u: Tid :: t in run[k].got && u in run[k].got ==> t == u
  {
    if k == 0 {
      BootInv(1);
    } else {
      LockTheorem(run, steps, k - 1);
      KeepLock(run[k - 1], steps[k - 1]);
      forall t: Tid, u: Tid | t in run[k].got && u in run[k].got ensures t == u {
        assert run[k].got.Keys != {};
        OneKey(run[k].got, t);
      }
    }
  }

  // ---------------------------------------------------------------- whole calls

  /** At a, t takes a unit. */
  predicate TakesAt(run: seq<State>, steps: seq<Step>, a: nat, t: Tid) {
    && a < |steps| && a + 1 < |run| && steps[a].Take? && steps[a].t == t
    && run[a].count > 0 && run[a + 1].count == run[a].count - 1 && run[a + 1].takes == run[a].takes + 1 && run[a + 1].adds == run[a].adds
    && run[a + 1].chan == run[a].chan
  }

  /** At a, t adds a unit. */
  predicate AddsAt(run: seq<State>, steps: seq<Step>, a: nat, t: Tid) {
    && a < |steps| && a + 1 < |run| && steps[a] == Add(t)
    && run[a + 1].count == (run[a].count + 1) % Bits.W && run[a + 1].adds == run[a].adds + 1 && run[a + 1].takes == run[a].takes
    && run[a + 1].chan == run[a].chan
  }

  /** At b, t takes the first sleeper, if any, off the channel, and it goes to look again. */
  predicate WakesAt(run: seq<State>, steps: seq<Step>, b: nat, t: Tid) {
    && b < |steps| && b + 1 < |run| && steps[b] == Wake(t) && run[b + 1].count == run[b].count
    && run[b + 1].chan == (if run[b].chan == [] then [] else run[b].chan[1..])
    && (run[b].chan != [] ==> Pc(run[b + 1], run[b].chan[0]) == PSpin(true))
  }

  /** After i and before m, no take, add or wake of t's, except at a and b. */
  predicate OnlyAt(steps: seq<Step>, i: nat, m: nat, a: nat, b: nat, t: Tid)
    requires m <= |steps|
  {
    forall k: nat :: i < k < m && k != a && k != b && (steps[k].Take? || steps[k].Add? || steps[k].Wake?) ==> steps[k].t != t
  }

  /** Where t, at pc, goes with a step: round the loop of P for as long as the count is zero, and
      straight through V. */
  predicate Follows(pc: Point, step: Step, t: Tid, pc': Point, zero: bool) {
    if step.t != t then pc' == pc || (step.Wake? && pc == Asleep && pc' == PSpin(true)) else
    && (step.Take? ==> pc.PTake?) && (step.Add? ==> pc == VAdd) && (step.Wake? ==> pc == VWake)
    && match pc
      case Outside => (step.CallP? && pc' == PSpin(false)) || (step.CallV? && pc' == VSpin)
      case PSpin(again) => pc' == PTest(again)
      case PTest(again) => pc' == if zero then PSleep else PTake(again)
      case PSleep => pc' == PQueued
      case PQueued => pc' == Asleep
      case Asleep => false
      case PTake(_) => pc' == PLeave && step.Take?
      case PLeave => pc' == Outside
      case VSpin => pc' == VAdd
      case VAdd => pc' == VWake && step.Add?
      case VWake => pc' == VLeave && step.Wake?
      case VLeave => pc' == Outside
  }

  predicate Next(run: seq<State>, steps: seq<Step>, k: nat, t: Tid)
    requires |run| == |steps| + 1
  {
    k < |steps| ==>
      && Follows(Pc(run[k], t), steps[k], t, Pc(run[k + 1], t), run[k].count == 0)
      && (steps[k].t == t && steps[k].Take? ==> TakesAt(run, steps, k, t))
      && (steps[k].t == t && steps[k].Add? ==> AddsAt(run, steps, k, t))
      && (steps[k].t == t && steps[k].Wake? ==> WakesAt(run, steps, k, t))
  }

  ghost predicate Seen(run: seq<State>, steps: seq<Step>, t: Tid) {
    |run| == |steps| + 1 && forall k: nat {:trigger Next(run, steps, k, t)} :: Next(run, steps, k, t)
  }

  lemma RunSeen(run: seq<State>, steps: seq<Step>, n: nat, t: Tid)
    requires n < Bits.W && IsRun(run, steps) && run[0] == Boot(n)
    ensures Seen(run, steps, t)
  {
    forall k: nat ensures Next(run, steps, k, t) {
      if k < |steps| {
        RunInv(run, steps, n, k);
        StepFollows(run[k], steps[k], t, n);
      }
    }
  }

  lemma StepFollows(s: State, step: Step, t: Tid, n: nat)
    requires Inv(s, n) && Enabled(s, step)
    ensures Next([s, Apply(s, step)], [step], 0, t)
  {
    if step.Wake? { WakeFollows(s, step.t, t, n); }
  }

  lemma WakeFollows(s: State, x: Tid, t: Tid, n: nat)
    requires Inv(s, n) && Enabled(s, Wake(x))
    ensures Next([s, Apply(s, Wake(x))], [Wake(x)], 0, t)
  {
    if s.chan != [] { assert s.chan[0] in s.chan; }
  }

  predicate InCall(run: seq<State>, i: nat, m: nat, t: Tid)
    requires i <= m < |run|
  {
    forall k :: i < k <= m ==> Pc(run[k], t) != Outside
  }

  /** What a thread in P since i, or in V, has done by m. */
  predicate SoFar(run: seq<State>, steps: seq<Step>, i: nat, a: nat, b: nat, m: nat, t: Tid, up: bool)
    requires |run| == |steps| + 1 && m <= |steps|
  {
    match Pc(run[m], t)
    case Outside => false
    case PLeave => !up && i < a < m && TakesAt(run, steps, a, t) && OnlyAt(steps, i, m, a, a, t)
    case VSpin => up && OnlyAt(steps, i, m, i, i, t)
    case VAdd => up && OnlyAt(steps, i, m, i, i, t)
    case VWake => up && i < a < m && AddsAt(run, steps, a, t) && OnlyAt(steps, i, m, a, a, t)
    case VLeave => up && i < a < b < m && AddsAt(run, steps, a, t) && WakesAt(run, steps, b, t) && OnlyAt(steps, i, m, a, b, t)
    case _ => !up && OnlyAt(steps, i, m, i, i, t)
  }

  /** P took one unit, once; V added one and then woke one sleeper, once each. */
  predicate Done(run: seq<State>, steps: seq<Step>, i: nat, a: nat, b: nat, m: nat, t: Tid, up: bool)
    requires m <= |steps|
  {
    if up then i < a < b < m && AddsAt(run, steps, a, t) && WakesAt(run, steps, b, t) && OnlyAt(steps, i, m, a, b, t)
    else i < a < m && TakesAt(run, steps, a, t) && OnlyAt(steps, i, m, a, a, t)
  }

  lemma Onward(run: seq<State>, steps: seq<Step>, i: nat, a: nat, b: nat, m: nat, t: Tid, up: bool) returns (a': nat, b': nat)
    requires |run| == |steps| + 1 && i < m < |steps| && SoFar(run, steps, i, a, b, m, t, up) && Next(run, steps, m, t)
    ensures Pc(run[m + 1], t) != Outside ==> SoFar(run, steps, i, a', b', m + 1, t, up)
    ensures Pc(run[m + 1], t) == Outside ==> Done(run, steps, i, a', b', m + 1, t, up)
  {
    a', b' := a, b;
    if steps[m].t == t && (steps[m].Take? || steps[m].Add?) { a' := m; }
    if steps[m].t == t && steps[m].Wake? { b' := m; }
  }

  lemma {:induction false} Progress(run: seq<State>, steps: seq<Step>, i: nat, m: nat, t: Tid, up: bool) returns (a: nat, b: nat)
    requires Seen(run, steps, t) && i < m < |run| && Pc(run[i + 1], t) == (if up then VSpin else PSpin(false)) && InCall(run, i, m, t)
    ensures SoFar(run, steps, i, a, b, m, t, up)
    decreases m
  {
    a, b := i, i;
    if i < m - 1 {
      a, b := Progress(run, steps, i, m - 1, t, up);
      a, b := OneOn(run, steps, i, a, b, m - 1, t, up);
    }
  }

  lemma OneOn(run: seq<State>, steps: seq<Step>, i: nat, a: nat, b: nat, m: nat, t: Tid, up: bool) returns (a': nat, b': nat)
    requires Seen(run, steps, t) && i < m < |steps| && SoFar(run, steps, i, a, b, m, t, up)
    ensures Pc(run[m + 1], t) != Outside ==> SoFar(run, steps, i, a', b', m + 1, t, up)
    ensures Pc(run[m + 1], t) == Outside ==> Done(run, steps, i, a', b', m + 1, t, up)
  {
    assert Next(run, steps, m, t);
    a', b' := Onward(run, steps, i, a, b, m, t, up);
  }

  lemma CallEnds(run: seq<State>, steps: seq<Step>, i: nat, j: nat, t: Tid, up: bool) returns (a: nat, b: nat)
    requires Seen(run, steps, t) && i < j < |run| && Pc(run[i + 1], t) == if up then VSpin else PSpin(false)
    requires InCall(run, i, j - 1, t) && Pc(run[j], t) == Outside
    ensures Done(run, steps, i, a, b, j, t, up)
  {
    a, b := Progress(run, steps, i, j - 1, t, up);
    a, b := OneOn(run, steps, i, a, b, j - 1, t, up);
  }

  lemma FirstPoint(run: seq<State>, steps: seq<Step>, i: nat, t: Tid)
    requires IsRun(run, steps) && i < |steps| && steps[i].t == t
    ensures steps[i].CallP? ==> Pc(run[i + 1], t) == PSpin(false)
    ensures steps[i].CallV? ==> Pc(run[i + 1], t) == VSpin
  {
  }

  /** Every P that returns has taken one unit from a positive count, and every V has added one and
      then woken the first sleeper, whatever the other threads did meanwhile. */
  lemma CallTheorem(run: seq<State>, steps: seq<Step>, n: nat, i: nat, j: nat, t: Tid) returns (a: nat, b: nat)
    requires n < Bits.W && IsRun(run, steps) && run[0] == Boot(n) && i < j < |run| && (steps[i].CallP? || steps[i].CallV?)
    requires steps[i].t == t && InCall(run, i, j - 1, t) && Pc(run[j], t) == Outside
    ensures steps[i].CallP? ==> i < a < j && TakesAt(run, steps, a, t) && OnlyAt(steps, i, j, a, a, t)
    ensures steps[i].CallV? ==> i < a < b < j && AddsAt(run, steps, a, t) && WakesAt(run, steps, b, t) && OnlyAt(steps, i, j, a, b, t)
    ensures run[j].spin != Some(t)
  {
    FirstPoint(run, steps, i, t);
    RunSeen(run, steps, n, t);
    a, b := CallEnds(run, steps, i, j, t, steps[i].CallV?);
    FreeOutside(run, steps, n, j, t);
  }

  lemma FreeOutside(run: seq<State>, steps: seq<Step>, n: nat, j: nat, t: Tid)
    requires n < Bits.W && IsRun(run, steps) && run[0] == Boot(n) && j < |run| && Pc(run[j], t) == Outside
    ensures run[j].spin != Some(t)
  {
    RunInv(run, steps, n, j);
  }

  /** How many of the first k steps add, or take. */
  function HowMany(steps: seq<Step>, k: nat, up: bool): nat
    requires k <= |steps|
  {
    if k == 0 then 0 else HowMany(steps, k - 1, up) + (if (if up then steps[k - 1].Add? else steps[k - 1].Take?) then 1 else 0)
  }

  /** The count is the initial one and the additions so far less the takings so far, modulo 2^32. */
  lemma CountTheorem(run: seq<State>, steps: seq<Step>, n: nat, k: nat)
    requires n < Bits.W && IsRun(run, steps) && run[0] == Boot(n) && k < |run|
    ensures run[k].adds == HowMany(steps, k, true) && run[k].takes == HowMany(steps, k, false)
    ensures run[k].count == (n + HowMany(steps, k, true) - HowMany(steps, k, false)) % Bits.W
  {
    CountIs(run, steps, n, k);
    Counted(run, steps, n, k);
  }

  lemma CountIs(run: seq<State>, steps: seq<Step>, n: nat, k: nat)
    requires n < Bits.W && IsRun(run, steps) && run[0] == Boot(n) && k < |run|
    ensures run[k].count == (n + run[k].adds - run[k].takes) % Bits.W
  {
    SemaphoreTheorem(run, steps, n, k);
  }

  lemma {:induction false} Counted(run: seq<State>, steps: seq<Step>, n: nat, k: nat)
    requires IsRun(run, steps) && run[0] == Boot(n) && k < |run|
    ensures run[k].adds == HowMany(steps, k, true) && run[k].takes == HowMany(steps, k, false)
  {
    if k == 0 {
    } else {
      Counted(run, steps, n, k - 1);
      CountStep(run[k - 1], steps[k - 1]);
    }
  }

  lemma CountStep(s: State, step: Step)
    requires Enabled(s, step)
    ensures Apply(s, step).adds == s.adds + (if step.Add? then 1 else 0) && Apply(s, step).takes == s.takes + (if step.Take? then 1 else 0)
  {
  }

  /** Sleepers queue up behind each other, and only the first is ever taken off. */
  lemma ChannelTheorem(run: seq<State>, steps: seq<Step>, k: nat)
    requires IsRun(run, steps) && k < |steps|
    ensures match steps[k]
            case Enqueue(t) => run[k + 1].chan == run[k].chan + [t]
            case Wake(_) => run[k + 1].chan == if run[k].chan == [] then [] else run[k].chan[1..]
            case _ => run[k + 1].chan == run[k].chan
  {
  }
}
