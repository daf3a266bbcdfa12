/** Spinlocks are taken in order of rank: condition variable, then semaphore, lock or
    reader/writer lock, then run queue, then IPI.  The lock traffic of each path through the
    thread and synchronisation code is written out as a list of operations; CPUs run any such
    paths, interleaved, and never wait for each other in a circle. */
module LockOrder {

  type Cid = nat

  datatype Lock = CvLock(id: nat) | SyncLock(id: nat) | RunQueueLock(cpu: Cid) | IpiLock(cpu: Cid)

  function Rank(l: Lock): nat {
    match l
    case CvLock(_) => 0
    case SyncLock(_) => 1
    case RunQueueLock(_) => 2
    case IpiLock(_) => 3
  }

  const TOP := 4

  datatype Op = Acq(l: Lock) | Rel(l: Lock)

  /** Every lock of held has a rank below r. */
  predicate Below(held: set<Lock>, r: nat) {
    forall k :: k in held ==> Rank(k) < r
  }

  function Do(held: set<Lock>, op: Op): set<Lock> {
    if op.Acq? then held + {op.l} else held - {op.l}
  }

  /** What is held after ops. */
  function After(held: set<Lock>, ops: seq<Op>): set<Lock>
    decreases ops
  {
    if ops == [] then held else After(Do(held, ops[0]), ops[1..])
  }

  /** Locks are taken upwards and only held ones are released. */
  predicate Ranked(held: set<Lock>, ops: seq<Op>)
    decreases ops
  {
    ops == [] ||
    (var op := ops[0];
     && (op.Acq? ==> Below(held, Rank(op.l)))
     && (op.Rel? ==> op.l in held)
     && Ranked(Do(held, op), ops[1..]))
  }

  /** A visit to a CPU's run queue, and how many IPIs it sends from there. */
  datatype Target = Target(cpu: Cid, ipis: nat)

  /** The paths, from holding nothing to holding nothing, on one CPU.  spins is how often the
      idle loop of thread_switch lets go of the run queue lock and takes it back. */
  datatype Path =
    | Pass(l: nat)                                            // P, lock_acquire, rwlock: no wait
    | Sleep(l: nat, spins: nat)                               // the same, going to sleep
    | Wake(l: nat, targets: seq<Target>)                      // V, lock_release, rwlock_release
    | CvWait(cv: nat, l: nat, targets: seq<Target>, spins: nat)
    | CvBack(cv: nat)                                         // the end of cv_wait
    | CvWake(cv: nat, targets: seq<Target>)                   // cv_signal, cv_broadcast
    | Switch(spins: nat)                                      // yield or exit
    | Fork(target: Target)
    | Migrate(cpus: seq<Target>)                              // thread_consider_migration
    | IpiSend(to: Cid)                                        // ipi_send, ipi_tlbshootdown
    | IpiReceive

  function Runnable(t: Target): seq<Op> {
    [Acq(RunQueueLock(t.cpu))] + Ipis(t.cpu, t.ipis) + [Rel(RunQueueLock(t.cpu))]
  }

  function Ipis(c: Cid, n: nat): seq<Op> {
    if n == 0 then [] else [Acq(IpiLock(c)), Rel(IpiLock(c))] + Ipis(c, n - 1)
  }

  function RunnableAll(ts: seq<Target>): seq<Op> {
    if ts == [] then [] else Runnable(ts[0]) + RunnableAll(ts[1..])
  }

  /** The rest of thread_switch once the run queue lock of CPU me is held. */
  function IdleLoop(me: Cid, spins: nat): seq<Op> {
    if spins == 0 then [Rel(RunQueueLock(me))]
    else [Rel(RunQueueLock(me)), Acq(RunQueueLock(me))] + IdleLoop(me, spins - 1)
  }

  function Ops(me: Cid, p: Path): seq<Op>
    decreases if p.CvWait? then 1 else 0
  {
    match p
    case Pass(l) => [Acq(SyncLock(l)), Rel(SyncLock(l))]
    case Sleep(l, spins) => [Acq(SyncLock(l))] + ([Acq(RunQueueLock(me)), Rel(SyncLock(l))] + IdleLoop(me, spins))
    case Wake(l, ts) => [Acq(SyncLock(l))] + RunnableAll(ts) + [Rel(SyncLock(l))]
    case CvWait(cv, l, ts, spins) =>
      [Acq(CvLock(cv))] + (Ops(me, Wake(l, ts)) + ([Acq(RunQueueLock(me)), Rel(CvLock(cv))] + IdleLoop(me, spins)))
    case CvBack(cv) => [Acq(CvLock(cv)), Rel(CvLock(cv))]
    case CvWake(cv, ts) => [Acq(CvLock(cv))] + RunnableAll(ts) + [Rel(CvLock(cv))]
    case Switch(spins) => [Acq(RunQueueLock(me))] + IdleLoop(me, spins)
    case Fork(t) => Runnable(t)
    case Migrate(cpus) => RunnableAll(cpus)
    case IpiSend(to) => [Acq(IpiLock(to)), Rel(IpiLock(to))]
    case IpiReceive => [Acq(IpiLock(me)), Rel(IpiLock(me))]
  }

  /** Ranked lists that leave things as they were can be put together. */
  lemma {:induction false} RankedConcat(held: set<Lock>, a: seq<Op>, b: seq<Op>)
    requires Ranked(held, a) && Ranked(After(held, a), b)
    ensures Ranked(held, a + b) && After(held, a + b) == After(After(held, a), b)
    decreases a
  {
    if a == [] {
      assert a + b == b;
    } else {
      assert (a + b)[1..] == a[1..] + b;
      RankedConcat(Do(held, a[0]), a[1..], b);
    }
  }

  /** One operation, then the rest. */
  lemma RankedCons(held: set<Lock>, op: Op, rest: seq<Op>)
    requires (op.Acq? ==> Below(held, Rank(op.l))) && (op.Rel? ==> op.l in held) && Ranked(Do(held, op), rest)
    ensures Ranked(held, [op] + rest) && After(held, [op] + rest) == After(Do(held, op), rest)
  {
    assert ([op] + rest)[1..] == rest;
  }

  /** Take l, do something that leaves everything held as it was, release l. */
  lemma Bracket(held: set<Lock>, l: Lock, ops: seq<Op>)
    requires Below(held, Rank(l)) && Ranked(held + {l}, ops) && After(held + {l}, ops) == held + {l}
    ensures Ranked(held, [Acq(l)] + ops + [Rel(l)]) && After(held, [Acq(l)] + ops + [Rel(l)]) == held
  {
    var inside := held + {l};
    assert l !in held;
    assert inside - {l} == held;
    RankedCons(inside, Rel(l), []);
    assert [Rel(l)] + [] == [Rel(l)];
    RankedConcat(inside, ops, [Rel(l)]);
    RankedCons(held, Acq(l), ops + [Rel(l)]);
    assert [Acq(l)] + ops + [Rel(l)] == [Acq(l)] + (ops + [Rel(l)]);
  }

  lemma {:induction false} IpisRanked(held: set<Lock>, c: Cid, n: nat)
    requires Below(held, 3)
    ensures Ranked(held, Ipis(c, n)) && After(held, Ipis(c, n)) == held
  {
    if n == 0 {
    } else {
      var l := IpiLock(c);
      Bracket(held, l, []);
      assert [Acq(l)] + [] + [Rel(l)] == [Acq(l), Rel(l)];
      IpisRanked(held, c, n - 1);
      RankedConcat(held, [Acq(l), Rel(l)], Ipis(c, n - 1));
    }
  }

  lemma RunnableRanked(held: set<Lock>, t: Target)
    requires Below(held, 2)
    ensures Ranked(held, Runnable(t)) && After(held, Runnable(t)) == held
  {
    var l := RunQueueLock(t.cpu);
    IpisRanked(held + {l}, t.cpu, t.ipis);
    Bracket(held, l, Ipis(t.cpu, t.ipis));
  }

  lemma {:induction false} RunnableAllRanked(held: set<Lock>, ts: seq<Target>)
    requires Below(held, 2)
    ensures Ranked(held, RunnableAll(ts)) && After(held, RunnableAll(ts)) == held
  {
    if ts == [] {
    } else {
      RunnableRanked(held, ts[0]);
      RunnableAllRanked(held, ts[1..]);
      RankedConcat(held, Runnable(ts[0]), RunnableAll(ts[1..]));
    }
  }

  lemma {:induction false} IdleLoopRanked(me: Cid, spins: nat)
    ensures Ranked({RunQueueLock(me)}, IdleLoop(me, spins)) && After({RunQueueLock(me)}, IdleLoop(me, spins)) == {}
  {
    var l := RunQueueLock(me);
    assert {l} - {l} == {} && {} + {l} == {l};
    if spins == 0 {
      RankedCons({l}, Rel(l), []);
      assert [Rel(l)] + [] == [Rel(l)];
    } else {
      var rest := IdleLoop(me, spins - 1);
      IdleLoopRanked(me, spins - 1);
      RankedCons({}, Acq(l), rest);
      RankedCons({l}, Rel(l), [Acq(l)] + rest);
      assert [Rel(l), Acq(l)] + rest == [Rel(l)] + ([Acq(l)] + rest);
    }
  }

  /** From holding lk alone: take the run queue lock, let go of lk, switch. */
  lemma SwitchRanked(me: Cid, lk: Lock, spins: nat)
    requires Rank(lk) < 2
    ensures var ops := [Acq(RunQueueLock(me)), Rel(lk)] + IdleLoop(me, spins); Ranked({lk}, ops) && After({lk}, ops) == {}
  {
    var l, rest := RunQueueLock(me), IdleLoop(me, spins);
    IdleLoopRanked(me, spins);
    assert {lk} + {l} - {lk} == {l};
    RankedCons({lk} + {l}, Rel(lk), rest);
    RankedCons({lk}, Acq(l), [Rel(lk)] + rest);
    assert [Acq(l), Rel(lk)] + rest == [Acq(l)] + ([Rel(lk)] + rest);
  }

  /** cv_wait: the lock is released inside the CV's spinlock, then the thread switches. */
  lemma CvWaitRanked(me: Cid, cv: nat, l: nat, ts: seq<Target>, spins: nat)
    ensures Ranked({}, Ops(me, CvWait(cv, l, ts, spins))) && After({}, Ops(me, CvWait(cv, l, ts, spins))) == {}
  {
    var c, y := CvLock(cv), SyncLock(l);
    var unlock := [Acq(y)] + RunnableAll(ts) + [Rel(y)];
    var leave := [Acq(RunQueueLock(me)), Rel(c)] + IdleLoop(me, spins);
    assert {} + {c} == {c};
    RunnableAllRanked({c} + {y}, ts);
    Bracket({c}, y, RunnableAll(ts));
    SwitchRanked(me, c, spins);
    RankedConcat({c}, unlock, leave);
    RankedCons({}, Acq(c), unlock + leave);
    assert Ops(me, Wake(l, ts)) == unlock;
  }

  /** Every path respects the order and ends with nothing held. */
  lemma PathRanked(me: Cid, p: Path)
    ensures Ranked({}, Ops(me, p)) && After({}, Ops(me, p)) == {}
  {
    match p
    case Pass(l) => TakeAndRelease(SyncLock(l));
    case Sleep(l, spins) =>
      var y := SyncLock(l);
      assert {} + {y} == {y};
      SwitchRanked(me, y, spins);
      RankedCons({}, Acq(y), [Acq(RunQueueLock(me)), Rel(y)] + IdleLoop(me, spins));
    case Wake(l, ts) =>
      RunnableAllRanked({} + {SyncLock(l)}, ts);
      Bracket({}, SyncLock(l), RunnableAll(ts));
    case CvWait(cv, l, ts, spins) => CvWaitRanked(me, cv, l, ts, spins);
    case CvBack(cv) => TakeAndRelease(CvLock(cv));
    case CvWake(cv, ts) =>
      RunnableAllRanked({} + {CvLock(cv)}, ts);
      Bracket({}, CvLock(cv), RunnableAll(ts));
    case Switch(spins) =>
      IdleLoopRanked(me, spins);
      assert {} + {RunQueueLock(me)} == {RunQueueLock(me)};
      RankedCons({}, Acq(RunQueueLock(me)), IdleLoop(me, spins));
    case Fork(t) => RunnableRanked({}, t);
    case Migrate(cpus) => RunnableAllRanked({}, cpus);
    case IpiSend(to) => TakeAndRelease(IpiLock(to));
    case IpiReceive => TakeAndRelease(IpiLock(me));
  }

  lemma TakeAndRelease(l: Lock)
    ensures Ranked({}, [Acq(l), Rel(l)]) && After({}, [Acq(l), Rel(l)]) == {}
  {
    Bracket({}, l, []);
    assert [Acq(l)] + [] + [Rel(l)] == [Acq(l), Rel(l)];
  }

  /** op occurs in ops, and whenever it does, l is held. */
  predicate Under(held: set<Lock>, ops: seq<Op>, op: Op, l: Lock) {
    op in ops && Always(held, ops, op, l)
  }

  predicate Always(held: set<Lock>, ops: seq<Op>, op: Op, l: Lock)
    decreases ops
  {
    ops == [] || ((ops[0] == op ==> l in held) && Always(Do(held, ops[0]), ops[1..], op, l))
  }

  lemma {:induction false} AlwaysConcat(held: set<Lock>, a: seq<Op>, b: seq<Op>, op: Op, l: Lock)
    requires Always(held, a, op, l) && Always(After(held, a), b, op, l)
    ensures Always(held, a + b, op, l)
    decreases a
  {
    if a == [] {
      assert a + b == b;
    } else {
      assert (a + b)[1..] == a[1..] + b;
      AlwaysConcat(Do(held, a[0]), a[1..], b, op, l);
    }
  }

  lemma AlwaysCons(held: set<Lock>, first: Op, rest: seq<Op>, op: Op, l: Lock)
    requires (first == op ==> l in held) && Always(Do(held, first), rest, op, l)
    ensures Always(held, [first] + rest, op, l)
  {
    assert ([first] + rest)[1..] == rest;
  }

  /** Operations that never let go of l are under it. */
  lemma {:induction false} AlwaysHeld(held: set<Lock>, ops: seq<Op>, op: Op, l: Lock)
    requires (op !in ops || l in held) && Rel(l) !in ops
    ensures Always(held, ops, op, l)
    decreases ops
  {
    if ops != [] { AlwaysHeld(Do(held, ops[0]), ops[1..], op, l); }
  }

  lemma {:induction false} IpisOps(c: Cid, n: nat, op: Op)
    requires op in Ipis(c, n)
    ensures op.l == IpiLock(c)
  {
    if n > 0 && op in Ipis(c, n - 1) { IpisOps(c, n - 1, op); }
  }

  /** Waking takes the run queue locks of the threads' CPUs and nothing else below IPIs. */
  lemma {:induction false} RunnableOps(ts: seq<Target>, op: Op)
    ensures op in RunnableAll(ts) ==> op.l.RunQueueLock? || op.l.IpiLock?
    ensures forall i :: 0 <= i < |ts| ==> Acq(RunQueueLock(ts[i].cpu)) in RunnableAll(ts)
  {
    if ts != [] {
      RunnableOps(ts[1..], op);
      if op in Ipis(ts[0].cpu, ts[0].ipis) { IpisOps(ts[0].cpu, ts[0].ipis, op); }
      assert Acq(RunQueueLock(ts[0].cpu)) in Runnable(ts[0]);
      forall i | 0 <= i < |ts| ensures Acq(RunQueueLock(ts[i].cpu)) in RunnableAll(ts) {
        if i > 0 { assert ts[1..][i - 1] == ts[i]; }
      }
    }
  }

  lemma {:induction false} IdleOps(me: Cid, spins: nat, op: Op)
    ensures op in IdleLoop(me, spins) ==> op.l == RunQueueLock(me)
  {
    if spins > 0 { IdleOps(me, spins - 1, op); }
  }

  /** A lock is released, and threads are woken, under its spinlock: each of their CPUs' run queue
      locks is taken with it held. */
  lemma WakeUnder(me: Cid, l: nat, ts: seq<Target>, i: nat)
    requires i < |ts|
    ensures Under({}, Ops(me, Wake(l, ts)), Acq(RunQueueLock(ts[i].cpu)), SyncLock(l))
  {
    BracketUnder({}, SyncLock(l), ts, i);
  }

  lemma CvWakeUnder(me: Cid, cv: nat, ts: seq<Target>, i: nat)
    requires i < |ts|
    ensures Under({}, Ops(me, CvWake(cv, ts)), Acq(RunQueueLock(ts[i].cpu)), CvLock(cv))
  {
    BracketUnder({}, CvLock(cv), ts, i);
  }

  lemma BracketUnder(held: set<Lock>, k: Lock, ts: seq<Target>, i: nat)
    requires i < |ts| && Rank(k) < 2
    ensures Under(held, [Acq(k)] + RunnableAll(ts) + [Rel(k)], Acq(RunQueueLock(ts[i].cpu)), k)
  {
    var op, ops := Acq(RunQueueLock(ts[i].cpu)), RunnableAll(ts);
    RunnableOps(ts, op);
    RunnableOps(ts, Rel(k));
    AlwaysHeld(held + {k}, ops, op, k);
    NeverThere(After(held + {k}, ops), [Rel(k)], op, k);
    AlwaysConcat(held + {k}, ops, [Rel(k)], op, k);
    AlwaysCons(held, Acq(k), ops + [Rel(k)], op, k);
    assert [Acq(k)] + ops + [Rel(k)] == [Acq(k)] + (ops + [Rel(k)]);
  }

  /** A sleeper lets go of the channel's lock only with its run queue's lock in hand, so that nobody
      sees it awake and off the run queue. */
  lemma SleepHandsOver(me: Cid, l: nat, spins: nat)
    ensures Under({}, Ops(me, Sleep(l, spins)), Rel(SyncLock(l)), RunQueueLock(me))
  {
    var y, q := SyncLock(l), RunQueueLock(me);
    SwitchUnder({y}, me, y, spins);
    assert Do({}, Acq(y)) == {y};
    AlwaysCons({}, Acq(y), [Acq(q), Rel(y)] + IdleLoop(me, spins), Rel(y), q);
  }

  lemma SwitchUnder(held: set<Lock>, me: Cid, k: Lock, spins: nat)
    requires !k.RunQueueLock?
    ensures var ops := [Acq(RunQueueLock(me)), Rel(k)] + IdleLoop(me, spins);
            Rel(k) in ops && Always(held, ops, Rel(k), RunQueueLock(me))
  {
    var q, rest := RunQueueLock(me), IdleLoop(me, spins);
    IdleOps(me, spins, Rel(k));
    NeverThere(held + {q} - {k}, rest, Rel(k), q);
    AlwaysCons(held + {q}, Rel(k), rest, Rel(k), q);
    AlwaysCons(held, Acq(q), [Rel(k)] + rest, Rel(k), q);
    assert [Acq(q), Rel(k)] + rest == [Acq(q)] + ([Rel(k)] + rest);
  }

  lemma {:induction false} NeverThere(held: set<Lock>, ops: seq<Op>, op: Op, l: Lock)
    requires op !in ops
    ensures Always(held, ops, op, l)
    decreases ops
  {
    if ops != [] { NeverThere(Do(held, ops[0]), ops[1..], op, l); }
  }

  /** cv_wait releases the lock under the CV's spinlock, and hands that over as any sleeper does. */
  lemma CvWaitHandsOver(me: Cid, cv: nat, l: nat, ts: seq<Target>, spins: nat)
    ensures var ops := Ops(me, CvWait(cv, l, ts, spins));
            && Under({}, ops, Rel(CvLock(cv)), RunQueueLock(me))
            && Under({}, ops, Acq(SyncLock(l)), CvLock(cv)) && Under({}, ops, Rel(SyncLock(l)), CvLock(cv))
  {
    var c, y, q := CvLock(cv), SyncLock(l), RunQueueLock(me);
    var unlock := [Acq(y)] + RunnableAll(ts) + [Rel(y)];
    var leave := [Acq(q), Rel(c)] + IdleLoop(me, spins);
    assert Ops(me, Wake(l, ts)) == unlock && Do({}, Acq(c)) == {c};
    RunnableOps(ts, Rel(c));
    SwitchUnder(After({c}, unlock), me, c, spins);
    NeverThere({c}, unlock, Rel(c), q);
    AlwaysConcat({c}, unlock, leave, Rel(c), q);
    AlwaysCons({}, Acq(c), unlock + leave, Rel(c), q);
    InsideCv(me, c, y, unlock, leave, Acq(y), spins);
    InsideCv(me, c, y, unlock, leave, Rel(y), spins);
  }

  lemma InsideCv(me: Cid, c: Lock, y: Lock, unlock: seq<Op>, leave: seq<Op>, op: Op, spins: nat)
    requires op.l == y && y.SyncLock? && c.CvLock? && op in unlock && Rel(c) !in unlock
    requires leave == [Acq(RunQueueLock(me)), Rel(c)] + IdleLoop(me, spins)
    ensures Under({}, [Acq(c)] + (unlock + leave), op, c)
  {
    IdleOps(me, spins, op);
    AlwaysHeld({c}, unlock, op, c);
    NeverThere(After({c}, unlock), leave, op, c);
    AlwaysConcat({c}, unlock, leave, op, c);
    assert Do({}, Acq(c)) == {c};
    AlwaysCons({}, Acq(c), unlock + leave, op, c);
  }

  datatype Cpu = Cpu(held: set<Lock>, todo: seq<Op>)

  type State = seq<Cpu>

  datatype Step = Start(c: Cid, p: Path) | Run(c: Cid)

  predicate Busy(s: State, c: Cid) {
    c < |s| && s[c].todo != []
  }

  /** CPU c spins for a lock that CPU d has. */
  predicate WaitsFor(s: State, c: Cid, d: Cid) {
    Busy(s, c) && d < |s| && s[c].todo[0].Acq? && s[c].todo[0].l in s[d].held
  }

  ghost predicate Blocked(s: State, c: Cid) {
    exists d: Cid :: WaitsFor(s, c, d)
  }

  ghost predicate Enabled(s: State, step: Step) {
    match step
    case Start(c, _) => c < |s| && s[c].todo == []
    case Run(c) => Busy(s, c) && !Blocked(s, c)
  }

  ghost function Apply(s: State, step: Step): State
    requires Enabled(s, step)
  {
    var c := step.c;
    match step
    case Start(_, p) => s[c := s[c].(todo := Ops(c, p))]
    case Run(_) => s[c := Cpu(Do(s[c].held, s[c].todo[0]), s[c].todo[1..])]
  }

  ghost predicate CpuOk(cpu: Cpu) {
    Ranked(cpu.held, cpu.todo) && After(cpu.held, cpu.todo) == {}
  }

  ghost predicate Inv(s: State) {
    && (forall c: Cid :: c < |s| ==> CpuOk(s[c]))
    && (forall c: Cid, d: Cid :: c < |s| && d < |s| && c != d ==> s[c].held !! s[d].held)
  }

  lemma KeepStep(s: State, step: Step)
    requires Inv(s) && Enabled(s, step)
    ensures Inv(Apply(s, step))
  {
    var c := step.c;
    assert CpuOk(s[c]);
    match step
    case Start(_, p) => PathRanked(c, p);
    case Run(_) =>
      forall d: Cid | d < |s| && d != c ensures Do(s[c].held, s[c].todo[0]) !! s[d].held {
        assert !WaitsFor(s, c, d);
        assert s[c].held !! s[d].held;
      }
  }

  ghost predicate IsRun(run: seq<State>, steps: seq<Step>) {
    && |run| == |steps| + 1
    && (forall c: Cid :: c < |run[0]| ==> run[0][c] == Cpu({}, []))
    && forall i :: 0 <= i < |steps| ==> Enabled(run[i], steps[i]) && run[i + 1] == Apply(run[i], steps[i])
  }

  lemma {:induction false} RunInv(run: seq<State>, steps: seq<Step>, k: nat)
    requires IsRun(run, steps) && k < |run|
    ensures Inv(run[k])
  {
    if k == 0 {
    } else {
      RunInv(run, steps, k - 1);
      KeepStep(run[k - 1], steps[k - 1]);
    }
  }

  /** Waiting goes up: whoever has the lock c waits for can itself only wait for a higher one. */
  lemma WaitingGoesUp(s: State, c: Cid, d: Cid)
    requires Inv(s) && WaitsFor(s, c, d)
    ensures c != d && Busy(s, d)
    ensures s[d].todo[0].Acq? ==> Rank(s[c].todo[0].l) < Rank(s[d].todo[0].l)
  {
    assert CpuOk(s[c]) && CpuOk(s[d]);
  }

  /** A chain of waiting CPUs. */
  predicate Chain(s: State, path: seq<Cid>) {
    |path| >= 2 && WaitsFor(s, path[0], path[1]) && (|path| > 2 ==> Chain(s, path[1..]))
  }

  lemma {:induction false} ChainGoesUp(s: State, path: seq<Cid>)
    requires Inv(s) && Chain(s, path)
    ensures Busy(s, path[0]) && s[path[0]].todo[0].Acq?
    ensures var last := path[|path| - 1];
            Busy(s, last) && (s[last].todo[0].Acq? ==> Rank(s[path[0]].todo[0].l) < Rank(s[last].todo[0].l))
  {
    WaitingGoesUp(s, path[0], path[1]);
    if |path| > 2 { ChainGoesUp(s, path[1..]); }
  }

  /** No state of any run has a circle of waiting CPUs, nor a CPU waiting for itself. */
  lemma NoWaitCycle(run: seq<State>, steps: seq<Step>, k: nat, path: seq<Cid>)
    requires IsRun(run, steps) && k < |run| && Chain(run[k], path)
    ensures path[0] != path[|path| - 1]
  {
    RunInv(run, steps, k);
    ChainGoesUp(run[k], path);
  }

  /** Following the chain upwards one comes to a CPU that can go on. */
  lemma {:induction false} SomeoneRuns(s: State, c: Cid) returns (d: Cid)
    requires Inv(s) && Busy(s, c)
    ensures Enabled(s, Run(d))
    decreases if s[c].todo[0].Acq? then TOP - Rank(s[c].todo[0].l) else 0
  {
    if Blocked(s, c) {
      var e: Cid :| WaitsFor(s, c, e);
      WaitingGoesUp(s, c, e);
      d := SomeoneRuns(s, e);
    } else {
      d := c;
    }
  }

  /** Spinlocks never stop the system: while any CPU is inside a path, some CPU can take its
      next step. */
  lemma NoDeadlock(run: seq<State>, steps: seq<Step>, k: nat, c: Cid)
    requires IsRun(run, steps) && k < |run| && Busy(run[k], c)
    ensures exists d: Cid :: Enabled(run[k], Run(d))
  {
    RunInv(run, steps, k);
    var d := SomeoneRuns(run[k], c);
  }
}
