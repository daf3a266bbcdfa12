/** The thread system as a step machine over any number of CPUs.  One step is one stretch
    of code between lock operations: queueing the current thread, picking the next one,
    idling, waking, forking, exiting, reaping and migrating. */
module Scheduler {

  import opened Collections

  type Tid = nat
  type Cid = nat
  type Chan = nat

  datatype ThreadState = Run | Ready | Sleep | Zombie

  datatype Thread = Thread(state: ThreadState, cpu: Cid)

  /** Where a thread can be.  OnCpu holds the current thread of a CPU that is not switching;
      Hand is the private list of wchan_wakeall, or the one thread in the hands of
      wchan_wakeone, which both run with a spinlock held; Born is the new thread another one
      has made and not yet made runnable, wherever that one is meanwhile; Victims is the
      private list of the migration code. */
  datatype Place =
    | OnCpu(c: Cid) | RunQueue(c: Cid) | Zombies(c: Cid) | Hand(c: Cid) | Born(parent: Tid) | Victims(c: Cid) | Asleep(w: Chan)

  /** Where a CPU is in thread_switch. */
  datatype Phase =
    | Executing   // outside, running its current thread
    | Queued      // current thread put on a list, run-queue lock held
    | Idling      // run-queue lock dropped, inside cpu_idle
    | Landed      // on the next thread's stack, run-queue lock still held
    | Reaping     // lock released, destroying zombies

  datatype Migration =
    | NotMigrating
    | Counted(my: nat)
    | Taking(share: nat, left: nat, toSend: nat)
    | Sending(share: nat, toSend: nat)

  /** irq: an interrupt has been raised on this CPU since it last went idle. */
  datatype Cpu = Cpu(cur: Tid, phase: Phase, irq: bool, mig: Migration)

  /** saved is the set of threads whose registers are in their switchframe; at records the
      place of every live thread; dead holds the destroyed ones. */
  datatype State = State(
    cpus: seq<Cpu>,
    threads: map<Tid, Thread>,
    lists: map<Place, seq<Tid>>,
    at: map<Tid, Place>,
    saved: set<Tid>,
    locks: map<Chan, Cid>,
    dead: set<Tid>)

  datatype Step =
    | Yield(c: Cid)                 // thread_switch(S_READY) with a non-empty run queue
    | SleepOn(c: Cid, w: Chan)      // thread_switch(S_SLEEP)
    | Exit(c: Cid)                  // thread_switch(S_ZOMBIE)
    | Dispatch(c: Cid)
    | GoIdle(c: Cid)
    | Interrupt(c: Cid)             // timer or device interrupt of an idle CPU
    | Unidle(c: Cid)
    | FinishSwitch(c: Cid)          // tail of thread_switch and of thread_startup
    | Reap(c: Cid)                  // one round of exorcise
    | ReapDone(c: Cid)
    | LockChan(c: Cid, w: Chan)
    | UnlockChan(c: Cid, w: Chan)
    | WakeTake(c: Cid, w: Chan)     // threadlist_remhead on the channel
    | MakeRunnable(c: Cid)          // thread_make_runnable of the first thread in hand
    | Fork(c: Cid, t: Tid)          // thread_fork as far as switchframe_init
    | ForkDone(c: Cid)              // its thread_make_runnable
    | MigrateCount(c: Cid)
    | MigrateDecide(c: Cid, total: nat)
    | MigrateTake(c: Cid)           // remtail from the own queue, addhead on victims
    | MigrateSend(c: Cid, d: Cid)
    | MigrateReturn(c: Cid)
    | MigrateEnd(c: Cid)

  // ---------------------------------------------------------------- lists

  function List(lists: map<Place, seq<Tid>>, p: Place): seq<Tid> {
    if p in lists then lists[p] else []
  }

  lemma SamePosition(s: seq<Tid>, i: nat, j: nat)
    requires NoDuplicates(s) && i < |s| && j < |s| && s[i] == s[j]
    ensures i == j
  {
  }

  /** The lists hold exactly the threads that at places on them, each once. */
  ghost predicate Listed(lists: map<Place, seq<Tid>>, at: map<Tid, Place>) {
    && (forall p {:trigger NoDuplicates(List(lists, p))} :: NoDuplicates(List(lists, p)))
    && (forall p, t {:trigger t in List(lists, p)} :: t in List(lists, p) <==> t in at && at[t] == p)
  }

  /** Take the first thread of p and append it to q (which may be p itself). */
  function MoveHead(lists: map<Place, seq<Tid>>, p: Place, q: Place): map<Place, seq<Tid>>
    requires List(lists, p) != []
  {
    var popped := lists[p := List(lists, p)[1..]];
    popped[q := List(popped, q) + [List(lists, p)[0]]]
  }

  /** Take the last thread of p and put it first on q. */
  function MoveLast(lists: map<Place, seq<Tid>>, p: Place, q: Place): map<Place, seq<Tid>>
    requires List(lists, p) != []
  {
    var n := |List(lists, p)| - 1;
    var popped := lists[p := List(lists, p)[..n]];
    popped[q := [List(lists, p)[n]] + List(popped, q)]
  }

  lemma MoveHeadListed(lists: map<Place, seq<Tid>>, at: map<Tid, Place>, p: Place, q: Place)
    requires Listed(lists, at) && List(lists, p) != []
    ensures Listed(MoveHead(lists, p, q), at[List(lists, p)[0] := q])
  {
    var t, lp := List(lists, p)[0], List(lists, p);
    var lists', at' := MoveHead(lists, p, q), at[t := q];
    assert NoDuplicates(List(lists, p));
    assert t in List(lists, p) && at[t] == p;
    assert t !in lp[1..];
    forall x, r ensures x in List(lists', r) <==> x in at' && at'[x] == r {
      assert x in List(lists, r) <==> x in at && at[x] == r;
      assert x in lp <==> x == t || x in lp[1..];
    }
    forall r ensures NoDuplicates(List(lists', r)) {
      assert NoDuplicates(List(lists, r));
      assert t in List(lists, q) ==> at[t] == q;
    }
  }

  lemma MoveLastListed(lists: map<Place, seq<Tid>>, at: map<Tid, Place>, p: Place, q: Place)
    requires Listed(lists, at) && List(lists, p) != [] && p != q
    ensures Listed(MoveLast(lists, p, q), at[List(lists, p)[|List(lists, p)| - 1] := q])
  {
    var t := List(lists, p)[|List(lists, p)| - 1];
    var lists', at' := MoveLast(lists, p, q), at[t := q];
    forall x, r ensures x in List(lists', r) <==> x in at' && at'[x] == r { MoveLastAt(lists, at, p, q, x, r); }
    forall r ensures NoDuplicates(List(lists', r)) { MoveLastDistinct(lists, at, p, q, r); }
  }

  lemma MoveLastAt(lists: map<Place, seq<Tid>>, at: map<Tid, Place>, p: Place, q: Place, x: Tid, r: Place)
    requires Listed(lists, at) && List(lists, p) != [] && p != q
    ensures var t := List(lists, p)[|List(lists, p)| - 1];
            x in List(MoveLast(lists, p, q), r) <==> x in at[t := q] && at[t := q][x] == r
  {
    var lp := List(lists, p);
    var n := |lp| - 1;
    assert NoDuplicates(List(lists, p));
    assert lp[n] in List(lists, p);
    assert lp[n] !in lp[..n];
    assert x in lp <==> x == lp[n] || x in lp[..n];
    assert x in List(lists, r) <==> x in at && at[x] == r;
  }

  lemma MoveLastDistinct(lists: map<Place, seq<Tid>>, at: map<Tid, Place>, p: Place, q: Place, r: Place)
    requires Listed(lists, at) && List(lists, p) != [] && p != q
    ensures NoDuplicates(List(MoveLast(lists, p, q), r))
  {
    var lp := List(lists, p);
    var t := lp[|lp| - 1];
    assert NoDuplicates(List(lists, r));
    assert t in List(lists, p);
    assert t !in List(lists, q);
  }

  // ---------------------------------------------------------------- steps

  function Queue(s: State, p: Place): seq<Tid> { List(s.lists, p) }

  predicate IsCpu(s: State, c: Cid) { c < |s.cpus| }

  /** The CPU itself holds its run-queue lock in the middle of a switch; everybody else
      takes it only for the length of one step. */
  predicate RunQueueFree(s: State, c: Cid)
    requires IsCpu(s, c)
  {
    s.cpus[c].phase != Queued && s.cpus[c].phase != Landed
  }

  /** No interrupt handler or wakeup is in the middle of its work on this CPU. */
  predicate Quiet(s: State, c: Cid)
    requires IsCpu(s, c)
  {
    s.cpus[c].mig == NotMigrating && Queue(s, Hand(c)) == []
  }

  predicate HoldsNoChannelBut(s: State, c: Cid, but: set<Chan>) {
    forall w :: w in s.locks && s.locks[w] == c ==> w in but
  }

  /** Code may run on c, either the current thread's or an interrupt handler's. */
  predicate CanRun(s: State, c: Cid)
    requires IsCpu(s, c)
  {
    s.cpus[c].phase == Executing || (s.cpus[c].phase == Idling && s.cpus[c].irq)
  }

  /** The first thread of p can be made runnable: its CPU's run-queue lock can be had. */
  predicate CanRelease(s: State, p: Place) {
    && Queue(s, p) != []
    && var t := Queue(s, p)[0];
       t in s.threads && IsCpu(s, s.threads[t].cpu) && RunQueueFree(s, s.threads[t].cpu)
  }

  predicate Enabled(s: State, step: Step) {
    && IsCpu(s, step.c)
    && var c, cpu := step.c, s.cpus[step.c];
       match step
       case Yield(_) => cpu.phase == Executing && Quiet(s, c) && HoldsNoChannelBut(s, c, {}) && Queue(s, RunQueue(c)) != []
       case SleepOn(_, w) =>
         && cpu.phase == Executing && Quiet(s, c) && w in s.locks && s.locks[w] == c && HoldsNoChannelBut(s, c, {w})
         && Queue(s, Born(cpu.cur)) == []
       case Exit(_) => cpu.phase == Executing && Quiet(s, c) && HoldsNoChannelBut(s, c, {}) && Queue(s, Born(cpu.cur)) == []
       case Dispatch(_) => cpu.phase == Queued && Queue(s, RunQueue(c)) != []
       case GoIdle(_) => cpu.phase == Queued && Queue(s, RunQueue(c)) == []
       case Interrupt(_) => cpu.phase == Idling
       case Unidle(_) => cpu.phase == Idling && cpu.irq && Quiet(s, c) && HoldsNoChannelBut(s, c, {})
       case FinishSwitch(_) => cpu.phase == Landed
       case Reap(_) => cpu.phase == Reaping && Queue(s, Zombies(c)) != []
       case ReapDone(_) => cpu.phase == Reaping && Queue(s, Zombies(c)) == []
       case LockChan(_, w) => CanRun(s, c) && cpu.mig == NotMigrating && w !in s.locks
       case UnlockChan(_, w) => CanRun(s, c) && Quiet(s, c) && w in s.locks && s.locks[w] == c
       case WakeTake(_, w) => CanRun(s, c) && cpu.mig == NotMigrating && w in s.locks && s.locks[w] == c && Queue(s, Asleep(w)) != []
       case MakeRunnable(_) => CanRun(s, c) && cpu.mig == NotMigrating && CanRelease(s, Hand(c))
       case Fork(_, t) =>
         && cpu.phase == Executing && Quiet(s, c) && HoldsNoChannelBut(s, c, {})
         && t !in s.threads && t !in s.dead && Queue(s, Born(cpu.cur)) == []
       case ForkDone(_) => cpu.phase == Executing && Quiet(s, c) && CanRelease(s, Born(cpu.cur))
       case MigrateCount(_) => CanRun(s, c) && Quiet(s, c) && HoldsNoChannelBut(s, c, {})
       case MigrateDecide(_, _) => cpu.mig.Counted?
       case MigrateTake(_) => cpu.mig.Taking? && cpu.mig.left > 0
       case MigrateSend(_, d) =>
         && cpu.mig.Sending? && cpu.mig.toSend > 0 && IsCpu(s, d) && d != c
         && RunQueueFree(s, d) && |Queue(s, RunQueue(d))| < cpu.mig.share
       case MigrateReturn(_) => cpu.mig.Sending? && Queue(s, Victims(c)) != []
       case MigrateEnd(_) => cpu.mig.Sending? && Queue(s, Victims(c)) == []
  }

  /** Move the first thread of p to the end of q; nothing if p is empty. */
  function Relocate(s: State, p: Place, q: Place): State {
    if Queue(s, p) == [] then s
    else s.(lists := MoveHead(s.lists, p, q), at := s.at[Queue(s, p)[0] := q])
  }

  function SetThread(s: State, t: Tid, th: Thread): State { s.(threads := s.threads[t := th]) }

  function SetState(s: State, t: Tid, st: ThreadState): State {
    if t in s.threads then SetThread(s, t, s.threads[t].(state := st)) else s
  }

  function SetCpu(s: State, c: Cid, cpu: Cpu): State
    requires IsCpu(s, c)
  {
    s.(cpus := s.cpus[c := cpu])
  }

  function SetPhase(s: State, c: Cid, phase: Phase): State
    requires IsCpu(s, c)
  {
    SetCpu(s, c, s.cpus[c].(phase := phase))
  }

  /** ipi_send of IPI_UNIDLE, which only an idle CPU is sent. */
  function PostUnidle(s: State, c: Cid): State
    requires IsCpu(s, c)
  {
    if s.cpus[c].phase == Idling then SetCpu(s, c, s.cpus[c].(irq := true)) else s
  }

  function SetMig(s: State, c: Cid, mig: Migration): State
    requires IsCpu(s, c)
  {
    SetCpu(s, c, s.cpus[c].(mig := mig))
  }

  /** The part of thread_switch that puts the current thread where it belongs. */
  function QueueCurrent(s: State, c: Cid, q: Place, st: ThreadState): State
    requires IsCpu(s, c)
  {
    SetPhase(SetState(Relocate(s, OnCpu(c), q), s.cpus[c].cur, st), c, Queued)
  }

  /** threadlist_remhead of the run queue and the context switch to that thread. */
  function SwitchTo(s: State, c: Cid): State
    requires IsCpu(s, c) && Queue(s, RunQueue(c)) != []
  {
    var next := Queue(s, RunQueue(c))[0];
    var s' := Relocate(s, RunQueue(c), OnCpu(c));
    SetCpu(s', c, s.cpus[c].(cur := next, phase := Landed)).(saved := s.saved + {s.cpus[c].cur} - {next})
  }

  /** threadlist_remhead of the zombies and thread_destroy. */
  function DestroyZombie(s: State, c: Cid): State
    requires Queue(s, Zombies(c)) != []
  {
    var z, rest := Queue(s, Zombies(c))[0], Queue(s, Zombies(c))[1..];
    s.(lists := s.lists[Zombies(c) := rest], at := s.at - {z}, threads := s.threads - {z},
       saved := s.saved - {z}, dead := s.dead + {z})
  }

  /** thread_make_runnable of the first thread of p. */
  function Release(s: State, p: Place): State
    requires CanRelease(s, p)
  {
    var t := Queue(s, p)[0];
    var target := s.threads[t].cpu;
    PostUnidle(SetState(Relocate(s, p, RunQueue(target)), t, Ready), target)
  }

  function ForkThread(s: State, c: Cid, t: Tid): State
    requires IsCpu(s, c)
  {
    var born := Born(s.cpus[c].cur);
    s.(threads := s.threads[t := Thread(Ready, c)], lists := s.lists[born := [t]], at := s.at[t := born], saved := s.saved + {t})
  }

  function MigrateOne(s: State, c: Cid, d: Cid, share: nat, toSend: nat): State
    requires IsCpu(s, c) && IsCpu(s, d) && toSend > 0
  {
    if Queue(s, Victims(c)) == [] then s else
    var t := Queue(s, Victims(c))[0];
    if t == s.cpus[c].cur then
      SetMig(Relocate(s, Victims(c), Victims(c)), c, Sending(share, toSend - 1))
    else if t in s.threads then
      var s' := SetThread(Relocate(s, Victims(c), RunQueue(d)), t, s.threads[t].(cpu := d));
      SetMig(PostUnidle(s', d), c, Sending(share, toSend - 1))
    else s
  }

  function Apply(s: State, step: Step): State
    requires Enabled(s, step)
  {
    var c, cpu := step.c, s.cpus[step.c];
    match step
    case Yield(_) => QueueCurrent(s, c, RunQueue(c), Ready)
    case SleepOn(_, w) => QueueCurrent(s, c, Asleep(w), Sleep).(locks := s.locks - {w})
    case Exit(_) => QueueCurrent(s, c, Zombies(c), Zombie)
    case Dispatch(_) => SwitchTo(s, c)
    case GoIdle(_) => SetCpu(s, c, cpu.(phase := Idling, irq := false))
    case Interrupt(_) => SetCpu(s, c, cpu.(irq := true))
    case Unidle(_) => SetPhase(s, c, Queued)
    case FinishSwitch(_) => SetPhase(SetState(s, cpu.cur, Run), c, Reaping)
    case Reap(_) => DestroyZombie(s, c)
    case ReapDone(_) => SetPhase(s, c, Executing)
    case LockChan(_, w) => s.(locks := s.locks[w := c])
    case UnlockChan(_, w) => s.(locks := s.locks - {w})
    case WakeTake(_, w) => Relocate(s, Asleep(w), Hand(c))
    case MakeRunnable(_) => Release(s, Hand(c))
    case Fork(_, t) => ForkThread(s, c, t)
    case ForkDone(_) => Release(s, Born(cpu.cur))
    case MigrateCount(_) => SetMig(s, c, Counted(|Queue(s, RunQueue(c))|))
    case MigrateDecide(_, total) =>
      var share := DivRoundUp(total, |s.cpus|);
      if cpu.mig.my < share then SetMig(s, c, NotMigrating)
      else if cpu.mig.my == share then SetMig(s, c, Sending(share, 0))
      else SetMig(s, c, Taking(share, cpu.mig.my - share, cpu.mig.my - share))
    case MigrateTake(_) =>
      var q := Queue(s, RunQueue(c));
      if q == [] then s else
      var s' := s.(lists := MoveLast(s.lists, RunQueue(c), Victims(c)), at := s.at[q[|q| - 1] := Victims(c)]);
      SetMig(s', c, if cpu.mig.left == 1 then Sending(cpu.mig.share, cpu.mig.toSend) else cpu.mig.(left := cpu.mig.left - 1))
    case MigrateSend(_, d) => MigrateOne(s, c, d, cpu.mig.share, cpu.mig.toSend)
    case MigrateReturn(_) => SetMig(Relocate(s, Victims(c), RunQueue(c)), c, Sending(cpu.mig.share, 0))
    case MigrateEnd(_) => SetMig(s, c, NotMigrating)
  }

  // ---------------------------------------------------------------- the invariant

  predicate RunsItsThread(phase: Phase) { phase == Executing || phase == Landed || phase == Reaping }

  /** A CPU's current thread belongs to it, has unsaved registers, and is on the CPU
      exactly when the CPU is not choosing another one. */
  ghost predicate CpuOk(s: State, c: Cid)
    requires IsCpu(s, c)
  {
    var cur := s.cpus[c].cur;
    && cur in s.threads && cur in s.at && s.threads[cur].cpu == c && cur !in s.saved
    && (RunsItsThread(s.cpus[c].phase) ==> s.at[cur] == OnCpu(c))
  }

  /** What the place of a thread says about it. */
  ghost predicate PlaceOk(s: State, t: Tid, th: Thread, p: Place) {
    match p
    case OnCpu(c) =>
      IsCpu(s, c) && t == s.cpus[c].cur && RunsItsThread(s.cpus[c].phase)
      && th.state == (if s.cpus[c].phase == Landed then Ready else Run)
    case RunQueue(c) => th.cpu == c && th.state == Ready
    case Zombies(c) => th.cpu == c && th.state == Zombie
    case Hand(c) => IsCpu(s, c) && th.state == Sleep
    case Born(parent) => th.state == Ready && parent in s.threads && (s.threads[parent].state == Run || s.threads[parent].state == Ready)
    case Victims(c) => th.cpu == c && th.state == Ready
    case Asleep(_) => th.state == Sleep
  }

  /** A thread whose registers are not saved is the current one of its own CPU. */
  ghost predicate ThreadOk(s: State, t: Tid)
    requires t in s.threads
  {
    && t in s.at && t !in s.dead
    && IsCpu(s, s.threads[t].cpu)
    && (t in s.saved || t == s.cpus[s.threads[t].cpu].cur)
    && PlaceOk(s, t, s.threads[t], s.at[t])
  }

  /** The counters of the migration code never exceed the lists they were taken from. */
  ghost predicate WorkOk(s: State, c: Cid)
    requires IsCpu(s, c)
  {
    && (!Quiet(s, c) ==> CanRun(s, c))
    && (s.cpus[c].phase == Idling && !s.cpus[c].irq ==> Queue(s, RunQueue(c)) == [])
    && (Queue(s, Hand(c)) != [] ==> s.cpus[c].mig == NotMigrating)
    && match s.cpus[c].mig
       case NotMigrating => Queue(s, Victims(c)) == []
       case Counted(my) => Queue(s, Victims(c)) == [] && my <= |Queue(s, RunQueue(c))|
       case Taking(_, left, toSend) =>
         0 < left <= |Queue(s, RunQueue(c))| && |Queue(s, Victims(c))| + left == toSend
       case Sending(_, toSend) => toSend <= |Queue(s, Victims(c))|
  }

  ghost predicate Inv(s: State) {
    && Listed(s.lists, s.at)
    && (forall c: Cid {:trigger CpuOk(s, c)} :: IsCpu(s, c) ==> CpuOk(s, c))
    && (forall t {:trigger ThreadOk(s, t)} :: t in s.threads ==> ThreadOk(s, t))
    && s.at.Keys == s.threads.Keys
    && (forall c: Cid {:trigger WorkOk(s, c)} :: IsCpu(s, c) ==> WorkOk(s, c))
  }

  // ---------------------------------------------------------------- every step keeps it

  /** The current thread is alone in its place. */
  lemma CurrentAlone(s: State, c: Cid)
    requires Inv(s) && IsCpu(s, c) && RunsItsThread(s.cpus[c].phase)
    ensures Queue(s, OnCpu(c)) == [s.cpus[c].cur]
  {
    var q, cur := List(s.lists, OnCpu(c)), s.cpus[c].cur;
    assert CpuOk(s, c);
    assert cur in q;
    forall i | 0 <= i < |q| ensures q[i] == cur {
      assert q[i] in List(s.lists, OnCpu(c));
      assert ThreadOk(s, q[i]);
    }
    assert NoDuplicates(List(s.lists, OnCpu(c)));
    SamePosition(q, 0, |q| - 1);
  }

  /** Moving the first thread of p to the end of q changes only those two lists. */
  lemma RelocateQueues(s: State, p: Place, q: Place, r: Place)
    requires Queue(s, p) != []
    ensures Queue(Relocate(s, p, q), r)
            == (if r == q then (if p == q then Queue(s, p)[1..] else Queue(s, q)) + [Queue(s, p)[0]]
                else if r == p then Queue(s, p)[1..]
                else Queue(s, r))
  {
  }

  /** Where thread_switch puts the current thread, by its new state. */
  ghost predicate CanQueue(s: State, c: Cid, q: Place, st: ThreadState) {
    && IsCpu(s, c) && s.cpus[c].phase == Executing && Quiet(s, c)
    && ((q == RunQueue(c) && st == Ready) || (q == Zombies(c) && st == Zombie) || (q.Asleep? && st == Sleep))
    && (st == Ready || Queue(s, Born(s.cpus[c].cur)) == [])
  }

  lemma KeepQueueCurrent(s: State, c: Cid, q: Place, st: ThreadState)
    requires Inv(s) && CanQueue(s, c, q, st)
    ensures Inv(QueueCurrent(s, c, q, st))
  {
    var s' := QueueCurrent(s, c, q, st);
    CurrentAlone(s, c);
    assert CpuOk(s, c);
    MoveHeadListed(s.lists, s.at, OnCpu(c), q);
    forall d: Cid | IsCpu(s', d) ensures CpuOk(s', d) && WorkOk(s', d) {
      assert CpuOk(s, d) && WorkOk(s, d);
    }
    forall t | t in s'.threads ensures ThreadOk(s', t) { QueuedThread(s, c, q, st, t); }
  }

  lemma QueuedThread(s: State, c: Cid, q: Place, st: ThreadState, t: Tid)
    requires Inv(s) && CanQueue(s, c, q, st) && t in s.threads
    ensures ThreadOk(QueueCurrent(s, c, q, st), t)
  {
    CurrentAlone(s, c);
    assert CpuOk(s, c) && ThreadOk(s, t);
    if s.at[t].Born? { assert t in List(s.lists, s.at[t]); }
  }

  lemma KeepDispatch(s: State, c: Cid)
    requires Inv(s) && Enabled(s, Dispatch(c))
    ensures Inv(SwitchTo(s, c))
  {
    var s' := SwitchTo(s, c);
    var next := Queue(s, RunQueue(c))[0];
    MoveHeadListed(s.lists, s.at, RunQueue(c), OnCpu(c));
    assert next in List(s.lists, RunQueue(c));
    assert ThreadOk(s, next) && CpuOk(s, c);
    forall d: Cid | IsCpu(s', d) ensures CpuOk(s', d) && WorkOk(s', d) {
      DispatchCpu(s, c, d);
    }
    forall t | t in s'.threads ensures ThreadOk(s', t) {
      assert ThreadOk(s, t);
    }
  }

  lemma DispatchCpu(s: State, c: Cid, d: Cid)
    requires Inv(s) && Enabled(s, Dispatch(c)) && IsCpu(s, d)
    ensures CpuOk(SwitchTo(s, c), d) && WorkOk(SwitchTo(s, c), d)
  {
    var next := Queue(s, RunQueue(c))[0];
    MoveHeadListed(s.lists, s.at, RunQueue(c), OnCpu(c));
    assert next in List(s.lists, RunQueue(c));
    assert ThreadOk(s, next) && CpuOk(s, c) && WorkOk(s, c);
    assert CpuOk(s, d) && WorkOk(s, d);
  }

  lemma KeepPhase(s: State, c: Cid, phase: Phase, irq: bool)
    requires Inv(s) && IsCpu(s, c)
    requires match phase
             case Idling => (Queue(s, RunQueue(c)) == [] && s.cpus[c].phase == Queued) || (irq && s.cpus[c].phase == Idling)
             case Queued => s.cpus[c].phase == Idling && Quiet(s, c)
             case Executing => s.cpus[c].phase == Reaping
             case _ => false
    ensures Inv(SetCpu(s, c, s.cpus[c].(phase := phase, irq := irq)))
  {
    var s' := SetCpu(s, c, s.cpus[c].(phase := phase, irq := irq));
    forall d: Cid | IsCpu(s', d) ensures CpuOk(s', d) && WorkOk(s', d) {
      assert CpuOk(s, d) && WorkOk(s, d);
    }
    forall t | t in s'.threads ensures ThreadOk(s', t) {
      assert ThreadOk(s, t);
    }
  }

  lemma KeepFinishSwitch(s: State, c: Cid)
    requires Inv(s) && Enabled(s, FinishSwitch(c))
    ensures Inv(Apply(s, FinishSwitch(c)))
  {
    var s' := Apply(s, FinishSwitch(c));
    assert CpuOk(s, c);
    forall d: Cid | IsCpu(s', d) ensures CpuOk(s', d) && WorkOk(s', d) {
      assert CpuOk(s, d) && WorkOk(s, d);
    }
    forall t | t in s'.threads ensures ThreadOk(s', t) {
      assert ThreadOk(s, t);
    }
  }

  /** The zombie a CPU reaps is saved, is nobody's current thread, and is dead only once. */
  lemma ZombieIsGone(s: State, c: Cid)
    requires Inv(s) && Enabled(s, Reap(c))
    ensures var z := Queue(s, Zombies(c))[0];
            && z in s.threads && s.threads[z].state == Zombie && z in s.saved && z !in s.dead
            && forall d: Cid :: IsCpu(s, d) ==> s.cpus[d].cur != z
  {
    var z := Queue(s, Zombies(c))[0];
    assert z in List(s.lists, Zombies(c));
    assert ThreadOk(s, z) && CpuOk(s, c);
    forall d: Cid | IsCpu(s, d) ensures s.cpus[d].cur != z { assert CpuOk(s, d); }
  }

  lemma KeepReap(s: State, c: Cid)
    requires Inv(s) && Enabled(s, Reap(c))
    ensures Inv(DestroyZombie(s, c))
  {
    var s' := DestroyZombie(s, c);
    var lz := List(s.lists, Zombies(c));
    var z := lz[0];
    ZombieIsGone(s, c);
    assert z in List(s.lists, Zombies(c));
    assert NoDuplicates(List(s.lists, Zombies(c)));
    assert z !in lz[1..];
    forall x, r ensures x in List(s'.lists, r) <==> x in s'.at && s'.at[x] == r {
      assert x in List(s.lists, r) <==> x in s.at && s.at[x] == r;
      assert x in lz <==> x == z || x in lz[1..];
    }
    forall r ensures NoDuplicates(List(s'.lists, r)) { assert NoDuplicates(List(s.lists, r)); }
    forall d: Cid | IsCpu(s', d) ensures CpuOk(s', d) && WorkOk(s', d) {
      assert CpuOk(s, d) && WorkOk(s, d);
    }
    forall t | t in s'.threads ensures ThreadOk(s', t) {
      assert ThreadOk(s, t);
    }
  }

  lemma KeepLocks(s: State, locks: map<Chan, Cid>)
    requires Inv(s)
    ensures Inv(s.(locks := locks))
  {
    var s' := s.(locks := locks);
    forall d: Cid | IsCpu(s', d) ensures CpuOk(s', d) && WorkOk(s', d) {
      assert CpuOk(s, d) && WorkOk(s, d);
    }
    forall t | t in s'.threads ensures ThreadOk(s', t) {
      assert ThreadOk(s, t);
    }
  }

  lemma KeepWakeTake(s: State, c: Cid, w: Chan)
    requires Inv(s) && Enabled(s, WakeTake(c, w))
    ensures Inv(Apply(s, WakeTake(c, w)))
  {
    var s' := Apply(s, WakeTake(c, w));
    MoveHeadListed(s.lists, s.at, Asleep(w), Hand(c));
    assert Queue(s, Asleep(w))[0] in List(s.lists, Asleep(w));
    forall d: Cid | IsCpu(s', d) ensures CpuOk(s', d) && WorkOk(s', d) {
      assert CpuOk(s, d) && WorkOk(s, d);
    }
    forall t | t in s'.threads ensures ThreadOk(s', t) {
      assert ThreadOk(s, t);
    }
  }

  /** thread_make_runnable, of a thread woken or of a new one. */
  lemma KeepRelease(s: State, p: Place)
    requires Inv(s) && CanRelease(s, p) && (p.Hand? || p.Born?)
    ensures Inv(Release(s, p))
  {
    var s', t := Release(s, p), Queue(s, p)[0];
    MoveHeadListed(s.lists, s.at, p, RunQueue(s.threads[t].cpu));
    forall d: Cid | IsCpu(s', d) ensures CpuOk(s', d) && WorkOk(s', d) {
      ReleaseCpu(s, p, d);
      ReleaseWork(s, p, d);
    }
    forall x | x in s'.threads ensures ThreadOk(s', x) { ReleaseThread(s, p, x); }
  }

  lemma ReleaseCpu(s: State, p: Place, d: Cid)
    requires Inv(s) && CanRelease(s, p) && (p.Hand? || p.Born?) && IsCpu(s, d)
    ensures CpuOk(Release(s, p), d)
  {
    assert Queue(s, p)[0] in List(s.lists, p);
    assert CpuOk(s, d);
  }

  lemma ReleaseWork(s: State, p: Place, d: Cid)
    requires Inv(s) && CanRelease(s, p) && (p.Hand? || p.Born?) && IsCpu(s, d)
    ensures WorkOk(Release(s, p), d)
  {
    var target := RunQueue(s.threads[Queue(s, p)[0]].cpu);
    assert WorkOk(s, d);
    RelocateQueues(s, p, target, RunQueue(d));
    RelocateQueues(s, p, target, Victims(d));
    RelocateQueues(s, p, target, Hand(d));
  }

  lemma ReleaseThread(s: State, p: Place, x: Tid)
    requires Inv(s) && CanRelease(s, p) && (p.Hand? || p.Born?) && x in s.threads
    ensures ThreadOk(Release(s, p), x)
  {
    assert Queue(s, p)[0] in List(s.lists, p);
    assert ThreadOk(s, x);
  }

  lemma KeepFork(s: State, c: Cid, t: Tid)
    requires Inv(s) && Enabled(s, Fork(c, t))
    ensures Inv(ForkThread(s, c, t))
  {
    var s' := ForkThread(s, c, t);
    ForkListed(s, c, t);
    forall d: Cid | IsCpu(s', d) ensures CpuOk(s', d) && WorkOk(s', d) {
      assert CpuOk(s, d) && WorkOk(s, d);
    }
    forall x | x in s'.threads ensures ThreadOk(s', x) { ForkThreadOk(s, c, t, x); }
  }

  lemma ForkListed(s: State, c: Cid, t: Tid)
    requires Inv(s) && Enabled(s, Fork(c, t))
    ensures Listed(ForkThread(s, c, t).lists, ForkThread(s, c, t).at)
  {
    var s', born := ForkThread(s, c, t), Born(s.cpus[c].cur);
    forall x, r ensures x in List(s'.lists, r) <==> x in s'.at && s'.at[x] == r {
      assert x in List(s.lists, r) <==> x in s.at && s.at[x] == r;
    }
    forall r ensures NoDuplicates(List(s'.lists, r)) { assert NoDuplicates(List(s.lists, r)); }
  }

  lemma ForkThreadOk(s: State, c: Cid, t: Tid, x: Tid)
    requires Inv(s) && Enabled(s, Fork(c, t)) && x in ForkThread(s, c, t).threads
    ensures ThreadOk(ForkThread(s, c, t), x)
  {
    var cur := s.cpus[c].cur;
    assert CpuOk(s, c);
    assert ThreadOk(s, cur);
    if x != t { assert ThreadOk(s, x); }
  }

  /** Starting, deciding and ending a migration only change the counters. */
  lemma KeepMig(s: State, c: Cid, mig: Migration)
    requires Inv(s) && IsCpu(s, c) && CanRun(s, c) && Queue(s, Hand(c)) == []
    requires WorkOk(SetMig(s, c, mig), c)
    ensures Inv(SetMig(s, c, mig))
  {
    var s' := SetMig(s, c, mig);
    forall d: Cid | IsCpu(s', d) ensures CpuOk(s', d) && WorkOk(s', d) {
      assert CpuOk(s, d) && WorkOk(s, d);
    }
    forall x | x in s'.threads ensures ThreadOk(s', x) {
      assert ThreadOk(s, x);
    }
  }

  lemma KeepMigrateTake(s: State, c: Cid)
    requires Inv(s) && Enabled(s, MigrateTake(c))
    ensures Inv(Apply(s, MigrateTake(c)))
  {
    var s' := Apply(s, MigrateTake(c));
    var q := Queue(s, RunQueue(c));
    assert WorkOk(s, c);
    MoveLastListed(s.lists, s.at, RunQueue(c), Victims(c));
    MigrateTakeWork(s, c);
    assert q[|q| - 1] in List(s.lists, RunQueue(c));
    forall d: Cid | IsCpu(s', d) ensures CpuOk(s', d) {
      assert CpuOk(s, d);
    }
    forall x | x in s'.threads ensures ThreadOk(s', x) {
      assert ThreadOk(s, x);
    }
  }

  lemma MigrateTakeWork(s: State, c: Cid)
    requires Inv(s) && Enabled(s, MigrateTake(c))
    ensures var s' := Apply(s, MigrateTake(c)); forall e: Cid {:trigger WorkOk(s', e)} :: IsCpu(s', e) ==> WorkOk(s', e)
  {
    var s' := Apply(s, MigrateTake(c));
    assert WorkOk(s, c);
    forall d: Cid | IsCpu(s', d) ensures WorkOk(s', d) {
      assert WorkOk(s, d);
      assert d != c ==> Queue(s', RunQueue(d)) == Queue(s, RunQueue(d)) && Queue(s', Victims(d)) == Queue(s, Victims(d));
      assert Queue(s', Hand(d)) == Queue(s, Hand(d));
    }
  }

  /** The current thread is among the victims: it goes to the end of the list. */
  lemma KeepMigrateSkip(s: State, c: Cid, share: nat, toSend: nat)
    requires Inv(s) && IsCpu(s, c) && s.cpus[c].mig == Sending(share, toSend) && toSend > 0
    ensures Queue(s, Victims(c)) != []
    ensures Inv(SetMig(Relocate(s, Victims(c), Victims(c)), c, Sending(share, toSend - 1)))
  {
    assert WorkOk(s, c);
    var s1 := Relocate(s, Victims(c), Victims(c));
    KeepRotate(s, c);
    RelocateQueues(s, Victims(c), Victims(c), Victims(c));
    assert WorkOk(s1, c);
    KeepMig(s1, c, Sending(share, toSend - 1));
  }

  lemma KeepRotate(s: State, c: Cid)
    requires Inv(s) && IsCpu(s, c) && Queue(s, Victims(c)) != []
    ensures Inv(Relocate(s, Victims(c), Victims(c)))
  {
    var s' := Relocate(s, Victims(c), Victims(c));
    assert Queue(s, Victims(c))[0] in List(s.lists, Victims(c));
    MoveHeadListed(s.lists, s.at, Victims(c), Victims(c));
    assert s'.at == s.at;
    forall e: Cid | IsCpu(s', e) ensures CpuOk(s', e) && WorkOk(s', e) {
      assert CpuOk(s, e) && WorkOk(s, e);
    }
    forall x | x in s'.threads ensures ThreadOk(s', x) {
      assert ThreadOk(s, x);
    }
  }

  /** A victim that is not the current thread. */
  ghost predicate CanSend(s: State, c: Cid, d: Cid) {
    && Enabled(s, MigrateSend(c, d)) && Queue(s, Victims(c)) != []
    && Queue(s, Victims(c))[0] != s.cpus[c].cur && Queue(s, Victims(c))[0] in s.threads
  }

  /** It has its registers saved, so it may change CPUs. */
  lemma KeepMigrateMove(s: State, c: Cid, d: Cid)
    requires Inv(s) && CanSend(s, c, d)
    ensures Inv(Apply(s, MigrateSend(c, d)))
  {
    var s' := Apply(s, MigrateSend(c, d));
    assert Queue(s, Victims(c))[0] in List(s.lists, Victims(c));
    MoveHeadListed(s.lists, s.at, Victims(c), RunQueue(d));
    forall e: Cid | IsCpu(s', e) ensures CpuOk(s', e) && WorkOk(s', e) {
      MigrateMoveCpu(s, c, d, e);
      MigrateMoveWork(s, c, d, e);
    }
    forall x | x in s'.threads ensures ThreadOk(s', x) { MigrateMoveThread(s, c, d, x); }
  }

  lemma MigrateMoveCpu(s: State, c: Cid, d: Cid, e: Cid)
    requires Inv(s) && CanSend(s, c, d) && IsCpu(s, e)
    ensures CpuOk(Apply(s, MigrateSend(c, d)), e)
  {
    var t := Queue(s, Victims(c))[0];
    assert t in List(s.lists, Victims(c));
    assert ThreadOk(s, t) && CpuOk(s, e);
  }

  lemma MigrateMoveThread(s: State, c: Cid, d: Cid, x: Tid)
    requires Inv(s) && CanSend(s, c, d) && x in s.threads
    ensures ThreadOk(Apply(s, MigrateSend(c, d)), x)
  {
    assert Queue(s, Victims(c))[0] in List(s.lists, Victims(c));
    assert ThreadOk(s, x);
  }

  lemma MigrateMoveWork(s: State, c: Cid, d: Cid, e: Cid)
    requires Inv(s) && CanSend(s, c, d) && IsCpu(s, e)
    ensures WorkOk(Apply(s, MigrateSend(c, d)), e)
  {
    assert WorkOk(s, e);
    RelocateQueues(s, Victims(c), RunQueue(d), RunQueue(e));
    RelocateQueues(s, Victims(c), RunQueue(d), Victims(e));
    RelocateQueues(s, Victims(c), RunQueue(d), Hand(e));
  }

  lemma KeepMigrateSend(s: State, c: Cid, d: Cid)
    requires Inv(s) && Enabled(s, MigrateSend(c, d))
    ensures Inv(Apply(s, MigrateSend(c, d)))
  {
    var mig := s.cpus[c].mig;
    KeepMigrateSkip(s, c, mig.share, mig.toSend);
    if Queue(s, Victims(c))[0] != s.cpus[c].cur {
      assert Queue(s, Victims(c))[0] in List(s.lists, Victims(c));
      KeepMigrateMove(s, c, d);
    }
  }

  /** Why the current thread must be skipped: sent to another CPU, it would wait on that
      CPU's run queue with its registers nowhere saved. */
  lemma MovingTheCurrentThreadIsUnsafe(s: State, c: Cid, d: Cid)
    requires Inv(s) && IsCpu(s, c) && IsCpu(s, d) && c != d
    requires Queue(s, Victims(c)) != [] && Queue(s, Victims(c))[0] == s.cpus[c].cur
    ensures var t := s.cpus[c].cur;
            var moved := SetThread(Relocate(s, Victims(c), RunQueue(d)), t, Thread(Ready, d));
            t in Queue(moved, RunQueue(d)) && t !in moved.saved && t != moved.cpus[d].cur && !Inv(moved)
  {
    var t := s.cpus[c].cur;
    var moved := SetThread(Relocate(s, Victims(c), RunQueue(d)), t, Thread(Ready, d));
    RelocateQueues(s, Victims(c), RunQueue(d), RunQueue(d));
    assert CpuOk(s, c) && CpuOk(s, d);
    assert !CpuOk(moved, c);
  }

  lemma KeepMigrateReturn(s: State, c: Cid)
    requires Inv(s) && Enabled(s, MigrateReturn(c))
    ensures Inv(Apply(s, MigrateReturn(c)))
  {
    var s' := Apply(s, MigrateReturn(c));
    assert Queue(s, Victims(c))[0] in List(s.lists, Victims(c));
    MoveHeadListed(s.lists, s.at, Victims(c), RunQueue(c));
    forall e: Cid | IsCpu(s', e) ensures CpuOk(s', e) && WorkOk(s', e) {
      assert CpuOk(s, e) && WorkOk(s, e);
    }
    forall x | x in s'.threads ensures ThreadOk(s', x) {
      assert ThreadOk(s, x);
    }
  }

  lemma KeepSwitchStep(s: State, step: Step)
    requires Inv(s) && Enabled(s, step)
    requires step.Yield? || step.SleepOn? || step.Exit? || step.Dispatch? || step.GoIdle? || step.Interrupt? || step.Unidle?
    ensures Inv(Apply(s, step))
  {
    var c := step.c;
    match step
    case Yield(_) => KeepQueueCurrent(s, c, RunQueue(c), Ready);
    case SleepOn(_, w) =>
      KeepQueueCurrent(s, c, Asleep(w), Sleep);
      KeepLocks(QueueCurrent(s, c, Asleep(w), Sleep), s.locks - {w});
    case Exit(_) => KeepQueueCurrent(s, c, Zombies(c), Zombie);
    case Dispatch(_) => KeepDispatch(s, c);
    case GoIdle(_) => KeepPhase(s, c, Idling, false);
    case Interrupt(_) => KeepPhase(s, c, Idling, true);
    case Unidle(_) => KeepPhase(s, c, Queued, s.cpus[c].irq);
  }

  lemma KeepMigrateStep(s: State, step: Step)
    requires Inv(s) && Enabled(s, step)
    requires step.MigrateCount? || step.MigrateDecide? || step.MigrateTake? || step.MigrateSend? || step.MigrateReturn? || step.MigrateEnd?
    ensures Inv(Apply(s, step))
  {
    var c := step.c;
    assert WorkOk(s, c);
    match step
    case MigrateCount(_) => KeepMig(s, c, Counted(|Queue(s, RunQueue(c))|));
    case MigrateDecide(_, total) =>
      var share, my := DivRoundUp(total, |s.cpus|), s.cpus[c].mig.my;
      KeepMig(s, c, if my < share then NotMigrating else if my == share then Sending(share, 0) else Taking(share, my - share, my - share));
    case MigrateTake(_) => KeepMigrateTake(s, c);
    case MigrateSend(_, d) => KeepMigrateSend(s, c, d);
    case MigrateReturn(_) => KeepMigrateReturn(s, c);
    case MigrateEnd(_) => KeepMig(s, c, NotMigrating);
  }

  lemma KeepStep(s: State, step: Step)
    requires Inv(s) && Enabled(s, step)
    ensures Inv(Apply(s, step))
  {
    var c := step.c;
    match step
    case FinishSwitch(_) => KeepFinishSwitch(s, c);
    case Reap(_) => KeepReap(s, c);
    case ReapDone(_) => KeepPhase(s, c, Executing, s.cpus[c].irq);
    case LockChan(_, w) => KeepLocks(s, s.locks[w := c]);
    case UnlockChan(_, w) => KeepLocks(s, s.locks - {w});
    case WakeTake(_, w) => KeepWakeTake(s, c, w);
    case MakeRunnable(_) => KeepRelease(s, Hand(c));
    case Fork(_, t) => KeepFork(s, c, t);
    case ForkDone(_) => KeepRelease(s, Born(s.cpus[c].cur));
    case Yield(_) => KeepSwitchStep(s, step);
    case SleepOn(_, _) => KeepSwitchStep(s, step);
    case Exit(_) => KeepSwitchStep(s, step);
    case Dispatch(_) => KeepSwitchStep(s, step);
    case GoIdle(_) => KeepSwitchStep(s, step);
    case Interrupt(_) => KeepSwitchStep(s, step);
    case Unidle(_) => KeepSwitchStep(s, step);
    case _ => KeepMigrateStep(s, step);
  }

  // ---------------------------------------------------------------- whole runs

  /** At boot every CPU runs its boot thread, numbered like the CPU. */
  function Boot(n: nat): State {
    State(
      seq(n, c requires 0 <= c < n => Cpu(c, Executing, false, NotMigrating)),
      map t: Tid | t < n :: Thread(Run, t),
      map p: Place | p in (set c: Cid | c < n :: OnCpu(c)) :: [p.c],
      map t: Tid | t < n :: OnCpu(t),
      {}, map[], {})
  }

  lemma BootInv(n: nat)
    ensures Inv(Boot(n))
  {
    var s := Boot(n);
    forall p, t ensures t in List(s.lists, p) <==> t in s.at && s.at[t] == p {
      if t in List(s.lists, p) { assert p.OnCpu? && p.c == t; }
      if t in s.at && s.at[t] == p { assert OnCpu(t) in s.lists; }
    }
    forall c: Cid | IsCpu(s, c) ensures CpuOk(s, c) && WorkOk(s, c) {
    }
    forall t | t in s.threads ensures ThreadOk(s, t) {
    }
  }

  /** The states a schedule goes through, as long as its steps are enabled. */
  ghost predicate IsRun(states: seq<State>, steps: seq<Step>) {
    && |states| == |steps| + 1
    && forall i {:trigger steps[i]} :: 0 <= i < |steps| ==>
         Enabled(states[i], steps[i]) && states[i + 1] == Apply(states[i], steps[i])
  }

  /** Every state of every run from boot satisfies the invariant. */
  lemma {:induction false} RunInv(n: nat, states: seq<State>, steps: seq<Step>, i: nat)
    requires IsRun(states, steps) && states[0] == Boot(n) && i < |states|
    ensures Inv(states[i])
    decreases i
  {
    if i == 0 {
      BootInv(n);
    } else {
      RunInv(n, states, steps, i - 1);
      KeepStep(states[i - 1], steps[i - 1]);
    }
  }

  ghost predicate OnlyIn(s: State, t: Tid, p: Place) {
    t in Queue(s, p) && forall q {:trigger t in List(s.lists, q)} :: t in List(s.lists, q) ==> q == p
  }

  /** In every run each live thread is in exactly one place and there exactly once, no
      thread is current on two CPUs, and a run queue holds only its own CPU's threads. */
  lemma ExactlyOnePlace(n: nat, states: seq<State>, steps: seq<Step>, i: nat)
    requires IsRun(states, steps) && states[0] == Boot(n) && i < |states|
    ensures var s := states[i];
            && (forall t :: t in s.threads ==> exists p :: OnlyIn(s, t, p))
            && (forall p :: NoDuplicates(Queue(s, p)))
            && (forall c: Cid, d: Cid :: IsCpu(s, c) && IsCpu(s, d) && c != d ==> s.cpus[c].cur != s.cpus[d].cur)
            && (forall c: Cid, t :: t in Queue(s, RunQueue(c)) ==> t in s.threads && s.threads[t].cpu == c)
  {
    var s := states[i];
    RunInv(n, states, steps, i);
    forall t | t in s.threads ensures exists p :: OnlyIn(s, t, p) {
      assert ThreadOk(s, t);
      assert t in List(s.lists, s.at[t]);
      assert OnlyIn(s, t, s.at[t]);
    }
    forall c: Cid, d: Cid | IsCpu(s, c) && IsCpu(s, d) && c != d ensures s.cpus[c].cur != s.cpus[d].cur {
      assert CpuOk(s, c) && CpuOk(s, d);
    }
    forall c: Cid, t | t in Queue(s, RunQueue(c)) ensures t in s.threads && s.threads[t].cpu == c {
      assert t in List(s.lists, RunQueue(c));
      assert ThreadOk(s, t);
    }
  }

  /** Whatever a CPU dispatches in any run has its registers saved, unless the CPU switches
      back to the thread it never left; and it is current nowhere else. */
  lemma DispatchIsSafe(n: nat, states: seq<State>, steps: seq<Step>, i: nat)
    requires IsRun(states, steps) && states[0] == Boot(n) && i < |steps| && steps[i].Dispatch?
    ensures var s, c := states[i], steps[i].c;
            var next := Queue(s, RunQueue(c))[0];
            && next in s.threads && s.threads[next].state == Ready
            && (next in s.saved || next == s.cpus[c].cur)
            && forall d: Cid :: IsCpu(s, d) && d != c ==> s.cpus[d].cur != next
  {
    var s, c := states[i], steps[i].c;
    RunInv(n, states, steps, i);
    var next := Queue(s, RunQueue(c))[0];
    assert next in List(s.lists, RunQueue(c));
    assert ThreadOk(s, next);
    forall d: Cid | IsCpu(s, d) && d != c ensures s.cpus[d].cur != next { assert CpuOk(s, d); }
  }

  /** A thread is destroyed only after its CPU has switched away from it, and never twice. */
  lemma DestroyedOnce(n: nat, states: seq<State>, steps: seq<Step>, i: nat, j: nat)
    requires IsRun(states, steps) && states[0] == Boot(n) && i < |steps| && steps[i].Reap?
    requires i < j < |steps| && steps[j].Reap?
    ensures var z := Queue(states[i], Zombies(steps[i].c))[0];
            && z in states[i].saved && (forall d: Cid :: IsCpu(states[i], d) ==> states[i].cpus[d].cur != z)
            && Queue(states[j], Zombies(steps[j].c))[0] != z
  {
    RunInv(n, states, steps, i);
    RunInv(n, states, steps, j);
    ZombieIsGone(states[i], steps[i].c);
    ZombieIsGone(states[j], steps[j].c);
    DeadGrows(states, steps, i + 1, j);
  }

  lemma {:induction false} DeadGrows(states: seq<State>, steps: seq<Step>, i: nat, j: nat)
    requires IsRun(states, steps) && i <= j < |states|
    ensures states[i].dead <= states[j].dead
    decreases j
  {
    if i == j {
    } else {
      DeadGrows(states, steps, i, j - 1);
      assert Enabled(states[j - 1], steps[j - 1]);
    }
  }

  /** An idle CPU with work on its run queue always has an interrupt on its way. */
  lemma IdleCpuIsWoken(n: nat, states: seq<State>, steps: seq<Step>, i: nat, c: Cid)
    requires IsRun(states, steps) && states[0] == Boot(n) && i < |states| && IsCpu(states[i], c)
    ensures states[i].cpus[c].phase == Idling && Queue(states[i], RunQueue(c)) != [] ==> states[i].cpus[c].irq
  {
    RunInv(n, states, steps, i);
    assert WorkOk(states[i], c);
  }

  /** The removals of the migration code never find an empty list, whatever happens on the
      other CPUs meanwhile. */
  lemma MigrationNeverRunsDry(n: nat, states: seq<State>, steps: seq<Step>, i: nat)
    requires IsRun(states, steps) && states[0] == Boot(n) && i < |steps|
    ensures steps[i].MigrateTake? ==> Queue(states[i], RunQueue(steps[i].c)) != []
    ensures steps[i].MigrateSend? ==> Queue(states[i], Victims(steps[i].c)) != []
  {
    RunInv(n, states, steps, i);
    assert Enabled(states[i], steps[i]);
    assert WorkOk(states[i], steps[i].c);
  }

  // ---------------------------------------------------------------- what each step does to the lists

  /** The lists outside except are as they were. */
  ghost predicate SameLists(s: State, s': State, except: set<Place>) {
    forall p {:trigger Queue(s', p)} :: p !in except ==> Queue(s', p) == Queue(s, p)
  }

  /** t was the first of p and is now the last of q; no other list has changed. */
  ghost predicate FirstToLast(s: State, s': State, t: Tid, p: Place, q: Place) {
    && p != q && Queue(s, p) == [t] + Queue(s', p) && Queue(s', q) == Queue(s, q) + [t]
    && SameLists(s, s', {p, q})
  }

  /** t is in state st on CPU c, and all other threads are as they were. */
  ghost predicate OnlyThread(s: State, s': State, t: Tid, st: ThreadState, c: Cid) {
    && t in s'.threads && s'.threads[t] == Thread(st, c)
    && forall u :: u != t ==> (u in s'.threads <==> u in s.threads) && (u in s.threads ==> s'.threads[u] == s.threads[u])
  }

  lemma RelocateMoves(s: State, p: Place, q: Place)
    requires Queue(s, p) != [] && p != q
    ensures FirstToLast(s, Relocate(s, p, q), Queue(s, p)[0], p, q)
  {
    RelocateQueues(s, p, q, p);
    RelocateQueues(s, p, q, q);
    forall r | r !in {p, q} ensures Queue(Relocate(s, p, q), r) == Queue(s, r) { RelocateQueues(s, p, q, r); }
  }

  /** Giving up the CPU: the current thread goes to the end of the run queue, of the channel it
      sleeps on, or of the zombies, and of no other list. */
  lemma SwitchOutTheorem(n: nat, states: seq<State>, steps: seq<Step>, i: nat)
    requires IsRun(states, steps) && states[0] == Boot(n) && i < |steps|
    requires steps[i].Yield? || steps[i].SleepOn? || steps[i].Exit?
    ensures var s, s', c := states[i], states[i + 1], steps[i].c;
            && IsCpu(s, c) && IsCpu(s', c)
            && var t := s.cpus[c].cur;
            && s'.cpus[c].phase == Queued && s'.cpus[c].cur == t
            && match steps[i]
               case Yield(_) => FirstToLast(s, s', t, OnCpu(c), RunQueue(c)) && OnlyThread(s, s', t, Ready, c)
               case SleepOn(_, w) =>
                 FirstToLast(s, s', t, OnCpu(c), Asleep(w)) && OnlyThread(s, s', t, Sleep, c) && w !in s'.locks
               case Exit(_) => FirstToLast(s, s', t, OnCpu(c), Zombies(c)) && OnlyThread(s, s', t, Zombie, c)
               case _ => true
  {
    RunInv(n, states, steps, i);
    var s, c := states[i], steps[i].c;
    var t := s.cpus[c].cur;
    CurrentAlone(s, c);
    assert CpuOk(s, c);
    match steps[i]
    case Yield(_) => RelocateMoves(s, OnCpu(c), RunQueue(c));
    case SleepOn(_, w) => RelocateMoves(s, OnCpu(c), Asleep(w));
    case Exit(_) => RelocateMoves(s, OnCpu(c), Zombies(c));
  }

  /** Getting it: the first thread of the run queue becomes the current one, and the one that was
      has its registers saved; then it runs. */
  lemma SwitchInTheorem(n: nat, states: seq<State>, steps: seq<Step>, i: nat)
    requires IsRun(states, steps) && states[0] == Boot(n) && i < |steps| && (steps[i].Dispatch? || steps[i].FinishSwitch?)
    ensures var s, s', c := states[i], states[i + 1], steps[i].c;
            && IsCpu(s, c) && IsCpu(s', c)
            && var was, t := s.cpus[c].cur, s'.cpus[c].cur;
            && (steps[i].Dispatch? ==>
                  && FirstToLast(s, s', t, RunQueue(c), OnCpu(c)) && s'.cpus[c].phase == Landed && s'.threads == s.threads
                  && t !in s'.saved && (was != t ==> was in s'.saved) && Queue(s', OnCpu(c)) == [t])
            && (steps[i].FinishSwitch? ==>
                  && SameLists(s, s', {}) && t == was && s'.cpus[c].phase == Reaping && OnlyThread(s, s', t, Run, c) && s'.saved == s.saved)
  {
    RunInv(n, states, steps, i);
    var s, c := states[i], steps[i].c;
    assert CpuOk(s, c);
    if steps[i].Dispatch? {
      RelocateMoves(s, RunQueue(c), OnCpu(c));
      NobodyOnCpu(s, c);
    }
  }

  /** A CPU that is choosing has nobody on it. */
  lemma NobodyOnCpu(s: State, c: Cid)
    requires Inv(s) && IsCpu(s, c) && !RunsItsThread(s.cpus[c].phase)
    ensures Queue(s, OnCpu(c)) == []
  {
    var q := Queue(s, OnCpu(c));
    if q != [] { OnCpuRuns(s, c, q[0]); }
  }

  lemma OnCpuRuns(s: State, c: Cid, t: Tid)
    requires Inv(s) && IsCpu(s, c)
    ensures t in Queue(s, OnCpu(c)) ==> RunsItsThread(s.cpus[c].phase)
  {
    if t in List(s.lists, OnCpu(c)) { assert ThreadOk(s, t); }
  }

  /** Waking and forking: the first sleeper of the channel is taken in hand; who is in hand, or
      newly made, goes to the end of the run queue of its own CPU, ready, and that CPU, if idle,
      is interrupted. */
  lemma WakeTheorem(n: nat, states: seq<State>, steps: seq<Step>, i: nat)
    requires IsRun(states, steps) && states[0] == Boot(n) && i < |steps|
    ensures var s, s', c := states[i], states[i + 1], steps[i].c;
            match steps[i]
            case WakeTake(_, w) =>
              Queue(s, Asleep(w)) != [] && FirstToLast(s, s', Queue(s, Asleep(w))[0], Asleep(w), Hand(c)) && s'.threads == s.threads
            case MakeRunnable(_) => Queue(s, Hand(c)) != [] && MadeReady(s, s', Queue(s, Hand(c))[0], Hand(c))
            case Fork(_, t) =>
              && IsCpu(s, c) && var born := Born(s.cpus[c].cur);
              && t !in s.threads && Queue(s, born) == [] && Queue(s', born) == [t] && SameLists(s, s', {born})
              && OnlyThread(s, s', t, Ready, c) && s'.saved == s.saved + {t}
            case ForkDone(_) =>
              && IsCpu(s, c) && var born := Born(s.cpus[c].cur);
              Queue(s, born) != [] && MadeReady(s, s', Queue(s, born)[0], born)
            case _ => true
  {
    RunInv(n, states, steps, i);
    var s, c := states[i], steps[i].c;
    match steps[i]
    case WakeTake(_, w) => RelocateMoves(s, Asleep(w), Hand(c));
    case MakeRunnable(_) => ReleaseMoves(s, Hand(c));
    case ForkDone(_) => ReleaseMoves(s, Born(s.cpus[c].cur));
    case _ =>
  }

  ghost predicate MadeReady(s: State, s': State, t: Tid, p: Place) {
    && t in s.threads
    && var d := s.threads[t].cpu;
    && FirstToLast(s, s', t, p, RunQueue(d)) && OnlyThread(s, s', t, Ready, d)
    && IsCpu(s, d) && IsCpu(s', d) && (s.cpus[d].phase == Idling ==> s'.cpus[d].irq) && s'.cpus[d].phase == s.cpus[d].phase
  }

  lemma ReleaseMoves(s: State, p: Place)
    requires CanRelease(s, p) && (p.Hand? || p.Born?)
    ensures MadeReady(s, Release(s, p), Queue(s, p)[0], p)
  {
    var t := Queue(s, p)[0];
    RelocateMoves(s, p, RunQueue(s.threads[t].cpu));
  }

  /** Migration takes victims from the end of the own run queue, sets the current thread back to
      the end of the victims, sends any other, and returns the rest to the own run queue. */
  lemma MigrateTheorem(n: nat, states: seq<State>, steps: seq<Step>, i: nat)
    requires IsRun(states, steps) && states[0] == Boot(n) && i < |steps|
    ensures var s, s', c := states[i], states[i + 1], steps[i].c;
            match steps[i]
            case MigrateTake(_) =>
              var own, vs := Queue(s, RunQueue(c)), Queue(s, Victims(c));
              && own != [] && Queue(s', RunQueue(c)) == own[..|own| - 1] && Queue(s', Victims(c)) == [own[|own| - 1]] + vs
              && SameLists(s, s', {RunQueue(c), Victims(c)}) && s'.threads == s.threads
            case MigrateSend(_, d) =>
              var vs := Queue(s, Victims(c));
              && vs != [] && IsCpu(s, c) && d != c && s.cpus[c].mig.Sending? && |Queue(s, RunQueue(d))| < s.cpus[c].mig.share
              && (vs[0] == s.cpus[c].cur ==>
                    Queue(s', Victims(c)) == vs[1..] + [vs[0]] && SameLists(s, s', {Victims(c)}) && s'.threads == s.threads)
              && (vs[0] != s.cpus[c].cur ==>
                    && FirstToLast(s, s', vs[0], Victims(c), RunQueue(d)) && OnlyThread(s, s', vs[0], Ready, d)
                    && IsCpu(s, d) && IsCpu(s', d) && (s.cpus[d].phase == Idling ==> s'.cpus[d].irq))
            case MigrateReturn(_) =>
              && Queue(s, Victims(c)) != [] && FirstToLast(s, s', Queue(s, Victims(c))[0], Victims(c), RunQueue(c))
              && s'.threads == s.threads
            case _ => true
  {
    RunInv(n, states, steps, i);
    var s, c := states[i], steps[i].c;
    assert WorkOk(s, c);
    match steps[i]
    case MigrateSend(_, d) => SendMoves(s, c, d);
    case MigrateReturn(_) => RelocateMoves(s, Victims(c), RunQueue(c));
    case _ =>
  }

  lemma SendMoves(s: State, c: Cid, d: Cid)
    requires Inv(s) && Enabled(s, MigrateSend(c, d)) && Queue(s, Victims(c)) != []
    ensures var s', vs := Apply(s, MigrateSend(c, d)), Queue(s, Victims(c));
            && (vs[0] == s.cpus[c].cur ==>
                  Queue(s', Victims(c)) == vs[1..] + [vs[0]] && SameLists(s, s', {Victims(c)}) && s'.threads == s.threads)
            && (vs[0] != s.cpus[c].cur ==>
                  && FirstToLast(s, s', vs[0], Victims(c), RunQueue(d)) && OnlyThread(s, s', vs[0], Ready, d)
                  && IsCpu(s', d) && (s.cpus[d].phase == Idling ==> s'.cpus[d].irq))
  {
    var t := Queue(s, Victims(c))[0];
    assert t in List(s.lists, Victims(c));
    assert ThreadOk(s, t);
    RelocateMoves(s, Victims(c), RunQueue(d));
  }

  /** Reaping takes the first zombie, and it is gone; every other step leaves all lists alone. */
  lemma OthersTheorem(n: nat, states: seq<State>, steps: seq<Step>, i: nat)
    requires IsRun(states, steps) && states[0] == Boot(n) && i < |steps|
    ensures var s, s', c := states[i], states[i + 1], steps[i].c;
            match steps[i]
            case Reap(_) =>
              var zs := Queue(s, Zombies(c));
              && zs != [] && Queue(s', Zombies(c)) == zs[1..] && SameLists(s, s', {Zombies(c)})
              && s'.threads == s.threads - {zs[0]} && s'.dead == s.dead + {zs[0]}
            case GoIdle(_) =>
              && Queue(s, RunQueue(c)) == [] && SameLists(s, s', {}) && s'.threads == s.threads
              && IsCpu(s', c) && s'.cpus[c].phase == Idling && !s'.cpus[c].irq
            case Interrupt(_) => SameLists(s, s', {}) && s'.threads == s.threads && IsCpu(s', c) && s'.cpus[c].irq
            case Unidle(_) => SameLists(s, s', {}) && s'.threads == s.threads && IsCpu(s', c) && s'.cpus[c].phase == Queued
            case ReapDone(_) =>
              Queue(s, Zombies(c)) == [] && SameLists(s, s', {}) && s'.threads == s.threads && IsCpu(s', c) && s'.cpus[c].phase == Executing
            case LockChan(_, w) => SameLists(s, s', {}) && s'.threads == s.threads && w !in s.locks && s'.locks == s.locks[w := c]
            case UnlockChan(_, w) => SameLists(s, s', {}) && s'.threads == s.threads && w !in s'.locks
            case MigrateCount(_) =>
              SameLists(s, s', {}) && s'.threads == s.threads && IsCpu(s', c) && s'.cpus[c].mig == Counted(|Queue(s, RunQueue(c))|)
            case MigrateDecide(_, _) => SameLists(s, s', {}) && s'.threads == s.threads
            case MigrateEnd(_) => SameLists(s, s', {}) && s'.threads == s.threads
            case _ => true
  {
    RunInv(n, states, steps, i);
  }

  predicate Migrates(step: Step) {
    step.MigrateCount? || step.MigrateDecide? || step.MigrateTake? || step.MigrateSend? || step.MigrateReturn? || step.MigrateEnd?
  }

  /** Where the migration code of CPU c is after a step: it is moved on by that CPU alone. */
  predicate MigFollows(mig: Migration, step: Step, c: Cid, mig': Migration) {
    if step.c != c || !Migrates(step) then mig' == mig
    else match step
      case MigrateCount(_) => mig == NotMigrating
      case MigrateDecide(_, _) => mig.Counted?
      case MigrateTake(_) =>
        mig.Taking? && mig.left > 0 && mig' == if mig.left == 1 then Sending(mig.share, mig.toSend) else mig.(left := mig.left - 1)
      case MigrateSend(_, _) => mig.Sending? && mig.toSend > 0 && mig' == Sending(mig.share, mig.toSend - 1)
      case MigrateReturn(_) => mig.Sending? && mig' == Sending(mig.share, 0)
      case MigrateEnd(_) => mig' == NotMigrating
      case _ => false
  }

  lemma MigNext(s: State, step: Step, c: Cid)
    requires Inv(s) && Enabled(s, step) && IsCpu(s, c)
    ensures |Apply(s, step).cpus| == |s.cpus| && MigFollows(s.cpus[c].mig, step, c, Apply(s, step).cpus[c].mig)
  {
    if Migrates(step) { MigMoves(s, step, c); } else { MigStays(s, step, c); }
  }

  lemma MigStays(s: State, step: Step, c: Cid)
    requires Enabled(s, step) && IsCpu(s, c) && !Migrates(step)
    ensures |Apply(s, step).cpus| == |s.cpus| && Apply(s, step).cpus[c].mig == s.cpus[c].mig
  {
    if step.MakeRunnable? || step.ForkDone? { ReleaseKeepsMig(s, if step.ForkDone? then Born(s.cpus[step.c].cur) else Hand(step.c), c); }
  }

  lemma ReleaseKeepsMig(s: State, p: Place, c: Cid)
    requires CanRelease(s, p) && IsCpu(s, c)
    ensures |Release(s, p).cpus| == |s.cpus| && Release(s, p).cpus[c].mig == s.cpus[c].mig
  {
  }

  lemma MigMoves(s: State, step: Step, c: Cid)
    requires Inv(s) && Enabled(s, step) && IsCpu(s, c) && Migrates(step)
    ensures |Apply(s, step).cpus| == |s.cpus| && MigFollows(s.cpus[c].mig, step, c, Apply(s, step).cpus[c].mig)
  {
    assert WorkOk(s, step.c);
    if step.MigrateSend? { SendNext(s, step.c, step.d, c); }
  }

  lemma SendNext(s: State, c: Cid, d: Cid, e: Cid)
    requires Inv(s) && Enabled(s, MigrateSend(c, d)) && IsCpu(s, e)
    ensures var s' := Apply(s, MigrateSend(c, d));
            && |s'.cpus| == |s.cpus|
            && s'.cpus[e].mig == if e == c then Sending(s.cpus[c].mig.share, s.cpus[c].mig.toSend - 1) else s.cpus[e].mig
  {
    assert WorkOk(s, c);
    var t := Queue(s, Victims(c))[0];
    assert t in List(s.lists, Victims(c));
    assert ThreadOk(s, t);
  }

  /** How many of the steps from i up to j take a victim on CPU c, or send one. */
  function HowMany(steps: seq<Step>, i: nat, j: nat, c: Cid, take: bool): nat
    requires i <= j <= |steps|
  {
    if i == j then 0
    else HowMany(steps, i, j - 1, c, take)
         + (if steps[j - 1].c == c && (if take then steps[j - 1].MigrateTake? else steps[j - 1].MigrateSend?) then 1 else 0)
  }

  /** An even share of total over n CPUs, rounded up. */
  ghost predicate EvenShare(share: nat, total: nat, n: nat) {
    share * n >= total && (share > 0 ==> (share - 1) * n < total)
  }

  lemma {:induction false} ShareIsEven(total: nat, n: nat)
    requires n > 0
    ensures EvenShare(DivRoundUp(total, n), total, n)
  {
    if total > 0 {
      var rest := if total < n then 0 else total - n;
      ShareIsEven(rest, n);
      var q := DivRoundUp(rest, n);
      assert DivRoundUp(total, n) == 1 + q;
      assert (1 + q) * n == q * n + n;
      if q > 0 { assert (q - 1) * n + n == q * n; }
    }
  }

  /** With a surplus to be got rid of: so many have been taken, so many sent. */
  predicate Plan(mig: Migration, share: nat, surplus: nat, takes: nat, sends: nat) {
    match mig
    case Taking(sh, left, toSend) => sh == share && left > 0 && takes + left == surplus == toSend && sends == 0
    case Sending(sh, toSend) => sh == share && takes == surplus && sends + toSend <= surplus
    case _ => false
  }

  lemma PlanOn(mig: Migration, step: Step, c: Cid, mig': Migration, share: nat, surplus: nat, takes: nat, sends: nat)
    requires Plan(mig, share, surplus, takes, sends) && MigFollows(mig, step, c, mig') && mig' != NotMigrating
    ensures Plan(mig', share, surplus, takes + (if step.c == c && step.MigrateTake? then 1 else 0),
                 sends + (if step.c == c && step.MigrateSend? then 1 else 0))
  {
  }

  lemma FirstPlan(s: State, c: Cid, total: nat)
    requires Enabled(s, MigrateDecide(c, total))
    ensures var mig, share := Apply(s, MigrateDecide(c, total)).cpus[c].mig, DivRoundUp(total, |s.cpus|);
            && s.cpus[c].mig.Counted? && EvenShare(share, total, |s.cpus|)
            && if s.cpus[c].mig.my < share then mig == NotMigrating else Plan(mig, share, s.cpus[c].mig.my - share, 0, 0)
  {
    ShareIsEven(total, |s.cpus|);
  }

  predicate MigAt(states: seq<State>, steps: seq<Step>, k: nat, c: Cid)
    requires |states| == |steps| + 1
  {
    k < |steps| && IsCpu(states[k], c) && IsCpu(states[k + 1], c) ==>
      MigFollows(states[k].cpus[c].mig, steps[k], c, states[k + 1].cpus[c].mig)
  }

  /** The run, seen by the migration code of CPU c. */
  ghost predicate MigSeen(states: seq<State>, steps: seq<Step>, c: Cid) {
    |states| == |steps| + 1 && forall k: nat {:trigger MigAt(states, steps, k, c)} :: MigAt(states, steps, k, c)
  }

  lemma RunMigSeen(n: nat, states: seq<State>, steps: seq<Step>, c: Cid)
    requires IsRun(states, steps) && states[0] == Boot(n)
    ensures MigSeen(states, steps, c)
  {
    forall k: nat ensures MigAt(states, steps, k, c) {
      if k < |steps| && IsCpu(states[k], c) {
        RunInv(n, states, steps, k);
        MigNext(states[k], steps[k], c);
      }
    }
  }

  /** The migration code of CPU c is at work. */
  predicate Migrating(s: State, c: Cid) {
    IsCpu(s, c) && s.cpus[c].mig != NotMigrating
  }

  lemma {:induction false} PlanAlong(states: seq<State>, steps: seq<Step>, i: nat, j: nat, c: Cid, share: nat, surplus: nat)
    requires MigSeen(states, steps, c) && i < j < |states| && Migrating(states[i + 1], c)
    requires Plan(states[i + 1].cpus[c].mig, share, surplus, HowMany(steps, i, i + 1, c, true), HowMany(steps, i, i + 1, c, false))
    requires forall m :: i < m <= j ==> Migrating(states[m], c)
    ensures Migrating(states[j], c)
    ensures Plan(states[j].cpus[c].mig, share, surplus, HowMany(steps, i, j, c, true), HowMany(steps, i, j, c, false))
    decreases j
  {
    if j > i + 1 {
      PlanAlong(states, steps, i, j - 1, c, share, surplus);
      assert Migrating(states[j - 1], c) && Migrating(states[j], c) && MigAt(states, steps, j - 1, c);
      PlanOn(states[j - 1].cpus[c].mig, steps[j - 1], c, states[j].cpus[c].mig, share, surplus,
             HowMany(steps, i, j - 1, c, true), HowMany(steps, i, j - 1, c, false));
    }
  }

  lemma PlanStarts(states: seq<State>, steps: seq<Step>, i: nat, c: Cid, total: nat) returns (share: nat)
    requires IsRun(states, steps) && i < |steps| && steps[i] == MigrateDecide(c, total)
    ensures IsCpu(states[i], c) && states[i].cpus[c].mig.Counted? && EvenShare(share, total, |states[i].cpus|) && IsCpu(states[i + 1], c)
    ensures var my, mig := states[i].cpus[c].mig.my, states[i + 1].cpus[c].mig;
            if my < share then mig == NotMigrating
            else Plan(mig, share, my - share, HowMany(steps, i, i + 1, c, true), HowMany(steps, i, i + 1, c, false))
  {
    FirstPlan(states[i], c, total);
    share := DivRoundUp(total, |states[i].cpus|);
  }

  /** Once CPU c has counted, with my threads of its own and total in all: with less than an even
      share it does nothing; otherwise, for as long as it is at work, it takes exactly the surplus
      as victims, and then sends at most that many. */
  lemma SurplusTheorem(n: nat, states: seq<State>, steps: seq<Step>, i: nat, j: nat, c: Cid, total: nat) returns (share: nat)
    requires IsRun(states, steps) && states[0] == Boot(n) && i < j < |states| && steps[i] == MigrateDecide(c, total)
    ensures IsCpu(states[i], c) && states[i].cpus[c].mig.Counted? && EvenShare(share, total, |states[i].cpus|) && IsCpu(states[i + 1], c)
    ensures states[i].cpus[c].mig.my < share <==> states[i + 1].cpus[c].mig == NotMigrating
    ensures (forall m :: i < m <= j ==> Migrating(states[m], c)) ==>
              states[i].cpus[c].mig.my >= share && IsCpu(states[j], c) &&
              Plan(states[j].cpus[c].mig, share, states[i].cpus[c].mig.my - share,
                   HowMany(steps, i, j, c, true), HowMany(steps, i, j, c, false))
  {
    share := PlanStarts(states, steps, i, c, total);
    RunMigSeen(n, states, steps, c);
    if forall m :: i < m <= j ==> Migrating(states[m], c) {
      assert Migrating(states[i + 1], c);
      PlanAlong(states, steps, i, j, c, share, states[i].cpus[c].mig.my - share);
    }
  }

  /** How a thread can leave a list: taken as the first by the one operation that empties it, or
      from the end of a run queue by migration. */
  ghost predicate LeftBy(s: State, step: Step, t: Tid, p: Place) {
    && Queue(s, p) != []
    && match p
       case OnCpu(c) => step.c == c && (step.Yield? || step.SleepOn? || step.Exit?)
       case RunQueue(c) =>
         || (step == Dispatch(c) && Queue(s, p)[0] == t)
         || (step == MigrateTake(c) && Queue(s, p)[|Queue(s, p)| - 1] == t)
       case Zombies(c) => step == Reap(c) && Queue(s, p)[0] == t
       case Hand(c) => step == MakeRunnable(c) && Queue(s, p)[0] == t
       case Born(u) => step.ForkDone? && IsCpu(s, step.c) && s.cpus[step.c].cur == u && Queue(s, p)[0] == t
       case Victims(c) => step.c == c && (step.MigrateSend? || step.MigrateReturn?) && Queue(s, p)[0] == t
       case Asleep(w) => step.WakeTake? && step.w == w && Queue(s, p)[0] == t
  }

  lemma OnlyFirstLeaves(s: State, s': State, x: Tid, p: Place, q: Place, t: Tid, r: Place)
    requires FirstToLast(s, s', x, p, q)
    ensures t in Queue(s, r) && t !in Queue(s', r) ==> r == p && t == x && Queue(s, p)[0] == t
  {
    assert Queue(s, p) == [x] + Queue(s', p);
    assert r != p && r != q ==> Queue(s', r) == Queue(s, r);
  }

  lemma LeavesOnlyBy(n: nat, states: seq<State>, steps: seq<Step>, i: nat, t: Tid, r: Place)
    requires IsRun(states, steps) && states[0] == Boot(n) && i < |steps|
    ensures t in Queue(states[i], r) && t !in Queue(states[i + 1], r) ==> LeftBy(states[i], steps[i], t, r)
  {
    var s, s', c, step := states[i], states[i + 1], steps[i].c, steps[i];
    assert Enabled(s, step);
    if step.Yield? || step.SleepOn? || step.Exit? {
      SwitchOutTheorem(n, states, steps, i);
      var q := if step.Yield? then RunQueue(c) else if step.Exit? then Zombies(c) else Asleep(step.w);
      OnlyFirstLeaves(s, s', s.cpus[c].cur, OnCpu(c), q, t, r);
    } else if step.Dispatch? {
      SwitchInTheorem(n, states, steps, i);
      OnlyFirstLeaves(s, s', s'.cpus[c].cur, RunQueue(c), OnCpu(c), t, r);
    } else if step.WakeTake? || step.MakeRunnable? || step.ForkDone? || step.Fork? {
      LeavesByWake(n, states, steps, i, t, r);
    } else if step.MigrateTake? || step.MigrateSend? || step.MigrateReturn? {
      LeavesByMigration(n, states, steps, i, t, r);
    } else {
      LeavesByOther(n, states, steps, i, t, r);
    }
  }

  lemma LeavesByWake(n: nat, states: seq<State>, steps: seq<Step>, i: nat, t: Tid, r: Place)
    requires IsRun(states, steps) && states[0] == Boot(n) && i < |steps|
    requires steps[i].WakeTake? || steps[i].MakeRunnable? || steps[i].ForkDone? || steps[i].Fork?
    ensures t in Queue(states[i], r) && t !in Queue(states[i + 1], r) ==> LeftBy(states[i], steps[i], t, r)
  {
    var s, s', c := states[i], states[i + 1], steps[i].c;
    WakeTheorem(n, states, steps, i);
    match steps[i]
    case WakeTake(_, w) => OnlyFirstLeaves(s, s', Queue(s, Asleep(w))[0], Asleep(w), Hand(c), t, r);
    case MakeRunnable(_) =>
      var x := Queue(s, Hand(c))[0];
      OnlyFirstLeaves(s, s', x, Hand(c), RunQueue(s.threads[x].cpu), t, r);
    case ForkDone(_) =>
      var x := Queue(s, Born(s.cpus[c].cur))[0];
      OnlyFirstLeaves(s, s', x, Born(s.cpus[c].cur), RunQueue(s.threads[x].cpu), t, r);
    case Fork(_, _) =>
      assert r != Born(s.cpus[c].cur) ==> Queue(s', r) == Queue(s, r);
  }

  lemma LeavesByMigration(n: nat, states: seq<State>, steps: seq<Step>, i: nat, t: Tid, r: Place)
    requires IsRun(states, steps) && states[0] == Boot(n) && i < |steps|
    requires steps[i].MigrateTake? || steps[i].MigrateSend? || steps[i].MigrateReturn?
    ensures t in Queue(states[i], r) && t !in Queue(states[i + 1], r) ==> LeftBy(states[i], steps[i], t, r)
  {
    var s, s', c := states[i], states[i + 1], steps[i].c;
    MigrateTheorem(n, states, steps, i);
    match steps[i]
    case MigrateTake(_) =>
      var own := Queue(s, RunQueue(c));
      assert own == own[..|own| - 1] + [own[|own| - 1]];
      assert r != RunQueue(c) && r != Victims(c) ==> Queue(s', r) == Queue(s, r);
    case MigrateSend(_, d) =>
      var vs := Queue(s, Victims(c));
      if vs[0] == s.cpus[c].cur {
        assert r != Victims(c) ==> Queue(s', r) == Queue(s, r);
      } else {
        OnlyFirstLeaves(s, s', vs[0], Victims(c), RunQueue(d), t, r);
      }
    case MigrateReturn(_) => OnlyFirstLeaves(s, s', Queue(s, Victims(c))[0], Victims(c), RunQueue(c), t, r);
  }

  lemma LeavesByOther(n: nat, states: seq<State>, steps: seq<Step>, i: nat, t: Tid, r: Place)
    requires IsRun(states, steps) && states[0] == Boot(n) && i < |steps|
    requires !steps[i].Yield? && !steps[i].SleepOn? && !steps[i].Exit? && !steps[i].Dispatch?
    requires !steps[i].WakeTake? && !steps[i].MakeRunnable? && !steps[i].ForkDone? && !steps[i].Fork?
    requires !steps[i].MigrateTake? && !steps[i].MigrateSend? && !steps[i].MigrateReturn?
    ensures t in Queue(states[i], r) && t !in Queue(states[i + 1], r) ==> LeftBy(states[i], steps[i], t, r)
  {
    var s, s', c := states[i], states[i + 1], steps[i].c;
    OthersTheorem(n, states, steps, i);
    if steps[i].FinishSwitch? { SwitchInTheorem(n, states, steps, i); }
    if steps[i].Reap? {
      var zs := Queue(s, Zombies(c));
      assert zs == [zs[0]] + zs[1..];
      assert r != Zombies(c) ==> Queue(s', r) == Queue(s, r);
    } else {
      assert Queue(s', r) == Queue(s, r);
    }
  }

  /** Nobody is lost from a list: between a state in which a thread is on it and one in which it
      is not there is a step that took it, as LeftBy says.  A sleeper stays on the channel it went
      to sleep on until a wakeup of that channel takes it as the first. */
  lemma {:induction false} StaysUntilTaken(n: nat, states: seq<State>, steps: seq<Step>, i: nat, j: nat, t: Tid, p: Place)
    requires IsRun(states, steps) && states[0] == Boot(n) && i <= j < |states|
    requires t in Queue(states[i], p) && t !in Queue(states[j], p)
    ensures exists m :: i <= m < j && LeftBy(states[m], steps[m], t, p)
    decreases j - i
  {
    if t in Queue(states[i + 1], p) {
      StaysUntilTaken(n, states, steps, i + 1, j, t, p);
    } else {
      LeavesOnlyBy(n, states, steps, i, t, p);
    }
  }
}
