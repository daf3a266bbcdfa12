/** thread_consider_migration on run queues that nobody else touches meanwhile: which
    threads go where, and how long the queues end up.  Interference from other CPUs is
    treated by the step machine of module Scheduler. */
module Migration {

  import opened Collections
  import Bits

  type Tid = nat

  /** All but the thread x, in order. */
  function Without(s: seq<Tid>, x: Tid): (r: seq<Tid>)
    ensures |r| <= |s| && x !in r
  {
    if s == [] then [] else (if s[0] == x then [] else [s[0]]) + Without(s[1..], x)
  }

  function SumLengths(qs: seq<seq<Tid>>): nat {
    if qs == [] then 0 else SumLengths(qs[..|qs| - 1]) + |qs[|qs| - 1]|
  }

  /** How many threads the queues from i on, other than queue me, can take below share. */
  function Capacity(qs: seq<seq<Tid>>, me: nat, share: nat, i: nat): nat
    decreases |qs| - i
  {
    if i >= |qs| then 0
    else (if i == me || |qs[i]| >= share then 0 else share - |qs[i]|) + Capacity(qs, me, share, i + 1)
  }

  /** What the first n queues, other than queue me, gained at their ends, in queue order. */
  function Gained(before: seq<seq<Tid>>, after: seq<seq<Tid>>, me: nat, n: nat): seq<Tid>
    requires n <= |before| == |after|
    requires forall c :: 0 <= c < n && c != me ==> |before[c]| <= |after[c]|
  {
    if n == 0 then []
    else Gained(before, after, me, n - 1) + (if n - 1 == me then [] else after[n - 1][|before[n - 1]|..])
  }

  function AllThreads(qs: seq<seq<Tid>>): multiset<Tid> {
    if qs == [] then multiset{} else AllThreads(qs[..|qs| - 1]) + multiset(qs[|qs| - 1])
  }

  /** The threads on the first n queues other than queue me. */
  function Others(qs: seq<seq<Tid>>, me: nat, n: nat): multiset<Tid>
    requires n <= |qs|
  {
    if n == 0 then multiset{}
    else Others(qs, me, n - 1) + (if n - 1 == me then multiset{} else multiset(qs[n - 1]))
  }

  lemma {:induction false} WithoutConcat(a: seq<Tid>, b: seq<Tid>, x: Tid)
    ensures Without(a + b, x) == Without(a, x) + Without(b, x)
  {
    if a == [] {
      assert a + b == b;
    } else {
      var first := if a[0] == x then [] else [a[0]];
      var s := a + b;
      assert s[0] == a[0] && s[1..] == a[1..] + b;
      WithoutConcat(a[1..], b, x);
      assert Without(s, x) == first + Without(s[1..], x);
      Associate(first, Without(a[1..], x), Without(b, x));
    }
  }

  lemma Associate(a: seq<Tid>, b: seq<Tid>, c: seq<Tid>)
    ensures a + (b + c) == (a + b) + c
  {
  }

  lemma {:induction false} WithoutAbsent(s: seq<Tid>, x: Tid)
    requires x !in s
    ensures Without(s, x) == s
  {
    if s == [] {
    } else {
      WithoutAbsent(s[1..], x);
    }
  }

  lemma {:induction false} WithoutFull(s: seq<Tid>, x: Tid)
    requires |Without(s, x)| == |s|
    ensures x !in s
  {
    if s == [] {
    } else {
      WithoutFull(s[1..], x);
    }
  }

  /** share, added up over the queues from i on other than queue me. */
  function Shares(n: nat, me: nat, share: nat, i: nat): nat
    decreases n - i
  {
    if i >= n then 0 else (if i == me then 0 else share) + Shares(n, me, share, i + 1)
  }

  lemma {:induction false} SharesProduct(n: nat, me: nat, share: nat, i: nat)
    requires i <= n
    ensures Shares(n, me, share, i) == (n - i - (if i <= me < n then 1 else 0)) * share
    decreases n - i
  {
    if i < n {
      SharesProduct(n, me, share, i + 1);
      var k := n - (i + 1) - (if i + 1 <= me < n then 1 else 0);
      assert (k + 1) * share == k * share + share;
    }
  }

  /** The other queues together can take everything above an even share. */
  lemma {:induction false} EnoughCapacity(qs: seq<seq<Tid>>, me: nat, share: nat, i: nat)
    requires me < |qs| && i <= |qs|
    ensures Capacity(qs, me, share, i) + SumLengths(qs) - SumLengths(qs[..i]) - (if i <= me then |qs[me]| else 0)
            >= Shares(|qs|, me, share, i)
    decreases |qs| - i
  {
    if i == |qs| {
      assert qs[..i] == qs;
    } else {
      EnoughCapacity(qs, me, share, i + 1);
      assert qs[..i + 1][..i] == qs[..i];
      assert SumLengths(qs[..i + 1]) == SumLengths(qs[..i]) + |qs[i]|;
    }
  }

  lemma {:induction false} DivRoundUpIsDivision(a: nat, b: nat)
    requires b > 0
    ensures DivRoundUp(a, b) == (a + b - 1) / b
  {
    if a == 0 {
      Bits.DivModUnique(b - 1, b, 0, b - 1);
    } else if a < b {
      Bits.DivModUnique(a + b - 1, b, 1, a - 1);
    } else {
      DivRoundUpIsDivision(a - b, b);
      NextQuotient(a - 1, b);
    }
  }

  lemma NextQuotient(x: nat, b: nat)
    requires b > 0
    ensures (x + b) / b == x / b + 1
  {
    var q, r := x / b, x % b;
    assert b * (q + 1) == b * q + b;
    Bits.DivModUnique(x + b, b, q + 1, r);
  }

  lemma {:induction false} ShareCovers(total: nat, n: nat)
    requires n > 0
    ensures n * DivRoundUp(total, n) >= total
  {
    if total > 0 {
      var rest := if total < n then 0 else total - n;
      ShareCovers(rest, n);
      assert n * (1 + DivRoundUp(rest, n)) == n + n * DivRoundUp(rest, n);
    }
  }

  lemma SharesCover(total: nat, n: nat, me: nat)
    requires me < n
    ensures Shares(n, me, DivRoundUp(total, n), 0) + DivRoundUp(total, n) >= total
  {
    var share := DivRoundUp(total, n);
    SharesProduct(n, me, share, 0);
    ShareCovers(total, n);
    assert (n - 1) * share == n * share - share;
  }

  lemma {:induction false} GainedFrame(before: seq<seq<Tid>>, after: seq<seq<Tid>>, other: seq<seq<Tid>>, me: nat, n: nat)
    requires n <= |before| == |after| == |other|
    requires forall c :: 0 <= c < n && c != me ==> |before[c]| <= |after[c]| && after[c] == other[c]
    ensures Gained(before, after, me, n) == Gained(before, other, me, n)
  {
    if n == 0 {
    } else {
      GainedFrame(before, after, other, me, n - 1);
    }
  }

  lemma {:induction false} OthersFrame(qs: seq<seq<Tid>>, me: nat, n: nat, m: nat)
    requires n <= m <= |qs|
    ensures Others(qs[..m], me, n) == Others(qs, me, n)
  {
    if n == 0 {
    } else {
      OthersFrame(qs, me, n - 1, m);
    }
  }

  lemma {:induction false} AllThreadsSplit(qs: seq<seq<Tid>>, me: nat)
    ensures AllThreads(qs) == Others(qs, me, |qs|) + (if me < |qs| then multiset(qs[me]) else multiset{})
  {
    if qs == [] {
    } else {
      var n := |qs| - 1;
      AllThreadsSplit(qs[..n], me);
      OthersFrame(qs, me, n, n);
      var last, rest := multiset(qs[n]), Others(qs, me, n);
      if me == n {
        assert Others(qs, me, |qs|) == rest;
      } else {
        assert Others(qs, me, |qs|) == rest + last;
        Exchange(rest, if me < n then multiset(qs[me]) else multiset{}, last, multiset{});
      }
    }
  }

  /** How often a thread is on a queue. */
  function CountIn(q: seq<Tid>, t: Tid): nat {
    if q == [] then 0 else CountIn(q[..|q| - 1], t) + (if q[|q| - 1] == t then 1 else 0)
  }

  lemma {:induction false} CountConcat(a: seq<Tid>, b: seq<Tid>, t: Tid)
    ensures CountIn(a + b, t) == CountIn(a, t) + CountIn(b, t)
  {
    if b == [] {
      assert a + b == a;
    } else {
      assert (a + b)[..|a + b| - 1] == a + b[..|b| - 1];
      CountConcat(a, b[..|b| - 1], t);
    }
  }

  lemma {:induction false} CountMultiset(q: seq<Tid>, t: Tid)
    ensures multiset(q)[t] == CountIn(q, t)
  {
    if q == [] {
    } else {
      var n := |q| - 1;
      assert q == q[..n] + [q[n]];
      CountMultiset(q[..n], t);
    }
  }

  function OthersCount(qs: seq<seq<Tid>>, me: nat, n: nat, t: Tid): nat
    requires n <= |qs|
  {
    if n == 0 then 0 else OthersCount(qs, me, n - 1, t) + (if n - 1 == me then 0 else CountIn(qs[n - 1], t))
  }

  lemma {:induction false} OthersMultiset(qs: seq<seq<Tid>>, me: nat, n: nat, t: Tid)
    requires n <= |qs|
    ensures Others(qs, me, n)[t] == OthersCount(qs, me, n, t)
  {
    if n == 0 {
    } else {
      OthersMultiset(qs, me, n - 1, t);
      CountMultiset(qs[n - 1], t);
    }
  }

  lemma {:induction false} GainedCount(before: seq<seq<Tid>>, after: seq<seq<Tid>>, me: nat, n: nat, t: Tid)
    requires n <= |before| == |after|
    requires forall c :: 0 <= c < n && c != me ==> before[c] <= after[c]
    ensures OthersCount(after, me, n, t) == OthersCount(before, me, n, t) + CountIn(Gained(before, after, me, n), t)
  {
    if n == 0 {
    } else {
      GainedCount(before, after, me, n - 1, t);
      var b, a, g := before[n - 1], after[n - 1], Gained(before, after, me, n - 1);
      if n - 1 == me {
        assert Gained(before, after, me, n) == g;
      } else {
        assert a == b + a[|b|..];
        CountConcat(b, a[|b|..], t);
        CountConcat(g, a[|b|..], t);
      }
    }
  }

  lemma GainedTotal(before: seq<seq<Tid>>, after: seq<seq<Tid>>, me: nat, n: nat)
    requires n <= |before| == |after|
    requires forall c :: 0 <= c < n && c != me ==> before[c] <= after[c]
    ensures Others(after, me, n) == Others(before, me, n) + multiset(Gained(before, after, me, n))
  {
    var g: seq<Tid> := Gained(before, after, me, n);
    var gained: multiset<Tid> := multiset(g);
    forall t: Tid ensures Others(after, me, n)[t] == Others(before, me, n)[t] + gained[t] {
      OthersMultiset(after, me, n, t);
      OthersMultiset(before, me, n, t);
      CountMultiset(g, t);
      GainedCount(before, after, me, n, t);
    }
  }

  lemma Exchange(a: multiset<Tid>, b: multiset<Tid>, c: multiset<Tid>, d: multiset<Tid>)
    ensures a + b + (c + d) == a + c + (b + d)
  {
  }

  /** t_cpu after all of the threads ts have been sent to CPU c. */
  function Rehomed(home: map<Tid, nat>, ts: seq<Tid>, c: nat): map<Tid, nat> {
    if ts == [] then home else Rehomed(home, ts[..|ts| - 1], c)[ts[|ts| - 1] := c]
  }

  lemma {:induction false} RehomedTo(home: map<Tid, nat>, ts: seq<Tid>, c: nat, t: Tid)
    ensures t in ts ==> t in Rehomed(home, ts, c) && Rehomed(home, ts, c)[t] == c
    ensures t !in ts ==> (t in Rehomed(home, ts, c) <==> t in home)
                         && (t in home ==> Rehomed(home, ts, c)[t] == home[t])
  {
    if ts == [] {
    } else {
      RehomedTo(home, ts[..|ts| - 1], c, t);
      assert ts == ts[..|ts| - 1] + [ts[|ts| - 1]];
    }
  }

  lemma {:induction false} RehomedConcat(home: map<Tid, nat>, a: seq<Tid>, b: seq<Tid>, c: nat)
    ensures Rehomed(home, a + b, c) == Rehomed(Rehomed(home, a, c), b, c)
  {
    if b == [] {
      assert a + b == a;
    } else {
      assert (a + b)[..|a + b| - 1] == a + b[..|b| - 1];
      RehomedConcat(home, a, b[..|b| - 1], c);
    }
  }

  /** The victims while toSend of them are still to go: the current thread, once met,
      waits behind all of those. */
  predicate Pool(victims: seq<Tid>, toSend: nat, cur: Tid) {
    || (|victims| == toSend && |Without(victims, cur)| + 1 >= toSend)
    || (|victims| == toSend + 1 && victims[toSend] == cur && cur !in victims[..toSend])
  }

  /** Of the victims, moved have been sent and left remain; the current thread is never sent. */
  predicate Dealt(victims: seq<Tid>, moved: seq<Tid>, left: seq<Tid>, cur: Tid) {
    && Without(victims, cur) == moved + Without(left, cur)
    && cur !in moved
    && (cur in left <==> cur in victims)
  }

  /** Meeting the current thread: it goes to the back. */
  lemma SkipCurrent(victims: seq<Tid>, moved: seq<Tid>, left: seq<Tid>, toSend: nat, cur: Tid)
    requires Pool(left, toSend, cur) && toSend > 0 && left[0] == cur && Dealt(victims, moved, left, cur)
    ensures Pool(left[1..] + [cur], toSend - 1, cur)
    ensures Dealt(victims, moved, left[1..] + [cur], cur)
  {
    var rest := left[1..];
    assert left == [cur] + rest;
    WithoutConcat(rest, [cur], cur);
    assert Without([cur], cur) == [] && Without(left, cur) == Without(rest, cur);
    if |left| == toSend { WithoutFull(left[1..], cur); }
    assert (left[1..] + [cur])[..toSend - 1] == left[1..toSend];
    assert cur == left[..toSend][0];
  }

  lemma SendFirst(victims: seq<Tid>, moved: seq<Tid>, left: seq<Tid>, toSend: nat, cur: Tid)
    requires Pool(left, toSend, cur) && toSend > 0 && left[0] != cur && Dealt(victims, moved, left, cur)
    ensures Pool(left[1..], toSend - 1, cur)
    ensures Dealt(victims, moved + [left[0]], left[1..], cur)
  {
    assert left == [left[0]] + left[1..];
    assert moved + [left[0]] + Without(left[1..], cur) == moved + ([left[0]] + Without(left[1..], cur));
    if |left| == toSend + 1 {
      assert left[1..][..toSend - 1] == left[..toSend][1..];
    }
  }

  /** Every queued thread names the CPU whose queue it is on. */
  ghost predicate Homed(queues: seq<seq<Tid>>, home: map<Tid, nat>) {
    forall c: nat, t: Tid :: c < |queues| && t in queues[c] ==> t in home && home[t] == c
  }

  /** The victims still held belong to CPU me and are on none of its queues. */
  ghost predicate Waiting(queues: seq<seq<Tid>>, home: map<Tid, nat>, me: nat, left: seq<Tid>, cur: Tid)
    requires me < |queues|
  {
    && NoDuplicates(Without(left, cur))
    && forall t :: t in left ==> t in home && home[t] == me && t !in queues[me]
  }

  /** Queues other than me only gain at the end and do not rise above the share. */
  ghost predicate Grown(before: seq<seq<Tid>>, after: seq<seq<Tid>>, me: nat, share: nat) {
    && |before| == |after|
    && forall c :: 0 <= c < |after| && c != me ==>
         before[c] <= after[c] && (after[c] == before[c] || |after[c]| <= share)
  }

  /** t_cpu changes for victims only, and never for the current thread. */
  ghost predicate HomeFrame(before: map<Tid, nat>, after: map<Tid, nat>, victims: seq<Tid>, cur: Tid) {
    forall t :: t !in victims || t == cur ==>
      (t in after <==> t in before) && (t in after ==> after[t] == before[t])
  }

  /** Exactly the idle CPUs that received a thread are interrupted. */
  ghost predicate Unidled(before: seq<seq<Tid>>, after: seq<seq<Tid>>, ipis: set<nat>, ipis': set<nat>,
                          idle: seq<bool>, me: nat)
    requires |before| == |after| == |idle|
  {
    ipis' == ipis + set c: nat | c < |idle| && c != me && idle[c] && after[c] != before[c]
  }

  lemma {:induction false} WithoutMembers(s: seq<Tid>, x: Tid, t: Tid)
    ensures t in Without(s, x) <==> t in s && t != x
  {
    if s == [] {
    } else {
      WithoutMembers(s[1..], x, t);
    }
  }

  lemma DistinctAt(s: seq<Tid>, i: nat, j: nat)
    requires NoDuplicates(s) && i < |s| && j < |s|
    ensures s[i] == s[j] ==> i == j
  {
  }

  lemma DealtTrans(victims: seq<Tid>, gone: seq<Tid>, left: seq<Tid>, moved: seq<Tid>, left': seq<Tid>, cur: Tid)
    requires Dealt(victims, gone, left, cur) && Dealt(left, moved, left', cur)
    ensures Dealt(victims, gone + moved, left', cur)
  {
    assert gone + (moved + Without(left', cur)) == gone + moved + Without(left', cur);
  }

  lemma KeepHomed(queues: seq<seq<Tid>>, home: map<Tid, nat>, me: nat, i: nat,
                  left: seq<Tid>, moved: seq<Tid>, left': seq<Tid>, cur: Tid)
    requires me < |queues| && i < |queues| && i != me
    requires Homed(queues, home) && Waiting(queues, home, me, left, cur) && Dealt(left, moved, left', cur)
    ensures Homed(queues[i := queues[i] + moved], Rehomed(home, moved, i))
    ensures Waiting(queues[i := queues[i] + moved], Rehomed(home, moved, i), me, left', cur)
  {
    var queues', home' := queues[i := queues[i] + moved], Rehomed(home, moved, i);
    var w, w' := Without(left, cur), Without(left', cur);
    forall t | t in moved ensures t in left && t !in left' {
      assert t in w;
      WithoutMembers(left, cur, t);
      WithoutMembers(left', cur, t);
      if t in w' {
        var a, b :| 0 <= a < |moved| && moved[a] == t && 0 <= b < |w'| && w'[b] == t;
        DistinctAt(w, a, |moved| + b);
      }
    }
    forall c: nat, t: Tid | c < |queues| && t in queues'[c] ensures t in home' && home'[t] == c {
      RehomedTo(home, moved, i, t);
    }
    forall t | t in left' ensures t in home' && home'[t] == me && t !in queues'[me] {
      WithoutMembers(left', cur, t);
      WithoutMembers(left, cur, t);
      if t != cur { assert t in w' && t in w; }
      RehomedTo(home, moved, i, t);
    }
    forall a, b | 0 <= a < b < |w'| ensures w'[a] != w'[b] {
      assert w[|moved| + a] == w'[a] && w[|moved| + b] == w'[b];
    }
  }

  lemma KeepHomeFrame(home0: map<Tid, nat>, home: map<Tid, nat>, victims: seq<Tid>, gone: seq<Tid>, left: seq<Tid>,
                      moved: seq<Tid>, left': seq<Tid>, i: nat, cur: Tid)
    requires HomeFrame(home0, home, victims, cur)
    requires Dealt(victims, gone, left, cur) && Dealt(left, moved, left', cur)
    ensures HomeFrame(home0, Rehomed(home, moved, i), victims, cur)
  {
    forall t | t !in victims || t == cur ensures t !in moved {
      WithoutMembers(victims, cur, t);
      assert t in moved ==> t in Without(left, cur) && t in Without(victims, cur);
    }
    forall t | t !in victims || t == cur
      ensures (t in Rehomed(home, moved, i) <==> t in home0) && (t in home0 ==> Rehomed(home, moved, i)[t] == home0[t])
    {
      RehomedTo(home, moved, i, t);
    }
  }

  lemma {:induction false} GainedTail(before: seq<seq<Tid>>, after: seq<seq<Tid>>, me: nat, i: nat, n: nat)
    requires i <= n <= |before| == |after|
    requires forall c :: 0 <= c < n && c != me ==> |before[c]| <= |after[c]|
    requires forall c :: i <= c < n && c != me ==> after[c] == before[c]
    ensures Gained(before, after, me, n) == Gained(before, after, me, i)
  {
    if i == n {
    } else {
      GainedTail(before, after, me, i, n - 1);
    }
  }

  /** What the run queues look like to the proofs. */
  datatype View = View(queues: seq<seq<Tid>>, home: map<Tid, nat>, interrupted: set<nat>)

  /** The state when CPUs below i have had their turn. */
  ghost predicate Distributed(was: View, now: View, idle: seq<bool>, me: nat, share: nat, cur: Tid, i: nat,
                              victims: seq<Tid>, left: seq<Tid>)
    requires i <= |was.queues| == |now.queues| == |idle| && me < |idle|
  {
    && Grown(was.queues, now.queues, me, share)
    && now.queues[me] == was.queues[me]
    && (forall c :: i <= c < |now.queues| ==> now.queues[c] == was.queues[c])
    && Dealt(victims, Gained(was.queues, now.queues, me, i), left, cur)
    && Homed(now.queues, now.home) && Waiting(now.queues, now.home, me, left, cur)
    && HomeFrame(was.home, now.home, victims, cur)
    && Unidled(was.queues, now.queues, was.interrupted, now.interrupted, idle, me)
  }

  lemma KeepGrown(was: seq<seq<Tid>>, before: seq<seq<Tid>>, now: seq<seq<Tid>>, me: nat, share: nat, i: nat, moved: seq<Tid>)
    requires i < |was| && Grown(was, before, me, share) && before[i] == was[i]
    requires now == before[i := was[i] + moved] && (moved == [] || |now[i]| <= share)
    ensures Grown(was, now, me, share)
  {
  }

  lemma KeepUnidled(was: View, before: View, now: View, idle: seq<bool>, me: nat, i: nat, moved: seq<Tid>)
    requires i < |was.queues| == |before.queues| == |now.queues| == |idle| && i != me
    requires before.queues[i] == was.queues[i] && now.queues == before.queues[i := was.queues[i] + moved]
    requires Unidled(was.queues, before.queues, was.interrupted, before.interrupted, idle, me)
    requires now.interrupted == before.interrupted + (if moved != [] && idle[i] then {i} else {})
    ensures Unidled(was.queues, now.queues, was.interrupted, now.interrupted, idle, me)
  {
    assert moved == [] <==> now.queues[i] == was.queues[i] by {
      assert |now.queues[i]| == |was.queues[i]| + |moved|;
      if moved == [] { assert was.queues[i] + moved == was.queues[i]; }
    }
  }

  lemma DistributeStep(was: View, before: View, now: View, idle: seq<bool>, me: nat, share: nat, cur: Tid, i: nat,
                       victims: seq<Tid>, left: seq<Tid>, moved: seq<Tid>, left': seq<Tid>)
    requires i < |was.queues| == |before.queues| == |now.queues| == |idle| && me < |idle| && i != me
    requires Distributed(was, before, idle, me, share, cur, i, victims, left)
    requires now.queues == before.queues[i := before.queues[i] + moved]
    requires now.home == Rehomed(before.home, moved, i)
    requires now.interrupted == before.interrupted + (if moved != [] && idle[i] then {i} else {})
    requires Dealt(left, moved, left', cur) && (moved == [] || |now.queues[i]| <= share)
    ensures Distributed(was, now, idle, me, share, cur, i + 1, victims, left')
  {
    assert before.queues[i] == was.queues[i];
    assert now.queues[i] == was.queues[i] + moved;
    GainedFrame(was.queues, before.queues, now.queues, me, i);
    DealtTrans(victims, Gained(was.queues, before.queues, me, i), left, moved, left', cur);
    KeepHomed(before.queues, before.home, me, i, left, moved, left', cur);
    KeepHomeFrame(was.home, before.home, victims, Gained(was.queues, before.queues, me, i), left, moved, left', i, cur);
    KeepGrown(was.queues, before.queues, now.queues, me, share, i, moved);
    KeepUnidled(was, before, now, idle, me, i, moved);
    assert now.queues[i][|was.queues[i]|..] == moved;
  }

  lemma DistributeSkip(was: View, now: View, idle: seq<bool>, me: nat, share: nat, cur: Tid,
                       victims: seq<Tid>, left: seq<Tid>)
    requires me < |was.queues| == |now.queues| == |idle|
    requires Distributed(was, now, idle, me, share, cur, me, victims, left)
    ensures Distributed(was, now, idle, me, share, cur, me + 1, victims, left)
  {
    assert Gained(was.queues, now.queues, me, me + 1) == Gained(was.queues, now.queues, me, me);
  }

  lemma DistributeNone(was: View, idle: seq<bool>, me: nat, share: nat, cur: Tid, victims: seq<Tid>)
    requires me < |was.queues| == |idle| && Homed(was.queues, was.home) && Waiting(was.queues, was.home, me, victims, cur)
    ensures Distributed(was, was, idle, me, share, cur, 0, victims, victims)
  {
  }

  lemma DistributeDone(was: View, now: View, idle: seq<bool>, me: nat, share: nat, cur: Tid, i: nat,
                       victims: seq<Tid>, left: seq<Tid>)
    requires i <= |was.queues| == |now.queues| == |idle| && me < |idle|
    requires Distributed(was, now, idle, me, share, cur, i, victims, left)
    ensures Distributed(was, now, idle, me, share, cur, |idle|, victims, left)
  {
    GainedTail(was.queues, now.queues, me, i, |idle|);
  }

  /** What a migration pass on CPU me, running thread cur, achieves. */
  ghost predicate Balanced(was: View, now: View, idle: seq<bool>, me: nat, cur: Tid)
    requires me < |was.queues| == |now.queues| == |idle|
  {
    var share := DivRoundUp(SumLengths(was.queues), |idle|);
    && AllThreads(now.queues) == AllThreads(was.queues)
    && Homed(now.queues, now.home)
    && HomeFrame(was.home, now.home, was.queues[me], cur)
    && Unidled(was.queues, now.queues, was.interrupted, now.interrupted, idle, me)
    && (|was.queues[me]| < share ==> now.queues == was.queues)
    && (|was.queues[me]| >= share ==>
          var victims := was.queues[me][share..];
          && now.queues[me] == was.queues[me][..share] + (if cur in victims then [cur] else [])
          && Grown(was.queues, now.queues, me, share)
          && Gained(was.queues, now.queues, me, |idle|) == Without(victims, cur))
  }

  lemma {:induction false} DistinctWithout(s: seq<Tid>, x: Tid)
    requires NoDuplicates(s)
    ensures NoDuplicates(Without(s, x)) && |Without(s, x)| + 1 >= |s|
  {
    if s != [] {
      assert NoDuplicates(s[1..]);
      DistinctWithout(s[1..], x);
      var w := Without(s[1..], x);
      if s[0] == x {
        WithoutAbsent(s[1..], x);
      } else {
        WithoutMembers(s[1..], x, s[0]);
        assert s[0] !in s[1..];
        assert Without(s, x) == [s[0]] + w;
      }
    }
  }

  /** The victims fit on the other queues. */
  lemma VictimsFit(queues: seq<seq<Tid>>, me: nat, share: nat)
    requires me < |queues| && share == DivRoundUp(SumLengths(queues), |queues|) <= |queues[me]|
    ensures |queues[me]| - share <= Capacity(queues[me := queues[me][..share]], me, share, 0)
  {
    EnoughCapacity(queues, me, share, 0);
    SharesCover(SumLengths(queues), |queues|, me);
    assert queues[..0] == [];
    CapacityFrame(queues, queues[me := queues[me][..share]], me, share, 0);
  }

  lemma StartDistribution(queues: seq<seq<Tid>>, home: map<Tid, nat>, me: nat, share: nat, cur: Tid)
    requires me < |queues| && Homed(queues, home) && NoDuplicates(queues[me]) && share <= |queues[me]|
    ensures var q, trimmed := queues[me], queues[me := queues[me][..share]];
            && Pool(q[share..], |q| - share, cur)
            && Homed(trimmed, home) && Waiting(trimmed, home, me, q[share..], cur)
  {
    var q, trimmed := queues[me], queues[me := queues[me][..share]];
    Tail(q, share);
    DistinctWithout(q[share..], cur);
    forall c: nat, t: Tid | c < |trimmed| && t in trimmed[c] ensures t in home && home[t] == c {
      assert t in queues[c];
    }
  }

  lemma Tail(q: seq<Tid>, k: nat)
    requires NoDuplicates(q) && k <= |q|
    ensures NoDuplicates(q[k..]) && forall t :: t in q[k..] ==> t in q && t !in q[..k]
  {
  }

  lemma {:induction false} CapacityFrame(a: seq<seq<Tid>>, b: seq<seq<Tid>>, me: nat, share: nat, i: nat)
    requires |a| == |b| && forall c :: 0 <= c < |a| && c != me ==> a[c] == b[c]
    ensures Capacity(a, me, share, i) == Capacity(b, me, share, i)
    decreases |a| - i
  {
    if i >= |a| {
    } else {
      CapacityFrame(a, b, me, share, i + 1);
    }
  }

  lemma {:induction false} GainedSame(a: seq<seq<Tid>>, b: seq<seq<Tid>>, a': seq<seq<Tid>>, b': seq<seq<Tid>>, me: nat, n: nat)
    requires n <= |a| == |b| == |a'| == |b'|
    requires forall c :: 0 <= c < n && c != me ==> a[c] == a'[c] && b[c] == b'[c] && |a[c]| <= |b[c]|
    ensures Gained(a, b, me, n) == Gained(a', b', me, n)
  {
    if n == 0 {
    } else {
      GainedSame(a, b, a', b', me, n - 1);
    }
  }

  /** Nothing is lost: what the other queues gained and what came back is what was taken. */
  lemma Conserved(was: seq<seq<Tid>>, now: seq<seq<Tid>>, me: nat, kept: seq<Tid>, taken: seq<Tid>, sent: seq<Tid>, back: seq<Tid>)
    requires me < |was| == |now| && forall c :: 0 <= c < |was| && c != me ==> was[c] <= now[c]
    requires was[me] == kept + taken && now[me] == kept + back && Gained(was, now, me, |was|) == sent
    requires multiset(taken) == multiset(sent) + multiset(back)
    ensures AllThreads(now) == AllThreads(was)
  {
    AllThreadsSplit(was, me);
    AllThreadsSplit(now, me);
    GainedTotal(was, now, me, |was|);
    Regroup(Others(was, me, |was|), multiset(kept), multiset(taken), multiset(sent), multiset(back));
  }

  lemma Regroup(others: multiset<Tid>, kept: multiset<Tid>, taken: multiset<Tid>, sent: multiset<Tid>, back: multiset<Tid>)
    requires taken == sent + back
    ensures others + sent + (kept + back) == others + (kept + taken)
  {
  }

  lemma ReturnHomed(queues: seq<seq<Tid>>, home: map<Tid, nat>, me: nat, left: seq<Tid>, cur: Tid)
    requires me < |queues| && Homed(queues, home) && Waiting(queues, home, me, left, cur)
    ensures Homed(queues[me := queues[me] + left], home)
  {
    var queues' := queues[me := queues[me] + left];
    forall c: nat, t: Tid | c < |queues'| && t in queues'[c] ensures t in home && home[t] == c {
      assert t in queues[c] || (c == me && t in left);
    }
  }

  /** A sequence holding x at most once is the rest and, perhaps, x. */
  lemma {:induction false} WithoutPlus(s: seq<Tid>, x: Tid)
    requires |Without(s, x)| + 1 >= |s|
    ensures multiset(s) == multiset(Without(s, x)) + multiset(if x in s then [x] else [])
  {
    if s != [] {
      assert s == [s[0]] + s[1..];
      if s[0] == x {
        WithoutFull(s[1..], x);
        WithoutAbsent(s[1..], x);
      } else {
        WithoutPlus(s[1..], x);
      }
    }
  }

  lemma UnidledFrame(was: View, now: View, was': View, now': View, idle: seq<bool>, me: nat)
    requires me < |was.queues| == |now.queues| == |was'.queues| == |now'.queues| == |idle|
    requires was.interrupted == was'.interrupted && now.interrupted == now'.interrupted
    requires forall c :: 0 <= c < |idle| && c != me ==> was.queues[c] == was'.queues[c] && now.queues[c] == now'.queues[c]
    requires Unidled(was.queues, now.queues, was.interrupted, now.interrupted, idle, me)
    ensures Unidled(was'.queues, now'.queues, was'.interrupted, now'.interrupted, idle, me)
  {
  }

  lemma HomeFrameWider(before: map<Tid, nat>, after: map<Tid, nat>, victims: seq<Tid>, more: seq<Tid>, cur: Tid)
    requires HomeFrame(before, after, victims, cur) && forall t :: t in victims ==> t in more
    ensures HomeFrame(before, after, more, cur)
  {
  }

  /** The queues once the leftovers are back. */
  lemma FinishQueues(was: seq<seq<Tid>>, spread: seq<seq<Tid>>, now: seq<seq<Tid>>, me: nat, share: nat, cur: Tid, left: seq<Tid>)
    requires me < |was| == |spread| && share <= |was[me]| && NoDuplicates(was[me]) && Pool(left, 0, cur)
    requires Grown(was[me := was[me][..share]], spread, me, share) && spread[me] == was[me][..share]
    requires Dealt(was[me][share..], Gained(was[me := was[me][..share]], spread, me, |was|), left, cur)
    requires now == spread[me := spread[me] + left]
    ensures Grown(was, now, me, share) && Gained(was, now, me, |was|) == Without(was[me][share..], cur)
    ensures left == (if cur in was[me][share..] then [cur] else [])
    ensures AllThreads(now) == AllThreads(was)
  {
    var kept, taken := was[me][..share], was[me][share..];
    assert left == if cur in taken then [cur] else [];
    GainedSame(was[me := kept], spread, was, now, me, |was|);
    assert Without(left, cur) == [];
    assert was[me] == kept + taken;
    TakenApart(taken, cur);
    Conserved(was, now, me, kept, taken, Without(taken, cur), left);
  }

  /** A list without repetition is the rest of it and one thread. */
  lemma TakenApart(taken: seq<Tid>, cur: Tid)
    requires NoDuplicates(taken)
    ensures multiset(taken) == multiset(Without(taken, cur)) + multiset(if cur in taken then [cur] else [])
  {
    DistinctWithout(taken, cur);
    WithoutPlus(taken, cur);
  }

  lemma FinishMigration(was: View, spread: View, now: View, idle: seq<bool>, me: nat, share: nat, cur: Tid, left: seq<Tid>)
    requires me < |was.queues| == |spread.queues| == |now.queues| == |idle|
    requires NoDuplicates(was.queues[me]) && share == DivRoundUp(SumLengths(was.queues), |idle|) <= |was.queues[me]|
    requires Distributed(was.(queues := was.queues[me := was.queues[me][..share]]), spread, idle, me, share, cur, |idle|,
                         was.queues[me][share..], left)
    requires Pool(left, 0, cur) && now == spread.(queues := spread.queues[me := spread.queues[me] + left])
    ensures Balanced(was, now, idle, me, cur)
  {
    var trimmed := was.(queues := was.queues[me := was.queues[me][..share]]);
    FinishQueues(was.queues, spread.queues, now.queues, me, share, cur, left);
    ReturnHomed(spread.queues, spread.home, me, left, cur);
    HomeFrameWider(was.home, now.home, was.queues[me][share..], was.queues[me], cur);
    UnidledFrame(trimmed, spread, was, now, idle, me);
  }

  class RunQueues {
    var queues: seq<seq<Tid>>   // c_runqueue of each CPU
    var home: map<Tid, nat>     // t_cpu
    var interrupted: set<nat>   // CPUs sent IPI_UNIDLE
    const idle: seq<bool>       // c_isidle

    constructor (queues: seq<seq<Tid>>, home: map<Tid, nat>, idle: seq<bool>)
      ensures this.queues == queues && this.home == home && this.idle == idle && interrupted == {}
    {
      this.queues, this.home, this.idle, interrupted := queues, home, idle, {};
    }

    /** The counting loop. */
    method CountThreads() returns (total: nat)
      ensures total == SumLengths(queues)
    {
      total := 0;
      for i := 0 to |queues|
        invariant total == SumLengths(queues[..i])
      {
        assert queues[..i + 1][..i] == queues[..i];
        total := total + |queues[i]|;
      }
      assert queues[..|queues|] == queues;
    }

    /** Takes toSend threads off the end of the own queue, keeping their order.  The queue
        never runs out. */
    method TakeVictims(me: nat, toSend: nat) returns (victims: seq<Tid>)
      requires me < |queues| && toSend <= |queues[me]|
      modifies `queues
      ensures var n := |old(queues[me])| - toSend;
              queues == old(queues)[me := old(queues[me])[..n]] && victims == old(queues[me])[n..]
    {
      ghost var was := queues[me];
      victims := [];
      assert was[..|was|] == was;
      for i := 0 to toSend
        invariant |queues| == |old(queues)| && queues == old(queues)[me := was[..|was| - i]]
        invariant victims == was[|was| - i..]
      {
        var q := queues[me];
        victims := [q[|q| - 1]] + victims;
        queues := queues[me := q[..|q| - 1]];
        assert q[..|q| - 1] == was[..|was| - (i + 1)];
      }
    }

    /** Hands thread t to CPU c, unidling it if need be. */
    method Send(t: Tid, c: nat)
      requires c < |queues| == |idle|
      modifies this
      ensures queues == old(queues)[c := old(queues[c]) + [t]] && home == old(home)[t := c]
      ensures interrupted == old(interrupted) + (if idle[c] then {c} else {})
    {
      home := home[t := c];
      queues := queues[c := queues[c] + [t]];
      if idle[c] { interrupted := interrupted + {c}; }
    }

    /** One turn of the inner loop: sends the first victim to CPU c, or sets it back when it
        is the current thread. */
    method SendOne(c: nat, cur: Tid, ghost victims: seq<Tid>, ghost moved: seq<Tid>, left: seq<Tid>, ghost toSend: nat)
      returns (left': seq<Tid>, ghost sent: seq<Tid>)
      requires c < |queues| == |idle|
      requires Pool(left, toSend, cur) && toSend > 0 && Dealt(victims, moved, left, cur)
      modifies this
      ensures Pool(left', toSend - 1, cur) && Dealt(victims, moved + sent, left', cur) && |sent| <= 1
      ensures queues == old(queues)[c := old(queues[c]) + sent] && home == Rehomed(old(home), sent, c)
      ensures interrupted == old(interrupted) + (if sent != [] && idle[c] then {c} else {})
    {
      var t := left[0];
      if t == cur {
        SkipCurrent(victims, moved, left, toSend, cur);
        left', sent := left[1..] + [t], [];
        assert moved + sent == moved && queues[c] + sent == queues[c];
      } else {
        SendFirst(victims, moved, left, toSend, cur);
        Send(t, c);
        left', sent := left[1..], [t];
        assert Rehomed(old(home), [t][..0], c) == old(home);
      }
    }

    /** The inner loop: fills the queue of CPU c up to the share. */
    method Fill(c: nat, share: nat, cur: Tid, victims: seq<Tid>, toSend: nat)
      returns (left: seq<Tid>, still: nat, ghost moved: seq<Tid>)
      requires c < |queues| == |idle| && Pool(victims, toSend, cur)
      modifies this
      ensures Pool(left, still, cur) && Dealt(victims, moved, left, cur) && still + |moved| <= toSend
      ensures queues == old(queues)[c := old(queues[c]) + moved] && home == Rehomed(old(home), moved, c)
      ensures interrupted == old(interrupted) + (if moved != [] && idle[c] then {c} else {})
      ensures still == 0 || |queues[c]| >= share
      ensures moved == [] || |queues[c]| <= share
    {
      left, still, moved := victims, toSend, [];
      ghost var was := queues;
      assert was[c] + [] == was[c];
      while |queues[c]| < share && still > 0
        invariant |queues| == |was| && queues == was[c := was[c] + moved]
        invariant Pool(left, still, cur) && Dealt(victims, moved, left, cur)
        invariant still + |moved| <= toSend
        invariant home == Rehomed(old(home), moved, c)
        invariant interrupted == old(interrupted) + (if moved != [] && idle[c] then {c} else {})
        invariant moved == [] || |was[c] + moved| <= share
        decreases still
      {
        ghost var sent;
        left, sent := SendOne(c, cur, victims, moved, left, still);
        RehomedConcat(old(home), moved, sent, c);
        Associate(was[c], moved, sent);
        still, moved := still - 1, moved + sent;
      }
    }

    ghost function Now(): View
      reads this
    {
      View(queues, home, interrupted)
    }

    /** The loop over the other CPUs. */
    method Distribute(me: nat, share: nat, cur: Tid, victims: seq<Tid>, toSend: nat)
      returns (left: seq<Tid>, still: nat)
      requires me < |queues| == |idle| && Pool(victims, toSend, cur)
      requires Homed(queues, home) && Waiting(queues, home, me, victims, cur)
      requires toSend <= Capacity(queues, me, share, 0)
      modifies this
      ensures |queues| == |old(queues)| && Distributed(old(Now()), Now(), idle, me, share, cur, |queues|, victims, left)
      ensures still == 0 && Pool(left, 0, cur)
    {
      ghost var was := Now();
      DistributeNone(was, idle, me, share, cur, victims);
      var i;
      left, still, i := ServeAll(me, share, cur, victims, toSend, was);
      DistributeDone(was, Now(), idle, me, share, cur, i, victims, left);
    }

    method ServeAll(me: nat, share: nat, cur: Tid, victims: seq<Tid>, toSend: nat, ghost was: View)
      returns (left: seq<Tid>, still: nat, i: nat)
      requires |was.queues| == |queues| == |idle| && me < |queues| && Distributed(was, Now(), idle, me, share, cur, 0, victims, victims)
      requires Pool(victims, toSend, cur) && toSend <= Capacity(was.queues, me, share, 0)
      modifies this
      ensures i <= |queues| == |old(queues)| && Distributed(was, Now(), idle, me, share, cur, i, victims, left)
      ensures still == 0 && Pool(left, 0, cur)
    {
      left, still := victims, toSend;
      i := 0;
      ghost var now := Now();
      while i < |queues| && still > 0
        invariant i <= |queues| == |was.queues| && now == Now()
        invariant Distributed(was, now, idle, me, share, cur, i, victims, left)
        invariant Pool(left, still, cur) && still <= Capacity(was.queues, me, share, i)
      {
        left, still, i, now := Serve(i, me, share, cur, left, still, victims, was, now);
      }
    }

    /** One turn of that loop. */
    method Serve(i: nat, me: nat, share: nat, cur: Tid, victims: seq<Tid>, toSend: nat,
                 ghost all: seq<Tid>, ghost was: View, ghost before: View)
      returns (left: seq<Tid>, still: nat, next: nat, ghost now: View)
      requires i < |queues| == |was.queues| == |idle| && me < |queues| && toSend > 0 && before == Now()
      requires Distributed(was, before, idle, me, share, cur, i, all, victims)
      requires Pool(victims, toSend, cur) && toSend <= Capacity(was.queues, me, share, i)
      modifies this
      ensures next == i + 1 && |queues| == |old(queues)| && now == Now()
      ensures Distributed(was, now, idle, me, share, cur, next, all, left)
      ensures Pool(left, still, cur) && still <= Capacity(was.queues, me, share, next)
    {
      next := i + 1;
      if i != me {
        left, still, now := ServeOther(i, me, share, cur, victims, toSend, all, was, before);
      } else {
        left, still, now := victims, toSend, before;
        DistributeSkip(was, before, idle, me, share, cur, all, left);
      }
    }

    method ServeOther(i: nat, me: nat, share: nat, cur: Tid, victims: seq<Tid>, toSend: nat,
                      ghost all: seq<Tid>, ghost was: View, ghost before: View)
      returns (left: seq<Tid>, still: nat, ghost now: View)
      requires i < |queues| == |was.queues| == |idle| && me < |queues| && toSend > 0 && before == Now() && i != me
      requires Distributed(was, before, idle, me, share, cur, i, all, victims)
      requires Pool(victims, toSend, cur) && toSend <= Capacity(was.queues, me, share, i)
      modifies this
      ensures |queues| == |old(queues)| && now == Now()
      ensures Distributed(was, now, idle, me, share, cur, i + 1, all, left)
      ensures Pool(left, still, cur) && still <= Capacity(was.queues, me, share, i + 1)
    {
      ghost var moved;
      left, still, moved := Fill(i, share, cur, victims, toSend);
      now := Now();
      DistributeStep(was, before, now, idle, me, share, cur, i, all, victims, moved, left);
    }

    /** Puts the victims nobody took back on the own queue. */
    method PutBack(me: nat, victims: seq<Tid>)
      requires me < |queues|
      modifies `queues
      ensures queues == old(queues)[me := old(queues[me]) + victims]
    {
      var left := victims;
      ghost var was := queues[me];
      assert was + victims[..0] == was;
      while left != []
        invariant |left| <= |victims| && left == victims[|victims| - |left|..]
        invariant |queues| == |old(queues)| && queues == old(queues)[me := was + victims[..|victims| - |left|]]
      {
        var k := |victims| - |left|;
        assert was + victims[..k] + [left[0]] == was + victims[..k + 1];
        queues := queues[me := queues[me] + [left[0]]];
        left := left[1..];
      }
      assert victims[..|victims|] == victims;
    }

    /** The whole pass, nobody else touching the queues.  When the own queue is at or above
        an even share, everything beyond the share except the current thread goes, in order,
        to the ends of the other queues, none of which rises above the share. */
    method ConsiderMigration(me: nat, cur: Tid)
      requires me < |queues| == |idle| && Homed(queues, home) && NoDuplicates(queues[me])
      modifies this
      ensures |queues| == |idle| && Balanced(old(Now()), Now(), idle, me, cur)
    {
      ghost var was := Now();
      var total := CountThreads();
      var mine := |queues[me]|;
      DivRoundUpIsDivision(total, |queues|);
      var share := (total + |queues| - 1) / |queues|;
      if mine < share { return; }
      var victims := TakeVictims(me, mine - share);
      StartDistribution(was.queues, was.home, me, share, cur);
      VictimsFit(was.queues, me, share);
      var left, _ := Distribute(me, share, cur, victims, mine - share);
      ghost var spread := Now();
      PutBack(me, left);
      FinishMigration(was, spread, Now(), idle, me, share, cur, left);
    }
  }
}
