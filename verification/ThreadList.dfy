/** The doubly linked thread list with its two sentinels.  Every operation refines one on the
    sequence of listed nodes, and the walks in both directions read that sequence. */
module ThreadList {

  import opened Collections

  type Tid = nat

  /** struct threadlistnode; self is None in the sentinels. */
  class Node {
    var prev: Node?
    var next: Node?
    const self: Option<Tid>

    constructor (self: Option<Tid>)
      ensures this.self == self && prev == null && next == null
    {
      this.self, prev, next := self, null, null;
    }
  }

  ghost predicate Distinct(s: seq<Node>) {
    forall i, j :: 0 <= i < j < |s| ==> s[i] != s[j]
  }

  /** Neighbours point at each other, and the ends at nothing. */
  ghost predicate Linked(s: seq<Node>)
    reads s
  {
    && |s| >= 2 && s[0].prev == null && s[|s| - 1].next == null
    && (forall i {:trigger s[i].next} :: 0 <= i < |s| - 1 ==> s[i].next == s[i + 1])
    && (forall i {:trigger s[i].prev} :: 0 < i < |s| ==> s[i].prev == s[i - 1])
  }

  /** Sentinels at the ends, threads between. */
  ghost predicate Bookended(s: seq<Node>) {
    && |s| >= 2 && s[0].self == None && s[|s| - 1].self == None
    && forall i :: 0 < i < |s| - 1 ==> s[i].self.Some?
  }

  function Insert<T>(s: seq<T>, i: nat, x: T): seq<T>
    requires i <= |s|
  {
    s[..i] + [x] + s[i..]
  }

  function Delete<T>(s: seq<T>, i: nat): seq<T>
    requires i < |s|
  {
    s[..i] + s[i + 1..]
  }

  /** Inserting inside a bookended chain inserts into what is between the ends. */
  lemma Inserted(s: seq<Node>, i: nat, x: Node)
    requires Bookended(s) && 0 < i < |s| && x.self.Some?
    ensures var r := Insert(s, i, x);
            && Bookended(r) && r[0] == s[0] && r[|r| - 1] == s[|s| - 1]
            && r[1..|r| - 1] == Insert(s[1..|s| - 1], i - 1, x)
            && (forall n :: n in r ==> n in s || n == x) && (forall n :: n in s ==> n in r) && x in r
  {
    var r := Insert(s, i, x);
    assert r[i] == x;
    forall n | n in s ensures n in r {
      var k :| 0 <= k < |s| && s[k] == n;
      assert r[if k < i then k else k + 1] == n;
    }
  }

  /** Likewise for deleting. */
  lemma Deleted(s: seq<Node>, i: nat)
    requires Bookended(s) && Distinct(s) && 0 < i < |s| - 1
    ensures var r := Delete(s, i);
            && Bookended(r) && r[0] == s[0] && r[|r| - 1] == s[|s| - 1]
            && r[1..|r| - 1] == Delete(s[1..|s| - 1], i - 1)
            && (forall n :: n in r ==> n in s && n != s[i]) && (forall n :: n in s && n != s[i] ==> n in r)
  {
    var r := Delete(s, i);
    assert forall k :: 0 <= k < |r| ==> r[k] == s[if k < i then k else k + 1];
    assert r[1..|r| - 1] == Delete(s[1..|s| - 1], i - 1);
    forall n | n in s && n != s[i] ensures n in r {
      var k :| 0 <= k < |s| && s[k] == n;
      assert r[if k < i then k else k - 1] == n;
    }
  }

  /** threadlist_insertafternode. */
  method InsertAfterNode(onlist: Node, x: Node, ghost s: seq<Node>, ghost i: nat)
    requires Distinct(s) && Linked(s) && 0 < i < |s| && onlist == s[i - 1] && x !in s
    modifies s, x
    ensures Linked(Insert(s, i, x)) && Distinct(Insert(s, i, x))
  {
    assert onlist.next == s[i];
    x.prev := onlist;
    x.next := onlist.next;
    x.prev.next := x;
    x.next.prev := x;
  }

  /** threadlist_insertbeforenode. */
  method InsertBeforeNode(x: Node, onlist: Node, ghost s: seq<Node>, ghost i: nat)
    requires Distinct(s) && Linked(s) && 0 < i < |s| && onlist == s[i] && x !in s
    modifies s, x
    ensures Linked(Insert(s, i, x)) && Distinct(Insert(s, i, x))
  {
    assert onlist.prev == s[i - 1];
    x.prev := onlist.prev;
    x.next := onlist;
    x.prev.next := x;
    x.next.prev := x;
  }

  /** threadlist_removenode: the neighbours close up and the node points nowhere. */
  method Unlink(x: Node, ghost s: seq<Node>, ghost i: nat)
    requires Distinct(s) && Linked(s) && 0 < i < |s| - 1 && x == s[i]
    modifies s
    ensures Linked(Delete(s, i)) && Distinct(Delete(s, i)) && x !in Delete(s, i)
    ensures x.prev == null && x.next == null
  {
    assert x.prev == s[i - 1] && x.next == s[i + 1];
    x.prev.next := x.next;
    x.next.prev := x.prev;
    x.prev := null;
    x.next := null;
  }

  /** struct threadlist.  chain is the list with its sentinels. */
  class ThreadList {
    const head: Node
    const tail: Node
    var count: nat
    ghost var chain: seq<Node>
    ghost var repr: set<Node>

    /** All but the links. */
    ghost predicate Shaped()
      reads this
    {
      && (forall n :: n in chain ==> n in repr) && (forall n :: n in repr ==> n in chain)
      && Bookended(chain) && chain[0] == head && chain[|chain| - 1] == tail
      && count == |chain| - 2
    }

    ghost predicate Valid()
      reads this, repr
    {
      Shaped() && Linked(chain) && Distinct(chain)
    }

    /** The listed nodes, first to last. */
    ghost function Contents(): seq<Node>
      reads this, repr
      requires Valid()
    {
      chain[1..|chain| - 1]
    }

    constructor ()
      ensures Valid() && Contents() == [] && fresh(repr)
    {
      head := new Node(None);
      tail := new Node(None);
      count := 0;
      new;
      head.next := tail;
      tail.prev := head;
      chain, repr := [head, tail], {head, tail};
    }

    method IsEmpty() returns (b: bool)
      requires Valid()
      ensures b <==> Contents() == []
    {
      b := count == 0;
    }

    method AddHead(t: Node)
      requires Valid() && t !in repr && t.self.Some?
      modifies this, repr, t
      ensures Valid() && Contents() == [t] + old(Contents())
      ensures repr == old(repr) + {t}
    {
      assert Insert(Contents(), 0, t) == [t] + Contents();
      InsertAfterNode(head, t, chain, 1);
      Grow(t, 1);
    }

    /** tl_count++, once node t has been linked in at place i of the chain. */
    method Grow(t: Node, ghost i: nat)
      requires Shaped() && t !in repr && t.self.Some? && 0 < i < |chain| && Linked(Insert(chain, i, t)) && Distinct(Insert(chain, i, t))
      modifies this
      ensures Valid() && Contents() == Insert(old(chain)[1..|old(chain)| - 1], i - 1, t) && repr == old(repr) + {t}
    {
      Inserted(chain, i, t);
      chain := Insert(chain, i, t);
      repr, count := repr + {t}, count + 1;
    }

    method AddTail(t: Node)
      requires Valid() && t !in repr && t.self.Some?
      modifies this, repr, t
      ensures Valid() && Contents() == old(Contents()) + [t]
      ensures repr == old(repr) + {t}
    {
      assert Insert(Contents(), |Contents()|, t) == Contents() + [t];
      InsertBeforeNode(t, tail, chain, |chain| - 1);
      Grow(t, |chain| - 1);
    }

    method InsertAfter(onlist: Node, t: Node, ghost i: nat)
      requires Valid() && i < |Contents()| && onlist == Contents()[i] && t !in repr && t.self.Some?
      modifies this, repr, t
      ensures Valid() && Contents() == Insert(old(Contents()), i + 1, t)
      ensures repr == old(repr) + {t}
    {
      InsertAfterNode(onlist, t, chain, i + 2);
      Grow(t, i + 2);
    }

    method InsertBefore(t: Node, onlist: Node, ghost i: nat)
      requires Valid() && i < |Contents()| && onlist == Contents()[i] && t !in repr && t.self.Some?
      modifies this, repr, t
      ensures Valid() && Contents() == Insert(old(Contents()), i, t)
      ensures repr == old(repr) + {t}
    {
      assert chain[i + 1] == onlist;
      InsertBeforeNode(t, onlist, chain, i + 1);
      Grow(t, i + 1);
    }

    /** Removes the node at place i of the chain. */
    method Drop(x: Node, ghost i: nat)
      requires Valid() && 0 < i < |chain| - 1 && x == chain[i]
      modifies this, repr
      ensures Valid() && chain == Delete(old(chain), i) && Contents() == Delete(old(Contents()), i - 1)
      ensures repr == old(repr) - {x} && x.prev == null && x.next == null
    {
      Deleted(chain, i);
      Unlink(x, chain, i);
      chain, repr, count := Delete(chain, i), repr - {x}, count - 1;
    }

    method RemHead() returns (t: Node?)
      requires Valid()
      modifies this, repr
      ensures Valid() && (t == null <==> old(Contents()) == [])
      ensures t == null ==> Contents() == old(Contents()) && repr == old(repr)
      ensures t != null ==> Contents() == old(Contents())[1..] && t == old(Contents())[0] && repr == old(repr) - {t} && t in old(repr)
      ensures t != null ==> t.prev == null && t.next == null && t.self.Some?
    {
      var x := head.next;
      assert x == chain[1];
      if x.next == null { return null; }
      Drop(x, 1);
      t := x;
    }

    method RemTail() returns (t: Node?)
      requires Valid()
      modifies this, repr
      ensures Valid() && (t == null <==> old(Contents()) == [])
      ensures t == null ==> Contents() == old(Contents()) && repr == old(repr)
      ensures t != null ==> var n := |old(Contents())| - 1;
                            Contents() == old(Contents())[..n] && t == old(Contents())[n] && repr == old(repr) - {t} && t in old(repr)
      ensures t != null ==> t.prev == null && t.next == null && t.self.Some?
    {
      var x := tail.prev;
      assert x == chain[|chain| - 2];
      if x.prev == null { return null; }
      Drop(x, |chain| - 2);
      t := x;
    }

    method Remove(t: Node, ghost i: nat)
      requires Valid() && i < |Contents()| && t == Contents()[i]
      modifies this, repr
      ensures Valid() && Contents() == Delete(old(Contents()), i)
      ensures repr == old(repr) - {t} && t.prev == null && t.next == null
    {
      Drop(t, i + 1);
    }

    /** THREADLIST_FORALL visits the contents in order. */
    method Forward() returns (seen: seq<Tid>)
      requires Valid()
      ensures |seen| == |Contents()| && forall i :: 0 <= i < |seen| ==> Contents()[i].self == Some(seen[i])
    {
      seen := [];
      var n := head.next;
      ghost var i := 1;
      while n.self != None
        invariant 1 <= i <= |chain| - 1 && n == chain[i] && |seen| == i - 1
        invariant forall k :: 0 <= k < |seen| ==> chain[k + 1].self == Some(seen[k])
        decreases |chain| - i
      {
        seen := seen + [n.self.value];
        n := n.next;
        i := i + 1;
      }
    }

    /** THREADLIST_FORALL_REV visits them in reverse. */
    method Backward() returns (seen: seq<Tid>)
      requires Valid()
      ensures |seen| == |Contents()|
      ensures forall i :: 0 <= i < |seen| ==> Contents()[|seen| - 1 - i].self == Some(seen[i])
    {
      seen := [];
      var n := tail.prev;
      ghost var i := |chain| - 2;
      while n.self != None
        invariant 0 <= i <= |chain| - 2 && n == chain[i] && |seen| == |chain| - 2 - i
        invariant forall k :: 0 <= k < |seen| ==> chain[|chain| - 2 - k].self == Some(seen[k])
        decreases i
      {
        seen := seen + [n.self.value];
        n := n.prev;
        i := i - 1;
      }
    }
  }

  /** Moves the first thread of one list to the end of another. */
  method MoveOne(src: ThreadList, dst: ThreadList) returns (moved: bool)
    requires src != dst && src.Valid() && dst.Valid() && src.repr !! dst.repr
    modifies src, src.repr, dst, dst.repr
    ensures src.Valid() && dst.Valid() && src.repr !! dst.repr && src.repr + dst.repr == old(src.repr) + old(dst.repr)
    ensures moved <==> old(src.Contents()) != []
    ensures moved ==> src.Contents() == old(src.Contents())[1..]
    ensures dst.Contents() == old(dst.Contents()) + if moved then [old(src.Contents())[0]] else []
    ensures !moved ==> src.Contents() == []
  {
    var t := src.RemHead();
    moved := t != null;
    if t != null { dst.AddTail(t); }
  }

  /** Moves everything from one list to the end of another, first to last. */
  method MoveAll(src: ThreadList, dst: ThreadList)
    requires src != dst && src.Valid() && dst.Valid() && src.repr !! dst.repr
    modifies src, src.repr, dst, dst.repr
    ensures src.Valid() && dst.Valid() && src.repr !! dst.repr && src.repr + dst.repr == old(src.repr) + old(dst.repr)
    ensures src.Contents() == [] && dst.Contents() == old(dst.Contents()) + old(src.Contents())
  {
    ghost var all := dst.Contents() + src.Contents();
    var more := true;
    while more
      invariant src.Valid() && dst.Valid() && src.repr !! dst.repr
      invariant src.repr + dst.repr == old(src.repr) + old(dst.repr)
      invariant dst.Contents() + src.Contents() == all && (!more ==> src.Contents() == [])
      decreases |src.Contents()|, more
    {
      more := MoveOne(src, dst);
    }
  }

  /** Moves the first thread of a list, if any, to the end of out. */
  method TakeOne(list: ThreadList, out: seq<Node>) returns (out': seq<Node>, more: bool)
    requires list.Valid()
    modifies list, list.repr
    ensures list.Valid() && list.repr <= old(list.repr) && out' + list.Contents() == out + old(list.Contents())
    ensures if more then |list.Contents()| < |old(list.Contents())| else list.Contents() == []
  {
    ghost var rest := list.Contents();
    var t := list.RemHead();
    more := t != null;
    if t == null { return out, false; }
    assert rest == [t] + rest[1..];
    out' := out + [t];
  }

  /** Empties a list, first to last. */
  method Drain(list: ThreadList) returns (out: seq<Node>)
    requires list.Valid()
    modifies list, list.repr
    ensures list.Valid() && list.Contents() == [] && out == old(list.Contents())
  {
    out := [];
    ghost var all := list.Contents();
    var more := true;
    while more
      invariant list.Valid() && list.repr <= old(list.repr) && out + list.Contents() == all
      invariant !more ==> list.Contents() == []
      decreases |list.Contents()|, more
    {
      out, more := TakeOne(list, out);
    }
  }

  /** wchan_wakeall: the channel is drained into a private list and that list, in turn, into
      thread_make_runnable.  woken is the order in which threads are made runnable. */
  method WakeAll(channel: ThreadList) returns (woken: seq<Node>)
    requires channel.Valid()
    modifies channel, channel.repr
    ensures channel.Valid() && channel.Contents() == [] && woken == old(channel.Contents())
  {
    var list := new ThreadList();
    MoveAll(channel, list);
    woken := Drain(list);
  }
}
