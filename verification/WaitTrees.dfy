/** The priority-ordered intrusive trees of the kernel, as sequences.

    A lock's waiters are ordered by priority; the condition-variable and arbiter trees are
    ordered by key and then by priority.  A smaller number is a higher priority.  The tree
    comparators never answer "equal", so an inserted thread lands behind its equals. */
module WaitTrees {
  import opened Basics

  type Tid = nat
  type Addr = nat
  type Lid = nat
  type Word = nat

  datatype Order = ByPriority | ByKeyThenPriority

  /** Which `KThreadQueue` a thread sleeps in; a thread is in `ThreadState_Waiting` exactly
      while it has one. */
  datatype Queue = NoQueue | LockQueue | CondQueue | ArbQueue

  /** Which tree `m_condvar_tree` points to. */
  datatype Tree = NoTree | InCond | InArb

  datatype Result =
    | Success | TimedOut | Cancelled | TerminationRequested
    | InvalidCurrentMemory | InvalidHandle | InvalidState

  /** The fields of a `KThread` that the wait protocols read or write. */
  datatype Thread = Thread(
    base: int, prio: int,
    dying: bool,
    queue: Queue, result: Result,
    tree: Tree, cvKey: Addr,
    lock: Option<Lid>, key: Addr, val: Word,
    held: seq<Lid>)

  type Threads = map<Tid, Thread>

  /** `a` stays in front of a newly inserted `b`. */
  predicate Le(o: Order, a: Thread, b: Thread) {
    match o
    case ByPriority => a.prio <= b.prio
    case ByKeyThenPriority => a.cvKey < b.cvKey || (a.cvKey == b.cvKey && a.prio <= b.prio)
  }

  /** A wait queue: known threads, none twice, in order. */
  predicate Queued(o: Order, th: Threads, q: seq<Tid>) {
    q == [] ||
    (&& q[0] in th && q[0] !in q[1..]
     && (|q| > 1 ==> q[1] in th && Le(o, th[q[0]], th[q[1]]))
     && Queued(o, th, q[1..]))
  }

  /** Insert `t` behind every leading thread that stays in front of it. */
  function Insert(o: Order, th: Threads, q: seq<Tid>, t: Tid): (q': seq<Tid>)
    requires Queued(o, th, q) && t in th
    ensures q' != []
  {
    if q == [] || !Le(o, th[q[0]], th[t]) then [t] + q
    else [q[0]] + Insert(o, th, q[1..], t)
  }

  function Remove<T(==)>(q: seq<T>, t: T): (q': seq<T>)
    requires t in q
    ensures |q'| == |q| - 1
  {
    if q[0] == t then q[1..] else [q[0]] + Remove(q[1..], t)
  }

  /** Inserting keeps the order and adds exactly `t`. */
  lemma {:induction false} InsertProperties(o: Order, th: Threads, q: seq<Tid>, t: Tid)
    requires Queued(o, th, q) && t in th && t !in q
    ensures Queued(o, th, Insert(o, th, q, t))
    ensures forall x :: x in Insert(o, th, q, t) <==> x == t || x in q
  {
    var q' := Insert(o, th, q, t);
    if q == [] || !Le(o, th[q[0]], th[t]) {
      assert q'[1..] == q;
    } else {
      InsertProperties(o, th, q[1..], t);
      assert q'[1..] == Insert(o, th, q[1..], t);
      assert q == [q[0]] + q[1..];
    }
  }

  /** Removing drops exactly `t`. */
  lemma {:induction false} RemoveMembers<T>(q: seq<T>, t: T)
    requires t in q && NoDup(q)
    ensures NoDup(Remove(q, t))
    ensures forall x :: x in Remove(q, t) <==> x != t && x in q
  {
    assert q == [q[0]] + q[1..];
    if q[0] != t {
      RemoveMembers(q[1..], t);
      assert Remove(q, t)[1..] == Remove(q[1..], t);
    }
  }

  /** Removing keeps the order and drops exactly `t`. */
  lemma {:induction false} RemoveProperties(o: Order, th: Threads, q: seq<Tid>, t: Tid)
    requires t in q && Queued(o, th, q)
    ensures Queued(o, th, Remove(q, t))
    ensures forall x :: x in Remove(q, t) <==> x != t && x in q
  {
    assert q == [q[0]] + q[1..];
    if q[0] != t {
      RemoveProperties(o, th, q[1..], t);
      assert Remove(q, t)[1..] == Remove(q[1..], t);
    }
  }

  predicate SameRank(th: Threads, th': Threads, x: Tid) {
    x in th && x in th' && th'[x].prio == th[x].prio && th'[x].cvKey == th[x].cvKey
  }

  /** The order of a queue depends only on its members' keys and priorities. */
  lemma {:induction false} QueuedFrame(o: Order, th: Threads, th': Threads, q: seq<Tid>)
    requires Queued(o, th, q)
    requires forall x {:trigger SameRank(th, th', x)} :: x in q ==> SameRank(th, th', x)
    ensures Queued(o, th', q)
  {
    if q != [] {
      assert SameRank(th, th', q[0]);
      if |q| > 1 { assert q[1] in q && SameRank(th, th', q[1]); }
      QueuedFrame(o, th, th', q[1..]);
    }
  }

  lemma {:induction false} QueuedIn(o: Order, th: Threads, q: seq<Tid>, x: Tid)
    requires Queued(o, th, q) && x in q
    ensures x in th
  {
    if q[0] != x { QueuedIn(o, th, q[1..], x); }
  }
}
