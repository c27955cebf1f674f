/** Positions in the condition-variable tree, and how `RestorePriority` moves its members. */
module TreeOrder {
  import opened Basics
  import opened WaitTrees
  import opened KernelState
  import opened PriorityInheritance
  import opened WaiterLists

  // ----- Who is in front of whom -----

  predicate Before(q: seq<Tid>, y: Tid, z: Tid) {
    q != [] && (if q[0] == y then z in q[1..] else Before(q[1..], y, z))
  }

  lemma {:induction false} BeforeIn(q: seq<Tid>, y: Tid, z: Tid)
    requires Before(q, y, z)
    ensures y in q && z in q
  {
    if q[0] != y { BeforeIn(q[1..], y, z); }
  }

  lemma {:induction false} BeforeRemove(q: seq<Tid>, x: Tid, y: Tid, z: Tid)
    requires x in q && x != y && x != z
    ensures Before(Remove(q, x), y, z) <==> Before(q, y, z)
  {
    assert q == [q[0]] + q[1..];
    if q[0] != x {
      assert Remove(q, x)[1..] == Remove(q[1..], x);
      BeforeRemove(q[1..], x, y, z);
      RemoveKeeps(q[1..], x, z);
    }
  }

  lemma {:induction false} RemoveKeeps(q: seq<Tid>, x: Tid, z: Tid)
    requires x in q && x != z
    ensures z in Remove(q, x) <==> z in q
  {
    assert q == [q[0]] + q[1..];
    if q[0] != x { RemoveKeeps(q[1..], x, z); }
  }

  lemma {:induction false} BeforeInsert(o: Order, th: Threads, q: seq<Tid>, x: Tid, y: Tid, z: Tid)
    requires Queued(o, th, q) && x in th && x !in q && x != y && x != z
    ensures Before(Insert(o, th, q, x), y, z) <==> Before(q, y, z)
  {
    var q' := Insert(o, th, q, x);
    if q == [] || !Le(o, th[q[0]], th[x]) {
      assert q'[1..] == q;
    } else {
      assert q'[1..] == Insert(o, th, q[1..], x);
      BeforeInsert(o, th, q[1..], x, y, z);
      InsertProperties(o, th, q[1..], x);
    }
  }

  /** An inserted thread lands behind exactly the threads that are not worse. */
  lemma {:induction false} InsertedBehind(o: Order, th: Threads, q: seq<Tid>, x: Tid, z: Tid)
    requires Queued(o, th, q) && x in th && x !in q && z in q
    ensures z in th && (Before(Insert(o, th, q, x), z, x) <==> Le(o, th[z], th[x]))
  {
    var q' := Insert(o, th, q, x);
    QueuedIn(o, th, q, z);
    FrontLe(o, th, q, z);
    if !Le(o, th[q[0]], th[x]) {
      assert q'[1..] == q;
      if Before(q, z, x) { BeforeIn(q, z, x); }
    } else {
      assert q'[1..] == Insert(o, th, q[1..], x);
      InsertProperties(o, th, q[1..], x);
      if z != q[0] { InsertedBehind(o, th, q[1..], x, z); }
    }
  }

  lemma {:induction false} FrontLe(o: Order, th: Threads, q: seq<Tid>, z: Tid)
    requires Queued(o, th, q) && z in q
    ensures z in th && Le(o, th[q[0]], th[z])
  {
    if q[0] != z { FrontLe(o, th, q[1..], z); }
  }

  lemma {:induction false} BeforeLe(o: Order, th: Threads, q: seq<Tid>, y: Tid, z: Tid)
    requires Queued(o, th, q) && Before(q, y, z)
    ensures y in th && z in th && Le(o, th[y], th[z])
  {
    if q[0] == y { FrontLe(o, th, q, z); } else { BeforeLe(o, th, q[1..], y, z); }
  }

  lemma {:induction false} BeforeTotal(o: Order, th: Threads, q: seq<Tid>, y: Tid, z: Tid)
    requires Queued(o, th, q) && y in q && z in q && y != z
    ensures Before(q, y, z) <==> !Before(q, z, y)
  {
    if q[0] == y { if Before(q[1..], z, y) { BeforeIn(q[1..], z, y); } }
    else if q[0] == z { if Before(q[1..], y, z) { BeforeIn(q[1..], y, z); } }
    else { BeforeTotal(o, th, q[1..], y, z); }
  }

  lemma {:induction false} BeforeTrans(o: Order, th: Threads, q: seq<Tid>, x: Tid, y: Tid, z: Tid)
    requires Queued(o, th, q) && Before(q, x, y) && Before(q, y, z)
    ensures Before(q, x, z) && x != z
  {
    if q[0] == x { BeforeIn(q, y, z); if q[0] != y { BeforeIn(q[1..], y, z); } }
    else if q[0] == y { BeforeIn(q[1..], x, y); }
    else { BeforeTrans(o, th, q[1..], x, y, z); }
  }

  // ----- The end of a chain of owners -----

  /** Follow owners from `x` until a thread that waits for nobody; none if the chain returns to a
      thread of `seen`. */
  function EndFrom(s: State, x: Tid, seen: set<Tid>): Option<Tid>
    decreases s.threads.Keys - seen
  {
    if x !in s.threads || x in seen then None
    else match OwnerOf(s, x)
         case None => Some(x)
         case Some(y) =>
           assert x in s.threads.Keys - seen && x !in s.threads.Keys - (seen + {x});
           EndFrom(s, y, seen + {x})
  }

  lemma {:induction false} EndFrame(s: State, s': State, x: Tid, seen: set<Tid>)
    requires s'.threads.Keys == s.threads.Keys
    requires forall w {:trigger OwnerOf(s', w)} :: w !in seen ==> OwnerOf(s', w) == OwnerOf(s, w)
    ensures EndFrom(s', x, seen) == EndFrom(s, x, seen)
    decreases s.threads.Keys - seen
  {
    if x in s.threads && x !in seen {
      assert OwnerOf(s', x) == OwnerOf(s, x);
      if OwnerOf(s, x).Some? {
        assert x in s.threads.Keys - seen && x !in s.threads.Keys - (seen + {x});
        EndFrame(s, s', OwnerOf(s, x).value, seen + {x});
      }
    }
  }

  lemma {:induction false} EndUnseen(s: State, x: Tid, seen: set<Tid>)
    requires EndFrom(s, x, seen).Some?
    ensures EndFrom(s, x, seen).value !in seen
    decreases s.threads.Keys - seen
  {
    if OwnerOf(s, x).Some? {
      assert x in s.threads.Keys - seen && x !in s.threads.Keys - (seen + {x});
      EndUnseen(s, OwnerOf(s, x).value, seen + {x});
    }
  }

  /** Priorities only improve along a chain of owners. */
  lemma {:induction false} EndBelow(s: State, x: Tid, seen: set<Tid>)
    requires AllInherit(s) && EndFrom(s, x, seen).Some?
    ensures var e := EndFrom(s, x, seen).value; e in s.threads && s.threads[e].prio <= s.threads[x].prio && OwnerOf(s, e) == None
    decreases s.threads.Keys - seen
  {
    if OwnerOf(s, x).Some? {
      var y := OwnerOf(s, x).value;
      assert x in s.threads.Keys - seen && x !in s.threads.Keys - (seen + {x});
      EndBelow(s, y, seen + {x});
      assert Inherits(s, y);
    }
  }

  // ----- Moving one member forward -----

  /** `e` is a member that is worse than `p`. */
  ghost predicate Moves(s: State, e: Option<Tid>, p: int) {
    e.Some? && e.value in s.cond && e.value in s.threads && p < s.threads[e.value].prio
  }

  ghost function LiftedThreads(s: State, e: Option<Tid>, p: int): Threads {
    if Moves(s, e, p) then s.threads[e.value := SetPrio(s.threads[e.value], p)] else s.threads
  }

  ghost function LiftedTree(s: State, e: Option<Tid>, p: int): seq<Tid>
    requires Queued(ByKeyThenPriority, s.threads, s.cond)
  {
    if Moves(s, e, p) then
      RequeueFrame(s, e.value, p, s.cond);
      Insert(ByKeyThenPriority, LiftedThreads(s, e, p), Remove(s.cond, e.value), e.value)
    else s.cond
  }

  /** If `e` is a member worse than `p`, it is re-inserted at `p`; otherwise the tree stays. */
  ghost predicate Lifted(s: State, s': State, e: Option<Tid>, p: int)
    requires Queued(ByKeyThenPriority, s.threads, s.cond)
  {
    s'.cond == LiftedTree(s, e, p) && SameRanks(LiftedThreads(s, e, p), s'.threads, s.cond)
  }

  ghost predicate SameRanks(th: Threads, th': Threads, q: seq<Tid>) {
    forall x {:trigger SameRank(th, th', x)} :: x in q ==> SameRank(th, th', x)
  }

  lemma {:induction false} InsertFrame(o: Order, th: Threads, th': Threads, q: seq<Tid>, t: Tid)
    requires Queued(o, th, q) && Queued(o, th', q) && SameRank(th, th', t) && SameRanks(th, th', q)
    ensures Insert(o, th', q, t) == Insert(o, th, q, t)
  {
    if q != [] {
      assert SameRank(th, th', q[0]);
      InsertFrame(o, th, th', q[1..], t);
    }
  }

  /** A thread outside the tree changes its priority: the tree stays. */
  lemma OutsideStays(s: State, t: Tid, p: int)
    requires Links(s) && t in s.threads && s.threads[t].tree != InCond
    ensures var s' := ChangePriority(s, t, p); s'.cond == s.cond && SameRanks(s.threads, s'.threads, s.cond)
  {
    var s' := ChangePriority(s, t, p);
    ChangePriorityKeepsLinks(s, t, p);
    assert ThreadLinks(s, t);
    OutsideRanks(s, s', t, p);
    if s.threads[t].lock.Some? { WaiterStays(s, t, p); }
  }

  lemma OutsideRanks(s: State, s': State, t: Tid, p: int)
    requires Queued(ByKeyThenPriority, s.threads, s.cond) && t !in s.cond && OnlyPrio(s, s', t, p)
    ensures SameRanks(s.threads, s'.threads, s.cond)
  {
    forall x | x in s.cond ensures SameRank(s.threads, s'.threads, x) {
      QueuedIn(ByKeyThenPriority, s.threads, s.cond, x);
      assert Alike(s, s', x);
    }
  }

  lemma WaiterStays(s: State, t: Tid, p: int)
    requires Links(s) && t in s.threads && s.threads[t].lock.Some?
    ensures ChangePriority(s, t, p).cond == s.cond
  {
    assert ThreadLinks(s, t);
    assert LockLinks(s, s.threads[t].lock.value);
    RemoveKeepsLinks(s, t);
    var s1 := RemoveWaiterImpl(s, t);
    assert SameThread(s, s1, t);
    ReprioritiseKeepsLinks(s1, t, p);
  }

  lemma MemberMoves(s: State, t: Tid, p: int)
    requires Links(s) && t in s.threads && s.threads[t].lock == None && s.threads[t].tree == InCond && p < s.threads[t].prio
    ensures Lifted(s, Reprioritise(s, t, p), Some(t), p)
  {
    assert ThreadLinks(s, t);
    ReprioritiseKeepsLinks(s, t, p);
    forall x | x in s.cond ensures x in s.threads { QueuedIn(ByKeyThenPriority, s.threads, s.cond, x); }
  }

  /** Lifting depends on the tree and its members' ranks only. */
  lemma LiftedFrame(s: State, s1: State, s2: State, e: Option<Tid>, p: int)
    requires Queued(ByKeyThenPriority, s.threads, s.cond) && Queued(ByKeyThenPriority, s1.threads, s1.cond)
    requires s1.cond == s.cond && SameRanks(s.threads, s1.threads, s.cond) && Lifted(s1, s2, e, p)
    ensures Lifted(s, s2, e, p)
  {
    var th, th1 := LiftedThreads(s, e, p), LiftedThreads(s1, e, p);
    if e.Some? && e.value in s.cond { assert SameRank(s.threads, s1.threads, e.value); }
    forall x | x in s.cond ensures SameRank(th, th1, x) && SameRank(th, s2.threads, x) {
      assert SameRank(s.threads, s1.threads, x) && SameRank(th1, s2.threads, x);
    }
    if Moves(s, e, p) {
      RequeueFrame(s, e.value, p, s.cond);
      RequeueFrame(s1, e.value, p, s.cond);
      RemoveProperties(ByKeyThenPriority, s.threads, s.cond, e.value);
      InsertFrame(ByKeyThenPriority, th, th1, Remove(s.cond, e.value), e.value);
    }
  }

  /** Every thread of `seen` is at least as good as `p`. */
  ghost predicate SeenBelow(s: State, seen: set<Tid>, p: int) {
    forall x :: x in seen && x in s.threads ==> s.threads[x].prio <= p
  }

  /** A walk of `RestorePriority` that improves priorities to `p` moves at most the end of the
      chain of owners, and moves it exactly if it is worse than `p`. */
  lemma {:induction false} RestoreLifts(s: State, t: Tid, p: int, seen: set<Tid>)
    requires Links(s) && t in s.threads && OthersInherit(s, t) && SeenBelow(s, seen, p)
    requires Wanted(s, t) == if p < s.threads[t].prio then p else s.threads[t].prio
    ensures Lifted(s, Restore(s, t), EndFrom(s, t, seen), p)
    decreases Rounds(s, t)
  {
    if s.threads[t].prio <= p {
      NoLift(s, t, p, seen);
    } else if OwnerOf(s, t).None? {
      LiftsOne(s, t, p);
    } else {
      var o := OwnerOf(s, t).value;
      var s1 := ChangePriority(s, t, p);
      LiftsOne(s, t, p);
      SeenOn(s, s1, t, p, seen);
      RestoreLifts(s1, o, p, seen + {t});
      LiftsOn(s, s1, Restore(s1, o), o, seen + {t}, p);
    }
  }

  lemma SeenOn(s: State, s1: State, t: Tid, p: int, seen: set<Tid>)
    requires SeenBelow(s, seen, p) && OnlyPrio(s, s1, t, p)
    ensures SeenBelow(s1, seen + {t}, p)
  {
  }

  lemma SeenSelf(s: State, t: Tid, p: int)
    requires t in s.threads ==> s.threads[t].prio <= p
    ensures SeenBelow(s, {t}, p)
  {
  }

  /** The rest of the walk lifts the end of the same chain. */
  lemma LiftsOn(s: State, s1: State, s2: State, o: Tid, seen: set<Tid>, p: int)
    requires Unmoved(s, s1) && Lifted(s1, s2, EndFrom(s1, o, seen), p)
    requires forall w {:trigger OwnerOf(s1, w)} :: w !in seen ==> OwnerOf(s1, w) == OwnerOf(s, w)
    ensures Lifted(s, s2, EndFrom(s, o, seen), p)
  {
    EndFrame(s, s1, o, seen);
    LiftedFrame(s, s1, s2, EndFrom(s, o, seen), p);
  }

  /** The tree and its members' ranks are the same. */
  ghost predicate Unmoved(s: State, s1: State) {
    && s1.threads.Keys == s.threads.Keys && s1.cond == s.cond && SameRanks(s.threads, s1.threads, s.cond)
    && Queued(ByKeyThenPriority, s.threads, s.cond) && Queued(ByKeyThenPriority, s1.threads, s.cond)
  }

  /** Nothing on the chain is worse than `p`. */
  lemma NoLift(s: State, t: Tid, p: int, seen: set<Tid>)
    requires Queued(ByKeyThenPriority, s.threads, s.cond) && t in s.threads && OthersInherit(s, t) && Wanted(s, t) == s.threads[t].prio <= p
    ensures Lifted(s, s, EndFrom(s, t, seen), p)
  {
    assert Inherits(s, t);
    if EndFrom(s, t, seen).Some? { EndBelow(s, t, seen); }
    forall x | x in s.cond ensures SameRank(s.threads, s.threads, x) { QueuedIn(ByKeyThenPriority, s.threads, s.cond, x); }
  }

  /** One round of such a walk. */
  lemma LiftsOne(s: State, t: Tid, p: int)
    requires Links(s) && t in s.threads && OthersInherit(s, t) && Wanted(s, t) == p < s.threads[t].prio
    ensures var s1 := ChangePriority(s, t, p);
            && Links(s1) && OnlyPrio(s, s1, t, p)
            && (OwnerOf(s, t).None? ==> Lifted(s, s1, Some(t), p))
            && (OwnerOf(s, t).Some? ==>
                  var o := OwnerOf(s, t).value;
                  && Unmoved(s, s1) && o in s1.threads && OthersInherit(s1, o) && Rounds(s1, o) < Rounds(s, t)
                  && Wanted(s1, o) == if p < s1.threads[o].prio then p else s1.threads[o].prio)
  {
    var s1 := ChangePriority(s, t, p);
    ChangePriorityKeepsLinks(s, t, p);
    assert ThreadLinks(s, t);
    if s.threads[t].tree == InCond { MemberMoves(s, t, p); } else { OutsideStays(s, t, p); }
    if OwnerOf(s, t).Some? {
      RoundProgress(s, s1, t, OwnerOf(s, t).value);
      LiftsOwner(s, s1, t, OwnerOf(s, t).value, p);
    }
  }

  lemma LiftsOwner(s: State, s1: State, t: Tid, o: Tid, p: int)
    requires Links(s) && t in s.threads && OthersInherit(s, t) && OwnerOf(s, t) == Some(o) && o in s1.threads
    requires p == Wanted(s, t) < s.threads[t].prio && OnlyPrio(s, s1, t, p)
    ensures Wanted(s1, o) == if p < s1.threads[o].prio then p else s1.threads[o].prio
  {
    if o == t { SelfWaiter(s, s1, t, p); }
    else {
      assert Inherits(s, o) && Alike(s, s1, o);
      OwnerImproves(s, s1, t, o, p, s1.threads[o].prio);
    }
  }

  /** `AddWaiter` moves at most the end of the owner's chain of owners. */
  lemma AddWaiterLifts(s: State, o: Tid, t: Tid)
    requires Sound(s) && o in s.threads && t in s.threads
    requires s.threads[t].lock == None && s.threads[t].tree == NoTree
    ensures Lifted(s, AddWaiter(s, o, t), EndFrom(s, o, {t}), s.threads[t].prio)
  {
    var p := s.threads[t].prio;
    var s1 := AddWaiterImpl(s, o, t);
    AddKeepsLinks(s, o, t);
    LinkInherits(s, s1, o, t);
    LinkKeepsRanks(s, s1);
    if p < s.threads[o].prio {
      LinkWanted(s, s1, o, t);
      SeenSelf(s1, t, p);
      RestoreLifts(s1, o, p, {t});
      LiftsOn(s, s1, AddWaiter(s, o, t), o, {t}, p);
    } else { LinkOnly(s, s1, o, {t}, p); }
  }

  lemma LinkOnly(s: State, s1: State, o: Tid, seen: set<Tid>, p: int)
    requires Queued(ByKeyThenPriority, s.threads, s.cond) && AllInherit(s) && o in s.threads && s.threads[o].prio <= p
    requires s1.cond == s.cond && SameRanks(s.threads, s1.threads, s.cond)
    ensures Lifted(s, s1, EndFrom(s, o, seen), p)
  {
    if EndFrom(s, o, seen).Some? { EndBelow(s, o, seen); }
  }

  lemma LinkKeepsRanks(s: State, s1: State)
    requires Queued(ByKeyThenPriority, s.threads, s.cond) && SameButLinks(s, s1)
    ensures SameRanks(s.threads, s1.threads, s.cond)
  {
    forall x | x in s.cond ensures SameRank(s.threads, s1.threads, x) {
      QueuedIn(ByKeyThenPriority, s.threads, s.cond, x);
      assert SameThread(s, s1, x);
    }
  }

  lemma LinkWanted(s: State, s1: State, o: Tid, t: Tid)
    requires AllInherit(s) && Linked(s, s1, o, t) && o in s.threads && t in s.threads && OwnerOf(s, t) == None
    requires s.threads[t].prio < s.threads[o].prio && o in s1.threads
    ensures Wanted(s1, o) == s.threads[t].prio
  {
    var p := s.threads[t].prio;
    assert Inherits(s, o) && SameThread(s, s1, o) && SameThread(s, s1, t);
    forall w | w in s1.threads && OwnerOf(s1, w) == Some(o) ensures p <= s1.threads[w].prio {
      assert SameThread(s, s1, w);
      assert w != t ==> OwnerOf(s, w) == Some(o);
    }
    assert OwnerOf(s1, t) == Some(o);
    WantedUnique(s1, o, p);
  }

  // ----- What lifting does to positions -----

  /** Members other than `e` keep their order, and `e` lands behind exactly the members that are
      not worse. */
  lemma LiftedPositions(s: State, e: Tid, p: int, y: Tid, z: Tid)
    requires Queued(ByKeyThenPriority, s.threads, s.cond) && Moves(s, Some(e), p) && y != e
    ensures var q := LiftedTree(s, Some(e), p);
            && (z != e ==> (Before(q, y, z) <==> Before(s.cond, y, z)))
            && (y in s.cond ==> y in s.threads && (Before(q, y, e) <==> Le(ByKeyThenPriority, s.threads[y], SetPrio(s.threads[e], p))))
  {
    RequeueFrame(s, e, p, s.cond);
    var th := LiftedThreads(s, Some(e), p);
    var r := Remove(s.cond, e);
    RemoveProperties(ByKeyThenPriority, s.threads, s.cond, e);
    if z != e {
      BeforeInsert(ByKeyThenPriority, th, r, e, y, z);
      BeforeRemove(s.cond, e, y, z);
    }
    if y in s.cond { InsertedBehind(ByKeyThenPriority, th, r, e, y); }
  }
}
