/** Priority inheritance: a thread runs at the best of its base priority and the priorities of
    the threads that wait for its locks.  `RestorePriority` repairs that after one change, by
    walking from owner to owner; here it is shown to terminate and to repair every thread, on
    any wait graph, cycles included. */
module PriorityInheritance {
  import opened Basics
  import opened WaitTrees
  import opened KernelState

  /** `p` is the best of `t`'s base priority and its waiters' priorities. */
  ghost predicate IsWanted(s: State, t: Tid, p: int)
    requires t in s.threads
  {
    && p <= s.threads[t].base
    && (forall w :: w in s.threads && OwnerOf(s, w) == Some(t) ==> p <= s.threads[w].prio)
    && (p == s.threads[t].base || exists w :: w in s.threads && OwnerOf(s, w) == Some(t) && s.threads[w].prio == p)
  }

  ghost predicate Inherits(s: State, t: Tid) {
    t in s.threads ==> IsWanted(s, t, s.threads[t].prio)
  }

  /** Every thread runs at its inherited priority. */
  ghost predicate AllInherit(s: State) {
    forall t {:trigger Inherits(s, t)} :: Inherits(s, t)
  }

  /** Every thread but perhaps `t` does. */
  ghost predicate OthersInherit(s: State, t: Tid) {
    forall x {:trigger Inherits(s, x)} :: x != t ==> Inherits(s, x)
  }

  /** The best priority among a set of threads and a base. */
  ghost function Best(th: Threads, base: int, ws: set<Tid>): (p: int)
    requires forall w :: w in ws ==> w in th
    ensures p <= base && (forall w :: w in ws ==> p <= th[w].prio)
    ensures p == base || exists w :: w in ws && th[w].prio == p
  {
    if ws == {} then base else
    var w :| w in ws;
    var p := Best(th, base, ws - {w});
    if th[w].prio < p then th[w].prio else p
  }

  /** The priority `RestorePriority` computes for `t`. */
  ghost function Wanted(s: State, t: Tid): (p: int)
    requires t in s.threads
    ensures IsWanted(s, t, p)
  {
    Best(s.threads, s.threads[t].base, set w | w in s.threads && OwnerOf(s, w) == Some(t))
  }

  lemma WantedUnique(s: State, t: Tid, p: int)
    requires t in s.threads && IsWanted(s, t, p)
    ensures p == Wanted(s, t)
  {
  }

  // ----- Changing one priority -----

  function SetPrio(x: Thread, p: int): Thread { x.(prio := p) }

  /** Give `t` the priority `p`, re-inserting it into the condition-variable or arbiter tree. */
  function Reprioritise(s: State, t: Tid, p: int): State
    requires Links(s) && t in s.threads && s.threads[t].lock == None
  {
    assert ThreadLinks(s, t);
    var th := s.threads[t := SetPrio(s.threads[t], p)];
    var s1 := PutThread(s, t, SetPrio(s.threads[t], p));
    if s.threads[t].tree == InCond then
      RequeueFrame(s, t, p, s.cond);
      s1.(cond := Insert(ByKeyThenPriority, th, Remove(s.cond, t), t))
    else if s.threads[t].tree == InArb then
      RequeueFrame(s, t, p, s.arb);
      s1.(arb := Insert(ByKeyThenPriority, th, Remove(s.arb, t), t))
    else s1
  }

  lemma RequeueFrame(s: State, t: Tid, p: int, q: seq<Tid>)
    requires t in s.threads && t in q && Queued(ByKeyThenPriority, s.threads, q)
    ensures var th := s.threads[t := SetPrio(s.threads[t], p)];
            var r := Remove(q, t);
            && Queued(ByKeyThenPriority, th, r)
            && Queued(ByKeyThenPriority, th, Insert(ByKeyThenPriority, th, r, t))
            && (forall x :: x in Insert(ByKeyThenPriority, th, r, t) <==> x in q)
  {
    var th := s.threads[t := SetPrio(s.threads[t], p)];
    var r := Remove(q, t);
    RemoveProperties(ByKeyThenPriority, s.threads, q, t);
    forall x | x in r ensures SameRank(s.threads, th, x) { QueuedIn(ByKeyThenPriority, s.threads, r, x); }
    QueuedFrame(ByKeyThenPriority, s.threads, th, r);
    InsertProperties(ByKeyThenPriority, th, r, t);
  }

  /** One round of `RestorePriority`: take `t` out of its queue, change its priority, put it back. */
  function ChangePriority(s: State, t: Tid, p: int): State
    requires Links(s) && t in s.threads
  {
    if s.threads[t].lock.None? then Reprioritise(s, t, p)
    else
      assert ThreadLinks(s, t);
      assert LockLinks(s, s.threads[t].lock.value);
      var o := OwnerOf(s, t).value;
      RemoveKeepsLinks(s, t);
      var s1 := RemoveWaiterImpl(s, t);
      ReprioritiseKeepsLinks(s1, t, p);
      AddWaiterImpl(Reprioritise(s1, t, p), o, t)
  }

  /** Two states that differ in priorities, queue positions and lock identities only. */
  ghost predicate SameView(s: State, s': State) {
    && s'.threads.Keys == s.threads.Keys
    && (forall t {:trigger Alike(s, s', t)} :: t in s.threads ==> Alike(s, s', t))
    && (forall t {:trigger OwnerOf(s', t)} :: OwnerOf(s', t) == OwnerOf(s, t))
    && s'.mem == s.mem && s'.handles == s.handles
    && (UniqueKeys(s) ==> UniqueKeys(s'))
  }

  ghost predicate Alike(s: State, s': State, t: Tid) {
    && t in s.threads && t in s'.threads
    && var x := s'.threads[t];
       s.threads[t] == SetPrio(SetLock(SetHeld(x, s.threads[t].held), s.threads[t].lock), s.threads[t].prio)
  }

  /** Only `t`'s priority changes, and becomes `p`. */
  ghost predicate OnlyPrio(s: State, s': State, t: Tid, p: int) {
    && SameView(s, s')
    && t in s'.threads && s'.threads[t].prio == p
    && (forall x :: x in s.threads && x in s'.threads && x != t ==> s'.threads[x].prio == s.threads[x].prio)
  }

  lemma ReprioritiseKeepsLinks(s: State, t: Tid, p: int)
    requires Links(s) && t in s.threads && s.threads[t].lock == None
    ensures Links(Reprioritise(s, t, p)) && OnlyPrio(s, Reprioritise(s, t, p), t, p)
    ensures Reprioritise(s, t, p).threads == s.threads[t := SetPrio(s.threads[t], p)]
  {
    assert ThreadLinks(s, t);
    var s' := Reprioritise(s, t, p);
    assert s'.threads == s.threads[t := SetPrio(s.threads[t], p)] && s'.locks == s.locks && s'.nextLock == s.nextLock;
    ReprioritiseTrees(s, s', t, p);
    ReprioritiseLocks(s, s', t, p);
    ReprioritiseThreads(s, s', t, p);
    ReprioritiseView(s, s', t, p);
  }

  lemma ReprioritiseView(s: State, s': State, t: Tid, p: int)
    requires t in s.threads && s'.threads == s.threads[t := SetPrio(s.threads[t], p)] && s'.locks == s.locks
    requires s'.mem == s.mem && s'.handles == s.handles
    ensures OnlyPrio(s, s', t, p)
  {
    assert forall a, b {:trigger SameSlot(s', a, b)} :: SameSlot(s', a, b) ==> SameSlot(s, a, b);
  }

  lemma ReprioritiseThreads(s: State, s': State, t: Tid, p: int)
    requires Links(s) && t in s.threads
    requires s'.threads == s.threads[t := SetPrio(s.threads[t], p)] && s'.locks == s.locks
    requires (forall x :: x in s'.cond <==> x in s.cond) && (forall x :: x in s'.arb <==> x in s.arb)
    ensures forall x {:trigger ThreadLinks(s', x)} :: x in s'.threads ==> ThreadLinks(s', x)
  {
    forall x | x in s'.threads ensures ThreadLinks(s', x) {
      assert ThreadLinks(s, x);
    }
  }

  lemma ReprioritiseTrees(s: State, s': State, t: Tid, p: int)
    requires Links(s) && t in s.threads && s.threads[t].lock == None && s' == Reprioritise(s, t, p)
    ensures Queued(ByKeyThenPriority, s'.threads, s'.cond) && Queued(ByKeyThenPriority, s'.threads, s'.arb)
    ensures (forall x :: x in s'.cond <==> x in s.cond) && (forall x :: x in s'.arb <==> x in s.arb)
  {
    assert ThreadLinks(s, t);
    ReprioritiseTree(s, t, p, s.cond);
    ReprioritiseTree(s, t, p, s.arb);
  }

  lemma ReprioritiseTree(s: State, t: Tid, p: int, q: seq<Tid>)
    requires t in s.threads && Queued(ByKeyThenPriority, s.threads, q)
    ensures var th := s.threads[t := SetPrio(s.threads[t], p)];
            if t in q then
              && Queued(ByKeyThenPriority, th, Remove(q, t))
              && Queued(ByKeyThenPriority, th, Insert(ByKeyThenPriority, th, Remove(q, t), t))
              && (forall x :: x in Insert(ByKeyThenPriority, th, Remove(q, t), t) <==> x in q)
            else Queued(ByKeyThenPriority, th, q)
  {
    if t in q { RequeueFrame(s, t, p, q); }
    else {
      var th := s.threads[t := SetPrio(s.threads[t], p)];
      forall x | x in q ensures SameRank(s.threads, th, x) { QueuedIn(ByKeyThenPriority, s.threads, q, x); }
      QueuedFrame(ByKeyThenPriority, s.threads, th, q);
    }
  }

  lemma ReprioritiseLocks(s: State, s': State, t: Tid, p: int)
    requires Links(s) && t in s.threads && s.threads[t].lock == None
    requires s'.threads == s.threads[t := SetPrio(s.threads[t], p)] && s'.locks == s.locks && s'.nextLock == s.nextLock
    ensures forall l {:trigger LockLinks(s', l)} :: l in s'.locks ==> LockLinks(s', l)
  {
    forall l | l in s'.locks ensures LockLinks(s', l) {
      assert LockLinks(s, l);
      forall x | x in s.locks[l].waiters ensures SameRank(s.threads, s'.threads, x) && WaitsIn(s', x, l) {
        assert WaitsIn(s, x, l);
      }
      QueuedFrame(ByPriority, s.threads, s'.threads, s.locks[l].waiters);
    }
  }

  lemma ChangePriorityKeepsLinks(s: State, t: Tid, p: int)
    requires Links(s) && t in s.threads
    ensures Links(ChangePriority(s, t, p)) && OnlyPrio(s, ChangePriority(s, t, p), t, p)
  {
    if s.threads[t].lock.None? {
      ReprioritiseKeepsLinks(s, t, p);
    } else {
      assert ThreadLinks(s, t);
      assert LockLinks(s, s.threads[t].lock.value);
      var o := OwnerOf(s, t).value;
      RemoveKeepsLinks(s, t);
      var s1 := RemoveWaiterImpl(s, t);
      assert SameThread(s, s1, t);
      ReprioritiseKeepsLinks(s1, t, p);
      var s2 := Reprioritise(s1, t, p);
      AddKeepsLinks(s2, o, t);
      ThreeSteps(s, s1, s2, AddWaiterImpl(s2, o, t), t, o, p);
    }
  }

  lemma ThreeSteps(s: State, s1: State, s2: State, s3: State, t: Tid, o: Tid, p: int)
    requires t in s.threads && OwnerOf(s, t) == Some(o)
    requires SameButLinks(s, s1) && OnlyPrio(s1, s2, t, p) && SameButLinks(s2, s3)
    requires forall w {:trigger OwnerOf(s1, w)} :: OwnerOf(s1, w) == if w == t then None else OwnerOf(s, w)
    requires forall w {:trigger OwnerOf(s3, w)} :: OwnerOf(s3, w) == if w == t then Some(o) else OwnerOf(s2, w)
    requires UniqueKeys(s) ==> UniqueKeys(s3)
    ensures OnlyPrio(s, s3, t, p)
  {
    forall x | x in s.threads ensures Alike(s, s3, x) && s3.threads[x].prio == if x == t then p else s.threads[x].prio {
      ThreeStepsThread(s, s1, s2, s3, t, p, x);
    }
    forall x ensures OwnerOf(s3, x) == OwnerOf(s, x) {
      assert OwnerOf(s1, x) == OwnerOf(s2, x);
    }
  }

  lemma ThreeStepsThread(s: State, s1: State, s2: State, s3: State, t: Tid, p: int, x: Tid)
    requires SameButLinks(s, s1) && OnlyPrio(s1, s2, t, p) && SameButLinks(s2, s3) && x in s.threads
    ensures Alike(s, s3, x) && s3.threads[x].prio == if x == t then p else s.threads[x].prio
  {
    assert SameThread(s, s1, x) && Alike(s1, s2, x) && SameThread(s2, s3, x);
  }

  // ----- RestorePriority -----

  ghost function Above(s: State, p: int): set<Tid> { set x | x in s.threads && s.threads[x].prio > p }

  ghost function AtMost(s: State, p: int): set<Tid> { set x | x in s.threads && s.threads[x].prio <= p }

  /** Bounds the rounds `RestorePriority` has left when it looks at `t`: a walk that improves
      priorities to `p` only meets threads worse than `p`, a walk that worsens them only meets
      threads that still have the priority it started from. */
  ghost function Rounds(s: State, t: Tid): nat
    requires t in s.threads
  {
    var p := Wanted(s, t);
    if p == s.threads[t].prio then 0
    else if p < s.threads[t].prio then |Above(s, p)|
    else |AtMost(s, s.threads[t].prio)|
  }

  /** `RestorePriority`: repair `t`, then the owner of the lock `t` waits for, and so on. */
  ghost function Restore(s: State, t: Tid): State
    requires Links(s) && t in s.threads && OthersInherit(s, t)
    decreases Rounds(s, t)
  {
    var p := Wanted(s, t);
    if p == s.threads[t].prio then s
    else
      var s1 := ChangePriority(s, t, p);
      ChangePriorityKeepsLinks(s, t, p);
      match OwnerOf(s, t)
      case None => s1
      case Some(o) => RoundProgress(s, s1, t, o); Restore(s1, o)
  }

  /** After a round only the owner may be out of step, and the walk has come closer to its end. */
  lemma RoundProgress(s: State, s1: State, t: Tid, o: Tid)
    requires t in s.threads && OthersInherit(s, t) && OwnerOf(s, t) == Some(o)
    requires Links(s) && Wanted(s, t) != s.threads[t].prio && OnlyPrio(s, s1, t, Wanted(s, t))
    ensures o in s1.threads && OthersInherit(s1, o) && Rounds(s1, o) < Rounds(s, t)
  {
    assert ThreadLinks(s, t);
    assert LockLinks(s, s.threads[t].lock.value);
    var p := Wanted(s, t);
    forall x | x != o ensures Inherits(s1, x) { RoundOther(s, s1, t, o, p, x); }
    if p < s.threads[t].prio { RoundImproves(s, s1, t, o, p); } else { RoundWorsens(s, s1, t, o, p); }
  }

  lemma RoundOther(s: State, s1: State, t: Tid, o: Tid, p: int, x: Tid)
    requires t in s.threads && OthersInherit(s, t) && OwnerOf(s, t) == Some(o) && x != o
    requires IsWanted(s, t, p) && OnlyPrio(s, s1, t, p)
    ensures Inherits(s1, x)
  {
    if x in s1.threads {
      assert Alike(s, s1, x) && (x != t ==> Inherits(s, x));
      var r := s1.threads[x].prio;
      assert IsWanted(s, x, r);
      forall w | w in s1.threads && OwnerOf(s1, w) == Some(x) ensures r <= s1.threads[w].prio && w != t {
        assert OwnerOf(s, w) == Some(x);
      }
      if r != s.threads[x].base {
        var w :| w in s.threads && OwnerOf(s, w) == Some(x) && s.threads[w].prio == r;
        assert OwnerOf(s1, w) == Some(x);
      }
    }
  }

  lemma RoundImproves(s: State, s1: State, t: Tid, o: Tid, p: int)
    requires t in s.threads && o in s.threads && OthersInherit(s, t) && OwnerOf(s, t) == Some(o)
    requires p == Wanted(s, t) < s.threads[t].prio && OnlyPrio(s, s1, t, p)
    ensures Rounds(s1, o) < Rounds(s, t)
  {
    AboveShrinks(s, s1, t, p);
    assert Alike(s, s1, o);
    var r := s1.threads[o].prio;
    if o == t {
      SelfWaiter(s, s1, t, p);
    } else {
      assert Inherits(s, o);
      OwnerImproves(s, s1, t, o, p, r);
    }
  }

  lemma SelfWaiter(s: State, s1: State, t: Tid, p: int)
    requires t in s.threads && OwnerOf(s, t) == Some(t)
    requires IsWanted(s, t, p) && p < s.threads[t].prio && OnlyPrio(s, s1, t, p)
    ensures Wanted(s1, t) == p
  {
    assert Alike(s, s1, t);
    forall w | w in s1.threads && OwnerOf(s1, w) == Some(t) ensures p <= s1.threads[w].prio {
      assert OwnerOf(s, w) == Some(t);
    }
    if p != s.threads[t].base {
      var w :| w in s.threads && OwnerOf(s, w) == Some(t) && s.threads[w].prio == p;
      assert OwnerOf(s1, w) == Some(t) && s1.threads[w].prio == p;
    }
    WantedUnique(s1, t, p);
  }

  lemma OwnerImproves(s: State, s1: State, t: Tid, o: Tid, p: int, r: int)
    requires t in s.threads && o in s.threads && o != t && OwnerOf(s, t) == Some(o)
    requires p < s.threads[t].prio && OnlyPrio(s, s1, t, p) && r == s1.threads[o].prio && IsWanted(s, o, r)
    ensures Wanted(s1, o) == if p < r then p else r
  {
    assert Alike(s, s1, o) && OwnerOf(s1, t) == Some(o);
    var q := if p < r then p else r;
    forall w | w in s1.threads && OwnerOf(s1, w) == Some(o) ensures q <= s1.threads[w].prio {
      assert OwnerOf(s, w) == Some(o);
    }
    if r <= p && r != s.threads[o].base {
      var w :| w in s.threads && OwnerOf(s, w) == Some(o) && s.threads[w].prio == r;
      assert OwnerOf(s1, w) == Some(o) && s1.threads[w].prio == r;
    }
    WantedUnique(s1, o, q);
  }

  lemma RoundWorsens(s: State, s1: State, t: Tid, o: Tid, p: int)
    requires t in s.threads && o in s.threads && OthersInherit(s, t) && OwnerOf(s, t) == Some(o)
    requires s.threads[t].prio < p == Wanted(s, t) && OnlyPrio(s, s1, t, p)
    ensures Rounds(s1, o) < Rounds(s, t)
  {
    AtMostShrinks(s, s1, t, p);
    assert o != t && Alike(s, s1, o) && Inherits(s, o);
    OwnerWorsens(s, s1, t, o, p, s1.threads[o].prio);
  }

  lemma AboveShrinks(s: State, s1: State, t: Tid, p: int)
    requires t in s.threads && p < s.threads[t].prio && OnlyPrio(s, s1, t, p)
    ensures 0 < |Above(s, p)| && |Above(s1, p)| < |Above(s, p)|
  {
    assert t in Above(s, p);
    assert Above(s1, p) == Above(s, p) - {t};
  }

  lemma AtMostShrinks(s: State, s1: State, t: Tid, p: int)
    requires t in s.threads && s.threads[t].prio < p && OnlyPrio(s, s1, t, p)
    ensures var v := s.threads[t].prio; 0 < |AtMost(s, v)| && |AtMost(s1, v)| < |AtMost(s, v)|
  {
    var v := s.threads[t].prio;
    assert t in AtMost(s, v);
    assert AtMost(s1, v) == AtMost(s, v) - {t};
  }

  lemma OwnerWorsens(s: State, s1: State, t: Tid, o: Tid, p: int, r: int)
    requires t in s.threads && o in s.threads && o != t && OwnerOf(s, t) == Some(o)
    requires s.threads[t].prio < p && OnlyPrio(s, s1, t, p) && r == s1.threads[o].prio && IsWanted(s, o, r)
    ensures Wanted(s1, o) == r || (r == s.threads[t].prio && r < Wanted(s1, o))
  {
    assert Alike(s, s1, o);
    forall w | w in s1.threads && OwnerOf(s1, w) == Some(o) ensures r <= s1.threads[w].prio {
      assert OwnerOf(s, w) == Some(o);
    }
    if r == s.threads[o].base { WantedUnique(s1, o, r); }
    else if w :| w in s.threads && w != t && OwnerOf(s, w) == Some(o) && s.threads[w].prio == r {
      assert OwnerOf(s1, w) == Some(o) && s1.threads[w].prio == r;
      WantedUnique(s1, o, r);
    }
  }

  lemma SameViewTrans(a: State, b: State, c: State)
    requires SameView(a, b) && SameView(b, c)
    ensures SameView(a, c)
  {
    forall t | t in a.threads ensures Alike(a, c, t) { assert Alike(a, b, t) && Alike(b, c, t); }
    forall t ensures OwnerOf(c, t) == OwnerOf(a, t) { assert OwnerOf(b, t) == OwnerOf(a, t); }
  }

  /** `RestorePriority` leaves every thread at its inherited priority and changes nothing else. */
  lemma {:induction false} RestoreRepairs(s: State, t: Tid)
    requires Links(s) && t in s.threads && OthersInherit(s, t)
    ensures Links(Restore(s, t)) && SameView(s, Restore(s, t)) && AllInherit(Restore(s, t))
    decreases Rounds(s, t)
  {
    var p := Wanted(s, t);
    if p != s.threads[t].prio {
      var s1 := ChangePriority(s, t, p);
      ChangePriorityKeepsLinks(s, t, p);
      match OwnerOf(s, t)
      case None =>
        forall x ensures Inherits(s1, x) { NoOwnerRepaired(s, s1, t, p, x); }
      case Some(o) =>
        RoundProgress(s, s1, t, o);
        RestoreRepairs(s1, o);
        SameViewTrans(s, s1, Restore(s1, o));
    } else {
      assert Inherits(s, t);
    }
  }

  lemma NoOwnerRepaired(s: State, s1: State, t: Tid, p: int, x: Tid)
    requires t in s.threads && OthersInherit(s, t) && OwnerOf(s, t) == None
    requires IsWanted(s, t, p) && OnlyPrio(s, s1, t, p)
    ensures Inherits(s1, x)
  {
    if x in s1.threads {
      assert Alike(s, s1, x) && (x != t ==> Inherits(s, x));
      var r := s1.threads[x].prio;
      forall w | w in s1.threads && OwnerOf(s1, w) == Some(x) ensures r <= s1.threads[w].prio {
        assert OwnerOf(s, w) == Some(x);
      }
      if r != s.threads[x].base {
        var w :| w in s.threads && OwnerOf(s, w) == Some(x) && s.threads[w].prio == r;
        assert OwnerOf(s1, w) == Some(x);
      }
    }
  }
}
