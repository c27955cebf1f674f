/** `AddWaiter`, `RemoveWaiter` and `RemoveWaiterByKey` of `KThread`: they keep the links and
    leave every thread at its inherited priority, although each restores priorities only in
    the case its guard names. */
module WaiterLists {
  import opened Basics
  import opened WaitTrees
  import opened KernelState
  import opened PriorityInheritance

  /** All links are right and all priorities are inherited. */
  ghost predicate Sound(s: State) {
    Links(s) && AllInherit(s)
  }

  // ----- AddWaiter -----

  ghost function AddWaiter(s: State, o: Tid, t: Tid): State
    requires Sound(s) && o in s.threads && t in s.threads
    requires s.threads[t].lock == None && s.threads[t].tree == NoTree
  {
    var s1 := AddWaiterImpl(s, o, t);
    AddKeepsLinks(s, o, t);
    LinkInherits(s, s1, o, t);
    if s1.threads[t].prio < s1.threads[o].prio then Restore(s1, o) else s1
  }

  lemma LinkInherits(s: State, s1: State, o: Tid, t: Tid)
    requires AllInherit(s) && Linked(s, s1, o, t) && o in s.threads && t in s.threads && OwnerOf(s, t) == None
    ensures OthersInherit(s1, o)
    ensures s.threads[o].prio <= s.threads[t].prio ==> AllInherit(s1)
    ensures s1.threads[t].prio == s.threads[t].prio && s1.threads[o].prio == s.threads[o].prio
  {
    assert SameThread(s, s1, t) && SameThread(s, s1, o);
    forall x | x != o || s.threads[o].prio <= s.threads[t].prio ensures Inherits(s1, x) {
      LinkInheritsOne(s, s1, o, t, x);
    }
  }

  lemma LinkInheritsOne(s: State, s1: State, o: Tid, t: Tid, x: Tid)
    requires Inherits(s, x) && SameButLinks(s, s1) && o in s.threads && t in s.threads && OwnerOf(s, t) == None
    requires forall w {:trigger OwnerOf(s1, w)} :: OwnerOf(s1, w) == if w == t then Some(o) else OwnerOf(s, w)
    requires x != o || s.threads[o].prio <= s.threads[t].prio
    ensures Inherits(s1, x)
  {
    if x in s1.threads {
      assert SameThread(s, s1, x);
      var r := s1.threads[x].prio;
      forall w | w in s1.threads && OwnerOf(s1, w) == Some(x) ensures r <= s1.threads[w].prio {
        assert SameThread(s, s1, w);
      }
      if r != s.threads[x].base {
        var w :| w in s.threads && OwnerOf(s, w) == Some(x) && s.threads[w].prio == r;
        assert SameThread(s, s1, w) && OwnerOf(s1, w) == Some(x);
      }
    }
  }

  /** What a waiter-list operation may change: who waits for whom, and through that priorities. */
  ghost predicate Relinked(s: State, s': State) {
    && s'.threads.Keys == s.threads.Keys
    && (forall t {:trigger Alike(s, s', t)} :: t in s.threads ==> Alike(s, s', t))
    && s'.mem == s.mem && s'.handles == s.handles
  }

  lemma RelinkedThenRestored(s: State, s1: State, s2: State)
    requires SameButLinks(s, s1) && SameView(s1, s2)
    ensures Relinked(s, s2)
  {
    forall t | t in s.threads ensures Alike(s, s2, t) { assert SameThread(s, s1, t) && Alike(s1, s2, t); }
  }

  lemma AddWaiterCorrect(s: State, o: Tid, t: Tid)
    requires Sound(s) && o in s.threads && t in s.threads
    requires s.threads[t].lock == None && s.threads[t].tree == NoTree
    ensures var s' := AddWaiter(s, o, t);
            && Sound(s') && Relinked(s, s')
            && (forall w {:trigger OwnerOf(s', w)} :: OwnerOf(s', w) == if w == t then Some(o) else OwnerOf(s, w))
            && (UniqueKeys(s) ==> UniqueKeys(s'))
  {
    var s1 := AddWaiterImpl(s, o, t);
    AddKeepsLinks(s, o, t);
    LinkInherits(s, s1, o, t);
    var s2 := AddWaiter(s, o, t);
    if s1.threads[t].prio < s1.threads[o].prio { RestoreRepairs(s1, o); } else { SameViewRefl(s1); }
    RelinkedThenRestored(s, s1, s2);
    forall w ensures OwnerOf(s2, w) == if w == t then Some(o) else OwnerOf(s, w) {
      assert OwnerOf(s2, w) == OwnerOf(s1, w);
    }
  }

  lemma SameViewRefl(s: State)
    ensures SameView(s, s)
  {
  }

  // ----- RemoveWaiter -----

  ghost function RemoveWaiter(s: State, o: Tid, t: Tid): State
    requires Sound(s) && t in s.threads && OwnerOf(s, t) == Some(o)
  {
    var s1 := RemoveWaiterImpl(s, t);
    RemoveKeepsLinks(s, t);
    UnlinkInherits(s, s1, o, t);
    if s1.threads[o].prio == s1.threads[t].prio && s1.threads[o].prio < s1.threads[o].base then Restore(s1, o) else s1
  }

  lemma UnlinkInherits(s: State, s1: State, o: Tid, t: Tid)
    requires Sound(s) && Unlinked(s, s1, t) && t in s.threads && OwnerOf(s, t) == Some(o)
    ensures o in s.threads && o in s1.threads && OthersInherit(s1, o)
    ensures !(s1.threads[o].prio == s1.threads[t].prio && s1.threads[o].prio < s1.threads[o].base) ==> AllInherit(s1)
  {
    assert ThreadLinks(s, t);
    assert LockLinks(s, s.threads[t].lock.value);
    assert SameThread(s, s1, t) && SameThread(s, s1, o) && Inherits(s, o);
    forall x | x != o || !(s1.threads[o].prio == s1.threads[t].prio && s1.threads[o].prio < s1.threads[o].base)
      ensures Inherits(s1, x)
    {
      assert Inherits(s, x);
      UnlinkInheritsOne(s, s1, o, t, x);
    }
  }

  lemma UnlinkInheritsOne(s: State, s1: State, o: Tid, t: Tid, x: Tid)
    requires Inherits(s, x) && SameButLinks(s, s1) && o in s.threads && t in s.threads && OwnerOf(s, t) == Some(o)
    requires forall w {:trigger OwnerOf(s1, w)} :: OwnerOf(s1, w) == if w == t then None else OwnerOf(s, w)
    requires x != o || s.threads[o].prio != s.threads[t].prio || s.threads[o].prio >= s.threads[o].base
    ensures Inherits(s1, x)
  {
    if x in s1.threads {
      assert SameThread(s, s1, x);
      var r := s1.threads[x].prio;
      forall w | w in s1.threads && OwnerOf(s1, w) == Some(x) ensures r <= s1.threads[w].prio {
        assert SameThread(s, s1, w);
      }
      if r != s.threads[x].base {
        var w :| w in s.threads && OwnerOf(s, w) == Some(x) && s.threads[w].prio == r;
        assert SameThread(s, s1, w) && OwnerOf(s1, w) == Some(x);
      }
    }
  }

  lemma RemoveWaiterCorrect(s: State, o: Tid, t: Tid)
    requires Sound(s) && t in s.threads && OwnerOf(s, t) == Some(o)
    ensures var s' := RemoveWaiter(s, o, t);
            && Sound(s') && Relinked(s, s')
            && (forall w {:trigger OwnerOf(s', w)} :: OwnerOf(s', w) == if w == t then None else OwnerOf(s, w))
            && (UniqueKeys(s) ==> UniqueKeys(s'))
  {
    var s1 := RemoveWaiterImpl(s, t);
    RemoveKeepsLinks(s, t);
    UnlinkInherits(s, s1, o, t);
    var s2 := RemoveWaiter(s, o, t);
    if s1.threads[o].prio == s1.threads[t].prio && s1.threads[o].prio < s1.threads[o].base { RestoreRepairs(s1, o); } else { SameViewRefl(s1); }
    RelinkedThenRestored(s, s1, s2);
    forall w ensures OwnerOf(s2, w) == if w == t then None else OwnerOf(s, w) {
      assert OwnerOf(s2, w) == OwnerOf(s1, w);
    }
  }

  // ----- RemoveWaiterByKey -----

  /** The lock of `o` with this key, if any. */
  function LockFor(s: State, o: Tid, key: Addr): (r: Option<Lid>)
    requires Links(s) && o in s.threads
    ensures r.Some? ==> r.value in s.locks && s.locks[r.value].key == key && s.locks[r.value].owner == o
    ensures r.None? ==> forall w :: w in s.threads && OwnerOf(s, w) == Some(o) ==> s.threads[w].key != key
  {
    assert ThreadLinks(s, o);
    var r := FindHeld(s.locks, s.threads[o].held, key);
    assert r.None? ==> forall w :: w in s.threads && OwnerOf(s, w) == Some(o) ==> s.threads[w].key != key by {
      if r.None? {
        forall w | w in s.threads && OwnerOf(s, w) == Some(o) ensures s.threads[w].key != key {
          assert ThreadLinks(s, w);
          assert LockLinks(s, s.threads[w].lock.value) && WaitsIn(s, w, s.threads[w].lock.value);
        }
      }
    }
    r
  }

  /** Hand the lock `l` and all its other waiters to its first waiter. */
  function HandOver(s: State, l: Lid): State
    requires l in s.locks && s.locks[l].waiters != [] && s.locks[l].waiters[0] in s.threads
    requires s.locks[l].owner in s.threads && l in s.threads[s.locks[l].owner].held
  {
    var k := s.locks[l];
    var next := k.waiters[0];
    var s1 := PutThread(s, k.owner, SetHeld(s.threads[k.owner], Remove(s.threads[k.owner].held, l)));
    var s2 := PutThread(s1, next, SetLock(s1.threads[next], None));
    if |k.waiters| == 1 then s2.(locks := s.locks - {l})
    else
      PutThread(PutLock(s2, l, Lock(k.key, next, k.waiters[1..])), next, SetHeld(s2.threads[next], [l] + s2.threads[next].held))
  }

  /** `RemoveWaiterByKey` returns the next owner and whether waiters remain. */
  datatype Handed = Handed(s: State, next: Option<Tid>, more: bool)

  ghost function RemoveWaiterByKey(s: State, o: Tid, key: Addr): Handed
    requires Sound(s) && o in s.threads && s.threads[o].lock == None
  {
    match LockFor(s, o, key)
    case None => Handed(s, None, false)
    case Some(l) =>
      assert LockLinks(s, l) && WaitsIn(s, s.locks[l].waiters[0], l);
      Handed(HandOverAndRestore(s, l), Some(s.locks[l].waiters[0]), |s.locks[l].waiters| > 1)
  }

  /** Who waits for whom after the hand-over of `l` to `next`. */
  ghost predicate HandedOwners(s: State, s1: State, l: Lid, next: Tid) {
    forall w {:trigger OwnerOf(s1, w)} ::
      OwnerOf(s1, w) == if w == next then None
                        else if w in s.threads && s.threads[w].lock == Some(l) then Some(next)
                        else OwnerOf(s, w)
  }

  lemma {:induction false} HeadBest(th: Threads, q: seq<Tid>, x: Tid)
    requires Queued(ByPriority, th, q) && x in q
    ensures x in th && q[0] in th && th[q[0]].prio <= th[x].prio
  {
    if q[0] != x { HeadBest(th, q[1..], x); }
  }

  /** `l` is a lock that its owner, who waits for nothing, can hand over. */
  ghost predicate Handable(s: State, l: Lid) {
    && l in s.locks && s.locks[l].waiters != [] && s.locks[l].waiters[0] in s.threads
    && s.locks[l].owner in s.threads && l in s.threads[s.locks[l].owner].held
    && s.threads[s.locks[l].owner].lock == None
  }

  lemma HandableLock(s: State, l: Lid)
    requires Links(s) && l in s.locks && s.locks[l].owner in s.threads && s.threads[s.locks[l].owner].lock == None
    ensures Handable(s, l) && LockLinks(s, l) && WaitsIn(s, s.locks[l].waiters[0], l)
  {
    assert LockLinks(s, l) && WaitsIn(s, s.locks[l].waiters[0], l);
  }

  lemma HandOverCorrect(s: State, l: Lid)
    requires Sound(s) && Handable(s, l)
    ensures var k := s.locks[l];
            var s1 := HandOver(s, l);
            && k.waiters[0] != k.owner
            && Links(s1) && SameButLinks(s, s1) && HandedOwners(s, s1, l, k.waiters[0])
            && OthersInherit(s1, k.owner)
            && (!(s1.threads[k.owner].prio == s1.threads[k.waiters[0]].prio && s1.threads[k.owner].prio < s1.threads[k.owner].base)
                ==> AllInherit(s1))
  {
    HandableLock(s, l);
    HandOverLinks(s, l);
    HandOverInherits(s, l);
  }

  lemma HandOverLinks(s: State, l: Lid)
    requires Links(s) && Handable(s, l)
    ensures var s1 := HandOver(s, l);
            && Links(s1) && SameButLinks(s, s1) && HandedOwners(s, s1, l, s.locks[l].waiters[0])
  {
    var s1 := HandOver(s, l);
    HandOverFrame(s, l);
    FrameTrees(s, s1);
    HandOverLocks(s, l);
    HandOverThreads(s, l);
    HandOverOwners(s, l);
  }

  lemma HandOverFrame(s: State, l: Lid)
    requires Handable(s, l)
    ensures SameButLinks(s, HandOver(s, l))
  {
  }

  lemma HandOverLocks(s: State, l: Lid)
    requires Links(s) && Handable(s, l)
    requires SameButLinks(s, HandOver(s, l))
    ensures var s1 := HandOver(s, l); forall m {:trigger LockLinks(s1, m)} :: m in s1.locks ==> LockLinks(s1, m)
  {
    assert LockLinks(s, l) && WaitsIn(s, s.locks[l].waiters[0], l);
    var s1 := HandOver(s, l);
    var ws := s.locks[l].waiters;
    assert ThreadLinks(s, s.locks[l].owner);
    RemoveMembers(s.threads[s.locks[l].owner].held, l);
    if l in s1.locks {
      FrameQueue(s, s1, ByPriority, ws);
      forall w | w in ws[1..] ensures WaitsIn(s1, w, l) { assert WaitsIn(s, w, l); }
      assert LockLinks(s1, l);
    }
    forall m | m in s1.locks && m != l ensures LockLinks(s1, m) {
      assert LockLinks(s, m);
      forall w | w in s.locks[m].waiters ensures w in s1.threads && s1.threads[w].lock == Some(m) {
        assert WaitsIn(s, w, m);
      }
      FrameLock(s, s1, m);
    }
  }

  lemma HandOverThreads(s: State, l: Lid)
    requires Links(s) && Handable(s, l)
    ensures var s1 := HandOver(s, l); forall x {:trigger ThreadLinks(s1, x)} :: x in s1.threads ==> ThreadLinks(s1, x)
  {
    assert LockLinks(s, l) && WaitsIn(s, s.locks[l].waiters[0], l);
    assert ThreadLinks(s, s.locks[l].owner);
    forall x | x in HandOver(s, l).threads ensures ThreadLinks(HandOver(s, l), x) {
      assert ThreadLinks(s, x);
      HandOverThread(s, HandOver(s, l), l, x);
    }
  }

  lemma HandOverThread(s: State, s1: State, l: Lid, x: Tid)
    requires Handable(s, l) && LockLinks(s, l) && WaitsIn(s, s.locks[l].waiters[0], l) && ThreadLinks(s, s.locks[l].owner)
    requires s1 == HandOver(s, l) && x in s.threads && ThreadLinks(s, x)
    ensures x in s1.threads && ThreadLinks(s1, x)
  {
    var k := s.locks[l];
    var next := k.waiters[0];
    assert k.waiters == [next] + k.waiters[1..];
    if x == k.owner {
      RemoveMembers(s.threads[x].held, l);
      assert s1.threads[x] == SetHeld(s.threads[x], Remove(s.threads[x].held, l));
    } else if x == next {
      assert s1.threads[x].lock == None;
      assert ([l] + s.threads[next].held)[1..] == s.threads[next].held;
    } else {
      assert s1.threads[x] == s.threads[x];
    }
  }

  lemma HandOverOwners(s: State, l: Lid)
    requires Links(s) && Handable(s, l)
    ensures HandedOwners(s, HandOver(s, l), l, s.locks[l].waiters[0])
  {
    assert LockLinks(s, l) && WaitsIn(s, s.locks[l].waiters[0], l);
    var ws := s.locks[l].waiters;
    var s1 := HandOver(s, l);
    forall w ensures OwnerOf(s1, w) == if w == ws[0] then None
                        else if w in s.threads && s.threads[w].lock == Some(l) then Some(ws[0])
                        else OwnerOf(s, w)
    {
      if w in s.threads { assert ThreadLinks(s, w); assert ws == [ws[0]] + ws[1..]; }
    }
  }

  lemma HandOverInherits(s: State, l: Lid)
    requires Sound(s) && Handable(s, l) && s.locks[l].waiters[0] != s.locks[l].owner
    requires SameButLinks(s, HandOver(s, l)) && HandedOwners(s, HandOver(s, l), l, s.locks[l].waiters[0])
    ensures var k := s.locks[l];
            var s1 := HandOver(s, l);
            && OthersInherit(s1, k.owner)
            && (!(s1.threads[k.owner].prio == s1.threads[k.waiters[0]].prio && s1.threads[k.owner].prio < s1.threads[k.owner].base)
                ==> AllInherit(s1))
  {
    var s1 := HandOver(s, l);
    var o, next := s.locks[l].owner, s.locks[l].waiters[0];
    assert SameThread(s, s1, o) && SameThread(s, s1, next);
    forall x | x != o || s.threads[o].prio != s.threads[next].prio || s.threads[o].prio >= s.threads[o].base
      ensures Inherits(s1, x)
    {
      assert Inherits(s, x);
      assert LockLinks(s, l) && WaitsIn(s, next, l);
      forall w | w in s.threads && s.threads[w].lock == Some(l)
        ensures OwnerOf(s, w) == Some(o) && s.threads[next].prio <= s.threads[w].prio
      {
        assert ThreadLinks(s, w);
        HeadBest(s.threads, s.locks[l].waiters, w);
      }
      HandOverInheritsOne(s, s1, l, o, next, x);
    }
  }

  lemma HandOverInheritsOne(s: State, s1: State, l: Lid, o: Tid, next: Tid, x: Tid)
    requires Inherits(s, x) && SameButLinks(s, s1) && HandedOwners(s, s1, l, next)
    requires o in s.threads && next in s.threads && o != next && OwnerOf(s, next) == Some(o)
    requires forall w :: w in s.threads && s.threads[w].lock == Some(l) ==> OwnerOf(s, w) == Some(o) && s.threads[next].prio <= s.threads[w].prio
    requires x != o || s.threads[o].prio != s.threads[next].prio || s.threads[o].prio >= s.threads[o].base
    ensures Inherits(s1, x)
  {
    if x in s1.threads {
      assert SameThread(s, s1, x);
      var r := s1.threads[x].prio;
      forall w | w in s1.threads && OwnerOf(s1, w) == Some(x) ensures r <= s1.threads[w].prio {
        assert SameThread(s, s1, w);
      }
      if r != s.threads[x].base {
        var w :| w in s.threads && OwnerOf(s, w) == Some(x) && s.threads[w].prio == r;
        assert SameThread(s, s1, w) && OwnerOf(s1, w) == Some(x);
      }
    }
  }

  lemma HandOverUnique(s: State, l: Lid)
    requires Links(s) && Handable(s, l) && UniqueKeys(s)
    requires forall m :: m in s.locks && s.locks[m].owner == s.locks[l].waiters[0] ==> s.locks[m].key != s.locks[l].key
    ensures UniqueKeys(HandOver(s, l))
  {
    var s1 := HandOver(s, l);
    forall a, b | SameSlot(s1, a, b) ensures a == b {
      if a != l && b != l { assert SameSlot(s, a, b); }
    }
  }

  /** `RemoveWaiterByKey` wakes the best waiter of the lock it finds, and the others wait for it
      from then on; without such a lock it changes nothing. */
  lemma RemoveWaiterByKeyCorrect(s: State, o: Tid, key: Addr)
    requires Sound(s) && o in s.threads && s.threads[o].lock == None
    ensures var h := RemoveWaiterByKey(s, o, key);
            && Sound(h.s) && Relinked(s, h.s)
            && (h.next.None? ==> h.s == s && !h.more)
            && (h.next.None? ==> forall w :: w in s.threads && OwnerOf(s, w) == Some(o) ==> s.threads[w].key != key)
            && (h.next.Some? ==> Promoted(s, h, o, key))
  {
    var f := LockFor(s, o, key);
    if f.Some? {
      HandableLock(s, f.value);
      var h := RemoveWaiterByKey(s, o, key);
      ByKeyFound(s, h, o, key, f.value);
    } else {
      forall t | t in s.threads ensures Alike(s, s, t) {}
    }
  }

  /** The state after the hand-over of `l` and the restoration its guard asks for. */
  ghost function HandOverAndRestore(s: State, l: Lid): State
    requires Sound(s) && Handable(s, l)
  {
    var o, next := s.locks[l].owner, s.locks[l].waiters[0];
    var s1 := HandOver(s, l);
    HandOverCorrect(s, l);
    if s1.threads[o].prio == s1.threads[next].prio && s1.threads[o].prio < s1.threads[o].base then Restore(s1, o) else s1
  }

  lemma ByKeyFound(s: State, h: Handed, o: Tid, key: Addr, l: Lid)
    requires Sound(s) && Handable(s, l) && LockLinks(s, l) && WaitsIn(s, s.locks[l].waiters[0], l)
    requires s.locks[l].owner == o && s.locks[l].key == key
    requires h == Handed(HandOverAndRestore(s, l), Some(s.locks[l].waiters[0]), |s.locks[l].waiters| > 1)
    ensures Sound(h.s) && Relinked(s, h.s) && Promoted(s, h, o, key)
  {
    HandOverCorrect(s, l);
    var s1 := HandOver(s, l);
    if h.s == s1 && AllInherit(s1) { SameViewRefl(s1); } else { RestoreRepairs(s1, o); }
    RelinkedThenRestored(s, s1, h.s);
    PromotedBy(s, s1, h, o, key, l);
  }

  /** `w` waits for `o` on `l`'s behalf. */
  ghost predicate Queues(s: State, w: Tid, l: Lid) {
    w in s.threads && s.threads[w].lock == Some(l)
  }

  /** The next owner was the best waiter of a lock of `o` with this key; the other waiters of that
      lock now wait for it, and `more` says whether there are any. */
  ghost predicate Promoted(s: State, h: Handed, o: Tid, key: Addr)
    requires h.next.Some?
  {
    var n := h.next.value;
    && n in s.threads && n != o && OwnerOf(s, n) == Some(o) && s.threads[n].key == key && s.threads[n].lock.Some?
    && var l := s.threads[n].lock.value;
    && (forall w {:trigger Queues(s, w, l)} :: Queues(s, w, l) ==> BehindIn(s, w, n, o, key))
    && (forall w {:trigger OwnerOf(h.s, w)} ::
          OwnerOf(h.s, w) == if w == n then None else if Queues(s, w, l) then Some(n) else OwnerOf(s, w))
    && (h.more <==> exists w {:trigger Queues(s, w, l)} :: w != n && Queues(s, w, l))
    && (UniqueKeys(s) && LacksKey(s, n, key) ==> UniqueKeys(h.s))
  }

  ghost predicate BehindIn(s: State, w: Tid, n: Tid, o: Tid, key: Addr) {
    && w in s.threads && n in s.threads && s.threads[n].prio <= s.threads[w].prio
    && OwnerOf(s, w) == Some(o) && s.threads[w].key == key
  }

  /** `n` owns no lock with this key. */
  ghost predicate LacksKey(s: State, n: Tid, key: Addr) {
    forall m :: m in s.locks && s.locks[m].owner == n ==> s.locks[m].key != key
  }

  lemma PromotedBy(s: State, s1: State, h: Handed, o: Tid, key: Addr, l: Lid)
    requires Links(s) && Handable(s, l) && LockLinks(s, l) && WaitsIn(s, s.locks[l].waiters[0], l)
    requires s.locks[l].owner == o && s.locks[l].key == key && s.locks[l].waiters[0] != o
    requires s1 == HandOver(s, l) && HandedOwners(s, s1, l, s.locks[l].waiters[0]) && SameView(s1, h.s)
    requires h.next == Some(s.locks[l].waiters[0]) && h.more == (|s.locks[l].waiters| > 1)
    ensures Promoted(s, h, o, key)
  {
    var n := s.locks[l].waiters[0];
    WaitersOf(s, l);
    forall w ensures OwnerOf(h.s, w) == if w == n then None else if Queues(s, w, l) then Some(n) else OwnerOf(s, w) {
      assert OwnerOf(h.s, w) == OwnerOf(s1, w);
    }
    if UniqueKeys(s) && LacksKey(s, n, key) { HandOverUnique(s, l); }
  }

  lemma WaitersOf(s: State, l: Lid)
    requires Links(s) && Handable(s, l) && LockLinks(s, l)
    ensures var k := s.locks[l];
            && (forall w {:trigger Queues(s, w, l)} :: Queues(s, w, l) ==> BehindIn(s, w, k.waiters[0], k.owner, k.key))
            && (|k.waiters| > 1 <==> exists w {:trigger Queues(s, w, l)} :: w != k.waiters[0] && Queues(s, w, l))
  {
    var ws := s.locks[l].waiters;
    forall w | Queues(s, w, l) ensures BehindIn(s, w, ws[0], s.locks[l].owner, s.locks[l].key) && w in ws {
      assert ThreadLinks(s, w) && WaitsIn(s, w, l);
      HeadBest(s.threads, ws, w);
    }
    if |ws| > 1 { assert WaitsIn(s, ws[1], l) && Queues(s, ws[1], l); }
  }
}
