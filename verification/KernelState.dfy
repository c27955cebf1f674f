/** The state the wait protocols share: threads, priority-inheriting locks, the two trees,
    the user's memory words and the process handle table; and the `KThread` helpers that
    link a waiter to the owner of a lock. */
module KernelState {
  import opened Basics
  import opened WaitTrees

  /** `LockWithPriorityInheritanceInfo`: the threads waiting for one owner to give up one key. */
  datatype Lock = Lock(key: Addr, owner: Tid, waiters: seq<Tid>)

  /** `mem` holds the accessible user words, `handles` the threads the handle table knows,
      and every lock identity ever allocated is below `nextLock`. */
  datatype State = State(
    threads: Threads,
    locks: map<Lid, Lock>,
    cond: seq<Tid>,
    arb: seq<Tid>,
    mem: map<Addr, Word>,
    handles: map<Word, Tid>,
    nextLock: Lid)

  // ----- Well-linked states -----

  ghost predicate LockLinks(s: State, l: Lid)
    requires l in s.locks
  {
    var k := s.locks[l];
    && l < s.nextLock
    && k.owner in s.threads && l in s.threads[k.owner].held
    && k.waiters != [] && Queued(ByPriority, s.threads, k.waiters)
    && (forall w {:trigger WaitsIn(s, w, l)} :: w in k.waiters ==> WaitsIn(s, w, l))
  }

  ghost predicate WaitsIn(s: State, w: Tid, l: Lid) {
    l in s.locks && w in s.threads && s.threads[w].lock == Some(l) && s.threads[w].key == s.locks[l].key
  }

  ghost predicate ThreadLinks(s: State, t: Tid)
    requires t in s.threads
  {
    var x := s.threads[t];
    && NoDup(x.held)
    && (forall l :: l in x.held ==> l in s.locks && s.locks[l].owner == t)
    && (x.lock.Some? ==> x.tree == NoTree && x.lock.value in s.locks && t in s.locks[x.lock.value].waiters)
    && (x.tree == InCond <==> t in s.cond)
    && (x.tree == InArb <==> t in s.arb)
  }

  /** The intrusive links agree: locks with their waiters and owners, trees with their members,
      and every queue is in order. */
  ghost predicate Links(s: State) {
    && (forall l {:trigger LockLinks(s, l)} :: l in s.locks ==> LockLinks(s, l))
    && (forall t {:trigger ThreadLinks(s, t)} :: t in s.threads ==> ThreadLinks(s, t))
    && Queued(ByKeyThenPriority, s.threads, s.cond)
    && Queued(ByKeyThenPriority, s.threads, s.arb)
  }

  /** `GetLockOwner`. */
  function OwnerOf(s: State, t: Tid): Option<Tid> {
    if t in s.threads && s.threads[t].lock.Some? && s.threads[t].lock.value in s.locks
    then Some(s.locks[s.threads[t].lock.value].owner) else None
  }

  /** Both locks stand for one key of one owner. */
  ghost predicate SameSlot(s: State, l: Lid, m: Lid) {
    l in s.locks && m in s.locks && s.locks[l].owner == s.locks[m].owner && s.locks[l].key == s.locks[m].key
  }

  /** No owner lists two locks with one key. */
  ghost predicate UniqueKeys(s: State) {
    forall l, m {:trigger SameSlot(s, l, m)} :: SameSlot(s, l, m) ==> l == m
  }

  // ----- Field updates -----

  function PutThread(s: State, t: Tid, x: Thread): State { s.(threads := s.threads[t := x]) }

  function PutLock(s: State, l: Lid, k: Lock): State { s.(locks := s.locks[l := k]) }

  function SetLock(x: Thread, l: Option<Lid>): Thread { x.(lock := l) }

  function SetHeld(x: Thread, ls: seq<Lid>): Thread { x.(held := ls) }

  // ----- Linking and unlinking a waiter -----

  /** `FindHeldLock`: the first lock in the owner's list with this key. */
  function FindHeld(locks: map<Lid, Lock>, held: seq<Lid>, key: Addr): (r: Option<Lid>)
    requires forall l :: l in held ==> l in locks
    ensures r.Some? ==> r.value in held && locks[r.value].key == key
    ensures r.None? ==> forall l :: l in held ==> locks[l].key != key
  {
    if held == [] then None
    else if locks[held[0]].key == key then Some(held[0])
    else FindHeld(locks, held[1..], key)
  }

  /** `AddWaiterImpl`: link `t` to `o` under `t`'s address key. */
  function AddWaiterImpl(s: State, o: Tid, t: Tid): State
    requires Links(s) && o in s.threads && t in s.threads
  {
    var key := s.threads[t].key;
    assert ThreadLinks(s, o);
    match FindHeld(s.locks, s.threads[o].held, key)
    case Some(l) =>
      assert LockLinks(s, l);
      JoinLock(s, t, l)
    case None =>
      OpenLock(s, o, t)
  }

  /** `t` joins the waiters of `l`. */
  function JoinLock(s: State, t: Tid, l: Lid): State
    requires l in s.locks && t in s.threads && Queued(ByPriority, s.threads, s.locks[l].waiters)
  {
    var k := s.locks[l];
    PutThread(PutLock(s, l, Lock(k.key, k.owner, Insert(ByPriority, s.threads, k.waiters, t))),
              t, SetLock(s.threads[t], Some(l)))
  }

  /** `t` is the only waiter of a new lock of `o`. */
  function OpenLock(s: State, o: Tid, t: Tid): State
    requires o in s.threads && t in s.threads
  {
    var l := s.nextLock;
    var s1 := PutLock(s, l, Lock(s.threads[t].key, o, [t]));
    var s2 := PutThread(s1, o, SetHeld(s.threads[o], [l] + s.threads[o].held));
    var s3 := PutThread(s2, t, SetLock(s2.threads[t], Some(l)));
    s3.(nextLock := l + 1)
  }

  /** `RemoveWaiterImpl`: unlink `t` from the lock it waits for; a lock without waiters goes away. */
  function RemoveWaiterImpl(s: State, t: Tid): State
    requires Links(s) && t in s.threads && s.threads[t].lock.Some?
  {
    assert ThreadLinks(s, t);
    var l := s.threads[t].lock.value;
    assert LockLinks(s, l);
    if Remove(s.locks[l].waiters, t) == [] then CloseLock(s, t, l) else LeaveLock(s, t, l)
  }

  function LeaveLock(s: State, t: Tid, l: Lid): State
    requires l in s.locks && t in s.threads && t in s.locks[l].waiters
  {
    var k := s.locks[l];
    PutThread(PutLock(s, l, Lock(k.key, k.owner, Remove(k.waiters, t))), t, SetLock(s.threads[t], None))
  }

  function CloseLock(s: State, t: Tid, l: Lid): State
    requires l in s.locks && t in s.threads && s.locks[l].owner in s.threads && l in s.threads[s.locks[l].owner].held
  {
    var o := s.locks[l].owner;
    var s1 := s.(locks := s.locks - {l});
    var s2 := PutThread(s1, o, SetHeld(s.threads[o], Remove(s.threads[o].held, l)));
    PutThread(s2, t, SetLock(s2.threads[t], None))
  }

  /** What linking and unlinking leave alone of one thread. */
  ghost predicate SameThread(s: State, s': State, t: Tid) {
    && t in s.threads && t in s'.threads
    && s'.threads[t] == s.threads[t].(lock := s'.threads[t].lock, held := s'.threads[t].held)
  }

  /** What linking and unlinking leave alone. */
  ghost predicate SameButLinks(s: State, s': State) {
    && s'.threads.Keys == s.threads.Keys
    && (forall t {:trigger SameThread(s, s', t)} :: t in s.threads ==> SameThread(s, s', t))
    && s'.cond == s.cond && s'.arb == s.arb && s'.mem == s.mem && s'.handles == s.handles
  }

  lemma FrameQueue(s: State, s': State, o: Order, q: seq<Tid>)
    requires SameButLinks(s, s') && Queued(o, s.threads, q)
    ensures Queued(o, s'.threads, q)
  {
    forall x | x in q ensures SameRank(s.threads, s'.threads, x) {
      QueuedIn(o, s.threads, q, x);
      assert SameThread(s, s', x);
    }
    QueuedFrame(o, s.threads, s'.threads, q);
  }

  /** An untouched lock stays linked if its owner still lists it and its waiters still name it. */
  lemma FrameLock(s: State, s': State, l: Lid)
    requires l in s.locks && LockLinks(s, l) && SameButLinks(s, s') && s.nextLock <= s'.nextLock
    requires l in s'.locks && s'.locks[l] == s.locks[l]
    requires s.locks[l].owner in s'.threads && l in s'.threads[s.locks[l].owner].held
    requires forall w :: w in s.locks[l].waiters ==> w in s'.threads && s'.threads[w].lock == Some(l)
    ensures LockLinks(s', l)
  {
    FrameQueue(s, s', ByPriority, s.locks[l].waiters);
    forall w | w in s.locks[l].waiters ensures WaitsIn(s', w, l) {
      assert WaitsIn(s, w, l) && SameThread(s, s', w);
    }
  }

  lemma FrameTrees(s: State, s': State)
    requires Links(s) && SameButLinks(s, s')
    ensures Queued(ByKeyThenPriority, s'.threads, s'.cond) && Queued(ByKeyThenPriority, s'.threads, s'.arb)
  {
    FrameQueue(s, s', ByKeyThenPriority, s.cond);
    FrameQueue(s, s', ByKeyThenPriority, s.arb);
  }

  /** The effect of linking `t` to `o`. */
  ghost predicate Linked(s: State, s': State, o: Tid, t: Tid) {
    && Links(s') && SameButLinks(s, s')
    && (forall w {:trigger OwnerOf(s', w)} :: OwnerOf(s', w) == if w == t then Some(o) else OwnerOf(s, w))
    && (UniqueKeys(s) ==> UniqueKeys(s'))
  }

  lemma AddKeepsLinks(s: State, o: Tid, t: Tid)
    requires Links(s) && o in s.threads && t in s.threads
    requires s.threads[t].lock == None && s.threads[t].tree == NoTree
    ensures Linked(s, AddWaiterImpl(s, o, t), o, t)
  {
    assert ThreadLinks(s, o);
    var s' := AddWaiterImpl(s, o, t);
    var f := FindHeld(s.locks, s.threads[o].held, s.threads[t].key);
    if f.Some? {
      assert LockLinks(s, f.value);
      AddToLock(s, s', o, t, f.value);
    } else {
      AddNewLock(s, s', o, t);
    }
  }

  /** `s'` is `s` with `t` queued in the existing lock `l` of `o`. */
  ghost predicate JoinedLock(s: State, s': State, o: Tid, t: Tid, l: Lid) {
    && o in s.threads && t in s.threads && s.threads[t].lock == None && s.threads[t].tree == NoTree
    && l in s.threads[o].held && l in s.locks && s.locks[l].key == s.threads[t].key
    && Queued(ByPriority, s.threads, s.locks[l].waiters)
    && s' == JoinLock(s, t, l)
  }

  lemma AddToLock(s: State, s': State, o: Tid, t: Tid, l: Lid)
    requires Links(s) && JoinedLock(s, s', o, t, l)
    ensures Linked(s, s', o, t)
  {
    assert SameButLinks(s, s');
    FrameTrees(s, s');
    AddToLockLocks(s, s', o, t, l);
    AddToLockThreads(s, s', o, t, l);
    assert forall a, b {:trigger SameSlot(s', a, b)} :: SameSlot(s', a, b) ==> SameSlot(s, a, b);
  }

  lemma AddToLockWaiters(s: State, s': State, o: Tid, t: Tid, l: Lid)
    requires JoinedLock(s, s', o, t, l) && LockLinks(s, l) && SameButLinks(s, s')
    ensures LockLinks(s', l)
    ensures forall w :: w in s'.locks[l].waiters <==> w == t || w in s.locks[l].waiters
  {
    var ws := s.locks[l].waiters;
    assert t in ws ==> WaitsIn(s, t, l);
    InsertProperties(ByPriority, s.threads, ws, t);
    FrameQueue(s, s', ByPriority, s'.locks[l].waiters);
    forall w | w in s'.locks[l].waiters ensures WaitsIn(s', w, l) {
      if w != t { assert WaitsIn(s, w, l); }
    }
  }

  lemma AddToLockLocks(s: State, s': State, o: Tid, t: Tid, l: Lid)
    requires Links(s) && JoinedLock(s, s', o, t, l) && SameButLinks(s, s')
    ensures forall m {:trigger LockLinks(s', m)} :: m in s'.locks ==> LockLinks(s', m)
  {
    assert LockLinks(s, l);
    AddToLockWaiters(s, s', o, t, l);
    forall m | m in s'.locks && m != l ensures LockLinks(s', m) {
      assert LockLinks(s, m);
      forall w | w in s.locks[m].waiters ensures w in s'.threads && s'.threads[w].lock == Some(m) {
        assert WaitsIn(s, w, m);
      }
      FrameLock(s, s', m);
    }
  }

  lemma AddToLockThreads(s: State, s': State, o: Tid, t: Tid, l: Lid)
    requires Links(s) && JoinedLock(s, s', o, t, l) && SameButLinks(s, s')
    ensures forall x {:trigger ThreadLinks(s', x)} :: x in s'.threads ==> ThreadLinks(s', x)
    ensures forall w {:trigger OwnerOf(s', w)} :: OwnerOf(s', w) == if w == t then Some(o) else OwnerOf(s, w)
  {
    assert LockLinks(s, l) && ThreadLinks(s, o);
    AddToLockWaiters(s, s', o, t, l);
    forall x | x in s'.threads ensures ThreadLinks(s', x) {
      assert ThreadLinks(s, x);
    }
  }

  /** `s'` is `s` with a new lock of `o` on which `t` alone waits. */
  ghost predicate NewLock(s: State, s': State, o: Tid, t: Tid) {
    && o in s.threads && t in s.threads && s.threads[t].lock == None && s.threads[t].tree == NoTree
    && (forall l :: l in s.threads[o].held ==> l in s.locks && s.locks[l].key != s.threads[t].key)
    && s' == OpenLock(s, o, t)
  }

  lemma AddNewLock(s: State, s': State, o: Tid, t: Tid)
    requires Links(s) && NewLock(s, s', o, t)
    ensures Linked(s, s', o, t)
  {
    assert s.nextLock in s.locks ==> LockLinks(s, s.nextLock);
    assert SameButLinks(s, s');
    FrameTrees(s, s');
    AddNewLockLocks(s, s', o, t);
    AddNewLockThreads(s, s', o, t);
    if UniqueKeys(s) { UniqueAfterNew(s, s', o, s.nextLock); }
  }

  lemma AddNewLockLocks(s: State, s': State, o: Tid, t: Tid)
    requires Links(s) && NewLock(s, s', o, t) && SameButLinks(s, s') && s.nextLock !in s.locks
    ensures forall m {:trigger LockLinks(s', m)} :: m in s'.locks ==> LockLinks(s', m)
  {
    assert WaitsIn(s', t, s.nextLock) && LockLinks(s', s.nextLock);
    forall m | m in s'.locks && m != s.nextLock ensures LockLinks(s', m) {
      assert LockLinks(s, m);
      forall w | w in s.locks[m].waiters ensures w in s'.threads && s'.threads[w].lock == Some(m) {
        assert WaitsIn(s, w, m);
      }
      FrameLock(s, s', m);
    }
  }

  lemma AddNewLockThreads(s: State, s': State, o: Tid, t: Tid)
    requires Links(s) && NewLock(s, s', o, t) && SameButLinks(s, s') && s.nextLock !in s.locks
    ensures forall x {:trigger ThreadLinks(s', x)} :: x in s'.threads ==> ThreadLinks(s', x)
    ensures forall w {:trigger OwnerOf(s', w)} :: OwnerOf(s', w) == if w == t then Some(o) else OwnerOf(s, w)
  {
    forall x | x in s'.threads ensures ThreadLinks(s', x) { NewLockThread(s, s', o, t, x); }
    forall w ensures OwnerOf(s', w) == if w == t then Some(o) else OwnerOf(s, w) {
      if w in s.threads { assert ThreadLinks(s, w); }
    }
  }

  lemma NewLockThread(s: State, s': State, o: Tid, t: Tid, x: Tid)
    requires Links(s) && NewLock(s, s', o, t) && SameButLinks(s, s') && s.nextLock !in s.locks && x in s'.threads
    ensures ThreadLinks(s', x)
  {
    assert ([s.nextLock] + s.threads[o].held)[1..] == s.threads[o].held;
    assert ThreadLinks(s, x);
    if x != o && x != t { assert s'.threads[x] == s.threads[x]; }
  }

  lemma UniqueAfterNew(s: State, s': State, o: Tid, l: Lid)
    requires UniqueKeys(s) && l !in s.locks && o in s.threads && l in s'.locks
    requires s'.locks == s.locks[l := s'.locks[l]] && s'.locks[l].owner == o
    requires forall m {:trigger LockLinks(s, m)} :: m in s.locks ==> LockLinks(s, m)
    requires forall m :: m in s.threads[o].held ==> m in s.locks && s.locks[m].key != s'.locks[l].key
    ensures UniqueKeys(s')
  {
    forall a, b | SameSlot(s', a, b) ensures a == b {
      if a != l { assert LockLinks(s, a); }
      if b != l { assert LockLinks(s, b); }
      if a != l && b != l { assert SameSlot(s, a, b); }
    }
  }

  /** The effect of unlinking `t`. */
  ghost predicate Unlinked(s: State, s': State, t: Tid) {
    && Links(s') && SameButLinks(s, s')
    && t in s'.threads && s'.threads[t].lock == None
    && (forall w {:trigger OwnerOf(s', w)} :: OwnerOf(s', w) == if w == t then None else OwnerOf(s, w))
    && (UniqueKeys(s) ==> UniqueKeys(s'))
  }

  lemma RemoveKeepsLinks(s: State, t: Tid)
    requires Links(s) && t in s.threads && s.threads[t].lock.Some?
    ensures Unlinked(s, RemoveWaiterImpl(s, t), t)
  {
    var s' := RemoveWaiterImpl(s, t);
    RemoveFrame(s, s', t);
    FrameTrees(s, s');
    RemoveLocks(s, s', t);
    RemoveThreads(s, s', t);
    RemoveOwners(s, s', t);
    RemoveUnique(s, s', t);
  }

  lemma RemoveUnique(s: State, s': State, t: Tid)
    requires Links(s) && t in s.threads && s.threads[t].lock.Some?
    requires s' == RemoveWaiterImpl(s, t)
    ensures UniqueKeys(s) ==> UniqueKeys(s')
  {
    assert ThreadLinks(s, t);
    assert LockLinks(s, s.threads[t].lock.value);
    assert forall a, b {:trigger SameSlot(s', a, b)} :: SameSlot(s', a, b) ==> SameSlot(s, a, b);
  }

  lemma RemoveFrame(s: State, s': State, t: Tid)
    requires Links(s) && t in s.threads && s.threads[t].lock.Some?
    requires s' == RemoveWaiterImpl(s, t)
    ensures SameButLinks(s, s')
    ensures t in s'.threads && s'.threads[t].lock == None
  {
    assert ThreadLinks(s, t);
    var l := s.threads[t].lock.value;
    assert LockLinks(s, l);
    if Remove(s.locks[l].waiters, t) == [] { CloseFrame(s, t, l); } else { LeaveFrame(s, t, l); }
  }

  lemma LeaveFrame(s: State, t: Tid, l: Lid)
    requires l in s.locks && t in s.threads && t in s.locks[l].waiters
    ensures SameButLinks(s, LeaveLock(s, t, l)) && LeaveLock(s, t, l).threads[t].lock == None
  {
  }

  lemma CloseFrame(s: State, t: Tid, l: Lid)
    requires l in s.locks && t in s.threads && s.locks[l].owner in s.threads && l in s.threads[s.locks[l].owner].held
    ensures SameButLinks(s, CloseLock(s, t, l)) && CloseLock(s, t, l).threads[t].lock == None
  {
  }

  lemma RemoveLocks(s: State, s': State, t: Tid)
    requires Links(s) && t in s.threads && s.threads[t].lock.Some?
    requires s' == RemoveWaiterImpl(s, t) && SameButLinks(s, s')
    ensures forall m {:trigger LockLinks(s', m)} :: m in s'.locks ==> LockLinks(s', m)
  {
    assert ThreadLinks(s, t);
    var l := s.threads[t].lock.value;
    assert LockLinks(s, l);
    assert ThreadLinks(s, s.locks[l].owner);
    var ws := s.locks[l].waiters;
    RemoveProperties(ByPriority, s.threads, ws, t);
    RemoveMembers(s.threads[s.locks[l].owner].held, l);
    if l in s'.locks {
      FrameQueue(s, s', ByPriority, Remove(ws, t));
      forall w | w in Remove(ws, t) ensures WaitsIn(s', w, l) {
        assert WaitsIn(s, w, l);
      }
      assert LockLinks(s', l);
    }
    forall m | m in s'.locks && m != l ensures LockLinks(s', m) {
      assert LockLinks(s, m);
      forall w | w in s.locks[m].waiters ensures w in s'.threads && s'.threads[w].lock == Some(m) {
        assert WaitsIn(s, w, m);
      }
      FrameLock(s, s', m);
    }
  }

  lemma RemoveThreads(s: State, s': State, t: Tid)
    requires Links(s) && t in s.threads && s.threads[t].lock.Some?
    requires s' == RemoveWaiterImpl(s, t) && SameButLinks(s, s')
    ensures forall x {:trigger ThreadLinks(s', x)} :: x in s'.threads ==> ThreadLinks(s', x)
  {
    assert ThreadLinks(s, t);
    var l := s.threads[t].lock.value;
    assert LockLinks(s, l);
    assert ThreadLinks(s, s.locks[l].owner);
    forall x | x in s'.threads ensures ThreadLinks(s', x) {
      assert ThreadLinks(s, x);
      RemoveThread(s, s', t, l, x);
    }
  }

  lemma RemoveThread(s: State, s': State, t: Tid, l: Lid, x: Tid)
    requires l in s.locks && LockLinks(s, l) && t in s.locks[l].waiters && t in s.threads && s.threads[t].lock == Some(l)
    requires ThreadLinks(s, s.locks[l].owner)
    requires x in s.threads && ThreadLinks(s, x)
    requires s' == if Remove(s.locks[l].waiters, t) == [] then CloseLock(s, t, l) else LeaveLock(s, t, l)
    ensures x in s'.threads && ThreadLinks(s', x)
  {
    var o := s.locks[l].owner;
    RemoveProperties(ByPriority, s.threads, s.locks[l].waiters, t);
    if Remove(s.locks[l].waiters, t) == [] {
      RemoveMembers(s.threads[o].held, l);
      assert x != o ==> s'.threads[x].held == s.threads[x].held && l !in s.threads[x].held;
      assert x != t && s.threads[x].lock.Some? ==> s.threads[x].lock.value != l;
    } else {
      assert s'.threads[x].held == s.threads[x].held;
    }
  }

  lemma RemoveOwners(s: State, s': State, t: Tid)
    requires Links(s) && t in s.threads && s.threads[t].lock.Some?
    requires s' == RemoveWaiterImpl(s, t) && SameButLinks(s, s')
    ensures forall w {:trigger OwnerOf(s', w)} :: OwnerOf(s', w) == if w == t then None else OwnerOf(s, w)
  {
    assert ThreadLinks(s, t);
    var l := s.threads[t].lock.value;
    assert LockLinks(s, l);
    RemoveProperties(ByPriority, s.threads, s.locks[l].waiters, t);
    forall w ensures OwnerOf(s', w) == if w == t then None else OwnerOf(s, w) {
      if w in s.threads { assert ThreadLinks(s, w); }
    }
  }
}
