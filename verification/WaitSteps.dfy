/** The kernel's wait system calls as atomic steps: each runs under the scheduler lock.

    Every step keeps the invariant `Inv`, for any arguments and any contents of user memory:
    the links agree, every priority is inherited, and a blocked thread is in exactly one of
    the condition-variable tree, the arbiter tree and one owner's waiter list, while a running
    thread is in none. */
module WaitSteps {
  import opened Basics
  import opened WaitTrees
  import opened KernelState
  import opened PriorityInheritance
  import opened WaiterLists

  // ----- The invariant -----

  /** A thread's queue matches where it is linked. */
  ghost predicate Settled(s: State, t: Tid)
    requires t in s.threads
  {
    var x := s.threads[t];
    match x.queue
    case NoQueue => OwnerOf(s, t) == None && x.tree == NoTree
    case LockQueue => OwnerOf(s, t).Some? && x.tree == NoTree
    case CondQueue => (OwnerOf(s, t).Some? && x.tree == NoTree) || (OwnerOf(s, t) == None && x.tree == InCond)
    case ArbQueue => OwnerOf(s, t) == None && x.tree == InArb
  }

  ghost predicate HandlesKnown(s: State) {
    forall h :: h in s.handles ==> s.handles[h] in s.threads
  }

  ghost predicate Inv(s: State) {
    && Sound(s) && HandlesKnown(s)
    && (forall t {:trigger Settled(s, t)} :: t in s.threads ==> Settled(s, t))
  }

  /** Everything but `t` is settled, and `t` is linked nowhere. */
  ghost predicate Detached(s: State, t: Tid) {
    && Sound(s) && HandlesKnown(s) && t in s.threads
    && s.threads[t].lock == None && s.threads[t].tree == NoTree
    && (forall x {:trigger Settled(s, x)} :: x in s.threads && x != t ==> Settled(s, x))
  }

  predicate Running(s: State, t: Tid) {
    t in s.threads && s.threads[t].queue == NoQueue
  }

  lemma RunningUnlinked(s: State, t: Tid)
    requires Inv(s) && Running(s, t)
    ensures s.threads[t].lock == None && s.threads[t].tree == NoTree && Detached(s, t)
  {
    assert Settled(s, t) && ThreadLinks(s, t);
  }

  // ----- Changes that touch no link -----

  ghost predicate QuietChange(x: Thread, y: Thread) {
    && y.prio == x.prio && y.tree == x.tree && y.cvKey == x.cvKey
    && y.lock == x.lock && y.held == x.held && (x.lock.Some? ==> y.key == x.key)
  }

  /** `s'` is `s` with other memory and a quiet change of `t`. */
  ghost predicate Touched(s: State, s': State, t: Tid) {
    && t in s.threads && t in s'.threads && QuietChange(s.threads[t], s'.threads[t])
    && s'.threads == s.threads[t := s'.threads[t]]
    && s'.locks == s.locks && s'.nextLock == s.nextLock && s'.cond == s.cond && s'.arb == s.arb
    && s'.handles == s.handles
  }

  lemma TouchKeepsLinks(s: State, s': State, t: Tid)
    requires Links(s) && Touched(s, s', t)
    ensures Links(s')
  {
    TouchTree(s, s', t, s.cond);
    TouchTree(s, s', t, s.arb);
    TouchLocks(s, s', t);
    forall x | x in s'.threads ensures ThreadLinks(s', x) { assert ThreadLinks(s, x); }
  }

  lemma TouchKeepsSound(s: State, s': State, t: Tid)
    requires Sound(s) && Touched(s, s', t) && s'.threads[t].base == s.threads[t].base
    ensures Sound(s')
    ensures forall w {:trigger OwnerOf(s', w)} :: OwnerOf(s', w) == OwnerOf(s, w)
    ensures UniqueKeys(s) ==> UniqueKeys(s')
  {
    TouchKeepsLinks(s, s', t);
    forall x ensures Inherits(s', x) { assert Inherits(s, x); TouchInherits(s, s', t, x); }
    assert forall a, b {:trigger SameSlot(s', a, b)} :: SameSlot(s', a, b) ==> SameSlot(s, a, b);
  }

  lemma TouchTree(s: State, s': State, t: Tid, q: seq<Tid>)
    requires Touched(s, s', t) && Queued(ByKeyThenPriority, s.threads, q)
    ensures Queued(ByKeyThenPriority, s'.threads, q)
  {
    forall x | x in q ensures SameRank(s.threads, s'.threads, x) { QueuedIn(ByKeyThenPriority, s.threads, q, x); }
    QueuedFrame(ByKeyThenPriority, s.threads, s'.threads, q);
  }

  lemma TouchLocks(s: State, s': State, t: Tid)
    requires Links(s) && Touched(s, s', t)
    ensures forall l {:trigger LockLinks(s', l)} :: l in s'.locks ==> LockLinks(s', l)
  {
    forall l | l in s'.locks ensures LockLinks(s', l) {
      assert LockLinks(s, l);
      forall x | x in s.locks[l].waiters ensures SameRank(s.threads, s'.threads, x) && WaitsIn(s', x, l) {
        assert WaitsIn(s, x, l);
      }
      QueuedFrame(ByPriority, s.threads, s'.threads, s.locks[l].waiters);
    }
  }

  lemma TouchInherits(s: State, s': State, t: Tid, x: Tid)
    requires Inherits(s, x) && Touched(s, s', t) && (x == t ==> s'.threads[t].base == s.threads[t].base)
    ensures Inherits(s', x)
  {
    if x in s'.threads {
      forall w | w in s'.threads && OwnerOf(s', w) == Some(x) ensures s'.threads[x].prio <= s'.threads[w].prio {
        assert OwnerOf(s, w) == Some(x);
      }
      if s'.threads[x].prio != s'.threads[x].base {
        var w :| w in s.threads && OwnerOf(s, w) == Some(x) && s.threads[w].prio == s.threads[x].prio;
        assert OwnerOf(s', w) == Some(x);
      }
    }
  }

  // ----- Ending and beginning a wait -----

  function Woken(x: Thread, r: Result): Thread { x.(queue := NoQueue, result := r) }

  /** `KThread::EndWait`. */
  function EndWait(s: State, t: Tid, r: Result): State
    requires t in s.threads
  {
    if s.threads[t].queue == NoQueue then s else PutThread(s, t, Woken(s.threads[t], r))
  }

  function WithMem(s: State, m: map<Addr, Word>): State { s.(mem := m) }

  /** Ending the wait of an unlinked thread settles it, whatever is written to memory. */
  lemma EndWaitSettles(s: State, t: Tid, r: Result, m: map<Addr, Word>)
    requires Detached(s, t)
    ensures var s' := WithMem(EndWait(s, t, r), m);
            && Inv(s') && Running(s', t) && (UniqueKeys(s) ==> UniqueKeys(s'))
            && (forall w {:trigger OwnerOf(s', w)} :: OwnerOf(s', w) == OwnerOf(s, w))
  {
    var s' := WithMem(EndWait(s, t, r), m);
    TouchKeepsSound(s, s', t);
    forall x | x in s'.threads ensures Settled(s', x) {
      assert x != t ==> Settled(s, x);
      assert OwnerOf(s', x) == OwnerOf(s, x);
    }
  }

  /** Writing memory keeps a thread unlinked. */
  lemma MemKeepsDetached(s: State, t: Tid, m: map<Addr, Word>)
    requires Detached(s, t)
    ensures var s' := WithMem(s, m);
            && Detached(s', t) && (UniqueKeys(s) ==> UniqueKeys(s'))
            && (forall w {:trigger OwnerOf(s', w)} :: OwnerOf(s', w) == OwnerOf(s, w))
  {
    var s' := WithMem(s, m);
    TouchKeepsSound(s, s', t);
    forall x | x in s'.threads && x != t ensures Settled(s', x) {
      assert Settled(s, x);
      assert OwnerOf(s', x) == OwnerOf(s, x);
    }
  }

  function Blocked(x: Thread, q: Queue): Thread { x.(queue := q) }

  /** `KThread::BeginWait`. */
  function BeginWait(s: State, t: Tid, q: Queue): State
    requires t in s.threads
  {
    PutThread(s, t, Blocked(s.threads[t], q))
  }

  /** Blocking settles a thread that is linked where its queue expects it. */
  lemma BeginWaitSettles(s: State, t: Tid, q: Queue)
    requires Sound(s) && HandlesKnown(s) && t in s.threads
    requires forall x {:trigger Settled(s, x)} :: x in s.threads && x != t ==> Settled(s, x)
    requires (q == LockQueue && OwnerOf(s, t).Some? && s.threads[t].tree == NoTree)
          || (q == CondQueue && OwnerOf(s, t) == None && s.threads[t].tree == InCond)
          || (q == ArbQueue && OwnerOf(s, t) == None && s.threads[t].tree == InArb)
    ensures var s' := BeginWait(s, t, q);
            && Inv(s') && (UniqueKeys(s) ==> UniqueKeys(s'))
            && (forall w {:trigger OwnerOf(s', w)} :: OwnerOf(s', w) == OwnerOf(s, w))
  {
    var s' := BeginWait(s, t, q);
    TouchKeepsSound(s, s', t);
    forall x | x in s'.threads ensures Settled(s', x) {
      assert x != t ==> Settled(s, x);
      assert OwnerOf(s', x) == OwnerOf(s, x);
    }
  }

  // ----- Entering and leaving a tree -----

  function InTree(x: Thread, tree: Tree, cvKey: Addr): Thread { x.(tree := tree, cvKey := cvKey) }

  function OutOfTree(x: Thread): Thread { x.(tree := NoTree) }

  /** Insert `t` into the condition-variable tree under a key. */
  function EnterCond(s: State, t: Tid, k: Addr): State
    requires Links(s) && t in s.threads && s.threads[t].tree == NoTree
  {
    var s1 := PutThread(s, t, InTree(s.threads[t], InCond, k));
    EnterQueued(s, t, InTree(s.threads[t], InCond, k), s.cond);
    s1.(cond := Insert(ByKeyThenPriority, s1.threads, s.cond, t))
  }

  function EnterArb(s: State, t: Tid, k: Addr): State
    requires Links(s) && t in s.threads && s.threads[t].tree == NoTree
  {
    var s1 := PutThread(s, t, InTree(s.threads[t], InArb, k));
    EnterQueued(s, t, InTree(s.threads[t], InArb, k), s.arb);
    s1.(arb := Insert(ByKeyThenPriority, s1.threads, s.arb, t))
  }

  lemma EnterQueued(s: State, t: Tid, x: Thread, q: seq<Tid>)
    requires Links(s) && t in s.threads && s.threads[t].tree == NoTree && (q == s.cond || q == s.arb)
    ensures t !in q && Queued(ByKeyThenPriority, s.threads[t := x], q)
  {
    assert ThreadLinks(s, t);
    forall y | y in q ensures SameRank(s.threads, s.threads[t := x], y) { QueuedIn(ByKeyThenPriority, s.threads, q, y); }
    QueuedFrame(ByKeyThenPriority, s.threads, s.threads[t := x], q);
  }

  /** `s'` is `s` with `t` moved into or out of a tree. */
  ghost predicate TreeMoved(s: State, s': State, t: Tid) {
    && t in s.threads && t in s'.threads && s.threads[t].lock == None
    && s'.threads == s.threads[t := InTree(s.threads[t], s'.threads[t].tree, s'.threads[t].cvKey)]
    && s'.locks == s.locks && s'.nextLock == s.nextLock && s'.mem == s.mem && s'.handles == s.handles
    && Queued(ByKeyThenPriority, s'.threads, s'.cond) && Queued(ByKeyThenPriority, s'.threads, s'.arb)
    && (forall x :: x != t ==> (x in s'.cond <==> x in s.cond) && (x in s'.arb <==> x in s.arb))
    && (t in s'.cond <==> s'.threads[t].tree == InCond) && (t in s'.arb <==> s'.threads[t].tree == InArb)
  }

  lemma MoveKeepsSound(s: State, s': State, t: Tid)
    requires Sound(s) && TreeMoved(s, s', t)
    ensures Sound(s')
    ensures forall w {:trigger OwnerOf(s', w)} :: OwnerOf(s', w) == OwnerOf(s, w)
    ensures UniqueKeys(s) ==> UniqueKeys(s')
  {
    MoveLocks(s, s', t);
    forall x | x in s'.threads ensures ThreadLinks(s', x) { assert ThreadLinks(s, x); }
    forall x ensures Inherits(s', x) { MoveInherits(s, s', t, x); }
    assert forall a, b {:trigger SameSlot(s', a, b)} :: SameSlot(s', a, b) ==> SameSlot(s, a, b);
  }

  lemma MoveLocks(s: State, s': State, t: Tid)
    requires Links(s) && TreeMoved(s, s', t)
    ensures forall l {:trigger LockLinks(s', l)} :: l in s'.locks ==> LockLinks(s', l)
  {
    forall l | l in s'.locks ensures LockLinks(s', l) {
      assert LockLinks(s, l);
      forall x | x in s.locks[l].waiters ensures SameRank(s.threads, s'.threads, x) && WaitsIn(s', x, l) {
        assert WaitsIn(s, x, l);
      }
      QueuedFrame(ByPriority, s.threads, s'.threads, s.locks[l].waiters);
    }
  }

  lemma MoveInherits(s: State, s': State, t: Tid, x: Tid)
    requires AllInherit(s) && TreeMoved(s, s', t)
    ensures Inherits(s', x)
  {
    if x in s'.threads {
      assert Inherits(s, x);
      forall w | w in s'.threads && OwnerOf(s', w) == Some(x) ensures s'.threads[x].prio <= s'.threads[w].prio {
        assert OwnerOf(s, w) == Some(x);
      }
      if s'.threads[x].prio != s'.threads[x].base {
        var w :| w in s.threads && OwnerOf(s, w) == Some(x) && s.threads[w].prio == s.threads[x].prio;
        assert OwnerOf(s', w) == Some(x);
      }
    }
  }

  lemma EnterCondMoves(s: State, t: Tid, k: Addr)
    requires Links(s) && t in s.threads && s.threads[t].tree == NoTree && s.threads[t].lock == None
    ensures TreeMoved(s, EnterCond(s, t, k), t)
  {
    var x := InTree(s.threads[t], InCond, k);
    EnterQueued(s, t, x, s.cond);
    EnterQueued(s, t, x, s.arb);
    InsertProperties(ByKeyThenPriority, s.threads[t := x], s.cond, t);
  }

  lemma EnterArbMoves(s: State, t: Tid, k: Addr)
    requires Links(s) && t in s.threads && s.threads[t].tree == NoTree && s.threads[t].lock == None
    ensures TreeMoved(s, EnterArb(s, t, k), t)
  {
    var x := InTree(s.threads[t], InArb, k);
    EnterQueued(s, t, x, s.cond);
    EnterQueued(s, t, x, s.arb);
    InsertProperties(ByKeyThenPriority, s.threads[t := x], s.arb, t);
  }

  /** Erase `t` from the tree it is in and forget the tree. */
  function LeaveTree(s: State, t: Tid): State
    requires Links(s) && t in s.threads
  {
    assert ThreadLinks(s, t);
    var s1 := PutThread(s, t, OutOfTree(s.threads[t]));
    match s.threads[t].tree
    case NoTree => s
    case InCond => s1.(cond := Remove(s.cond, t))
    case InArb => s1.(arb := Remove(s.arb, t))
  }

  lemma LeaveTreeMoves(s: State, t: Tid)
    requires Links(s) && t in s.threads && s.threads[t].lock == None && s.threads[t].tree != NoTree
    ensures TreeMoved(s, LeaveTree(s, t), t) && LeaveTree(s, t).threads[t].tree == NoTree
  {
    assert ThreadLinks(s, t);
    var th := s.threads[t := OutOfTree(s.threads[t])];
    assert th[t] == InTree(s.threads[t], NoTree, s.threads[t].cvKey);
    LeaveOne(s, t, th, s.cond);
    LeaveOne(s, t, th, s.arb);
  }

  lemma LeaveOne(s: State, t: Tid, th: Threads, q: seq<Tid>)
    requires t in s.threads && th == s.threads[t := OutOfTree(s.threads[t])] && Queued(ByKeyThenPriority, s.threads, q)
    ensures Queued(ByKeyThenPriority, th, q)
    ensures t in q ==> Queued(ByKeyThenPriority, th, Remove(q, t)) && (forall x :: x in Remove(q, t) <==> x != t && x in q)
  {
    forall x | x in q ensures SameRank(s.threads, th, x) { QueuedIn(ByKeyThenPriority, s.threads, q, x); }
    QueuedFrame(ByKeyThenPriority, s.threads, th, q);
    if t in q { RemoveProperties(ByKeyThenPriority, th, q, t); }
  }
}
