/** Whole runs of the wait system calls, interleaved with cancellations, priority changes,
    termination requests and arbitrary stores by user code. */
module KernelRuns {
  import opened Basics
  import opened WaitTrees
  import opened KernelState
  import opened PriorityInheritance
  import opened WaiterLists
  import opened WaitSteps
  import CV = ConditionVariable
  import Arb = AddressArbiter

  /** `TerminatingThreadPriority`. */
  const TERMINATING: int := 15

  datatype Action =
    | ArbitrateLock(cur: Tid, handle: Word, addr: Addr, tag: Word)
    | ArbitrateUnlock(cur: Tid, addr: Addr)
    | WaitProcessWideKey(cur: Tid, addr: Addr, key: Addr, tag: Word, timeout: int)
    | SignalProcessWideKey(cur: Tid, key: Addr, count: int)
    | WaitLess(cur: Tid, addr: Addr, value: int, decrement: bool, timeout: int)
    | WaitEqual(cur: Tid, addr: Addr, value: int, timeout: int)
    | SignalAddress(cur: Tid, addr: Addr, count: int)
    | SignalIncrement(cur: Tid, addr: Addr, value: int, count: int)
    | SignalModify(cur: Tid, addr: Addr, value: int, count: int)
    | CancelWait(t: Tid, result: Result)
    | SetBasePriority(t: Tid, priority: int)
    | RequestTerminate(t: Tid)
    | UserStore(cur: Tid, addr: Addr, w: Word)

  // ----- Priority changes -----

  function SetBase(x: Thread, p: int): Thread { x.(base := p) }

  function SetDying(x: Thread): Thread { x.(dying := true) }

  /** Change `t`'s base priority and restore priorities from `t` on. */
  ghost function Rebase(s: State, t: Tid, p: int): State
    requires Inv(s) && t in s.threads
  {
    RebaseReady(s, t, p);
    Restore(PutThread(s, t, SetBase(s.threads[t], p)), t)
  }

  lemma RebaseReady(s: State, t: Tid, p: int)
    requires Inv(s) && t in s.threads
    ensures var s1 := PutThread(s, t, SetBase(s.threads[t], p)); Links(s1) && OthersInherit(s1, t)
  {
    var s1 := PutThread(s, t, SetBase(s.threads[t], p));
    TouchKeepsLinks(s, s1, t);
    forall x | x != t ensures Inherits(s1, x) { assert Inherits(s, x); TouchInherits(s, s1, t, x); }
  }

  lemma RebaseKeepsInv(s: State, t: Tid, p: int)
    requires Inv(s) && t in s.threads
    ensures var s' := Rebase(s, t, p);
            Inv(s') && SameView(PutThread(s, t, SetBase(s.threads[t], p)), s')
  {
    var s1 := PutThread(s, t, SetBase(s.threads[t], p));
    RebaseReady(s, t, p);
    RestoreRepairs(s1, t);
    var s' := Rebase(s, t, p);
    forall x | x in s'.threads ensures Settled(s', x) {
      assert Settled(s, x) && Alike(s1, s', x);
      assert OwnerOf(s', x) == OwnerOf(s1, x) == OwnerOf(s, x);
    }
  }

  /** `KThread::SetBasePriority`. */
  ghost function ChangeBase(s: State, t: Tid, priority: int): State
    requires Inv(s) && t in s.threads
  {
    Rebase(s, t, if s.threads[t].dying && priority >= TERMINATING then TERMINATING else priority)
  }

  /** Note a termination request and raise the base priority if that helps. */
  ghost function Doom(s: State, t: Tid): State
    requires Inv(s) && t in s.threads
  {
    var s1 := PutThread(s, t, SetDying(s.threads[t]));
    DyingKeepsInv(s, t);
    if s1.threads[t].base > TERMINATING then Rebase(s1, t, TERMINATING) else s1
  }

  /** `KThread::RequestTerminate`: the first request also wakes the thread. */
  ghost function Terminate(s: State, t: Tid): State
    requires Inv(s) && t in s.threads
  {
    if s.threads[t].dying then s
    else
      DoomKeepsInv(s, t);
      CV.Cancel(Doom(s, t), t, TerminationRequested)
  }

  lemma DoomKeepsInv(s: State, t: Tid)
    requires Inv(s) && t in s.threads
    ensures Inv(Doom(s, t)) && t in Doom(s, t).threads
  {
    DyingKeepsInv(s, t);
    RebaseKeepsInv(PutThread(s, t, SetDying(s.threads[t])), t, TERMINATING);
  }

  lemma DyingKeepsInv(s: State, t: Tid)
    requires Inv(s) && t in s.threads
    ensures var s' := PutThread(s, t, SetDying(s.threads[t]));
            && Inv(s') && (UniqueKeys(s) ==> UniqueKeys(s'))
            && (forall w {:trigger OwnerOf(s', w)} :: OwnerOf(s', w) == OwnerOf(s, w))
  {
    var s' := PutThread(s, t, SetDying(s.threads[t]));
    TouchKeepsSound(s, s', t);
    forall x | x in s'.threads ensures Settled(s', x) {
      assert Settled(s, x);
      assert OwnerOf(s', x) == OwnerOf(s, x);
    }
  }

  lemma TerminateKeepsInv(s: State, t: Tid)
    requires Inv(s) && t in s.threads
    ensures Inv(Terminate(s, t))
  {
    if !s.threads[t].dying {
      DoomKeepsInv(s, t);
      CV.CancelKeepsInv(Doom(s, t), t, TerminationRequested);
    }
  }

  // ----- Steps and runs -----

  /** A thread makes system calls and stores only while it runs. */
  predicate Enabled(s: State, a: Action) {
    match a
    case CancelWait(t, _) => t in s.threads
    case SetBasePriority(t, _) => t in s.threads
    case RequestTerminate(t) => t in s.threads
    case _ => Running(s, a.cur)
  }

  ghost function Apply(s: State, a: Action): State
    requires Inv(s) && Enabled(s, a)
  {
    match a
    case ArbitrateLock(cur, h, addr, tag) => CV.WaitForAddress(s, cur, h, addr, tag).s
    case ArbitrateUnlock(cur, addr) => CV.SignalToAddress(s, cur, addr).s
    case WaitProcessWideKey(cur, addr, k, tag, timeout) => CV.Wait(s, cur, addr, k, tag, timeout).s
    case SignalProcessWideKey(_, k, count) => CV.Signal(s, k, count)
    case WaitLess(cur, addr, v, d, timeout) => Arb.WaitIfLessThan(s, cur, addr, v, d, timeout).s
    case WaitEqual(cur, addr, v, timeout) => Arb.WaitIfEqual(s, cur, addr, v, timeout).s
    case SignalAddress(_, addr, count) => Arb.SignalOnly(s, addr, count).s
    case SignalIncrement(_, addr, v, count) => Arb.SignalAndIncrement(s, addr, v, count).s
    case SignalModify(_, addr, v, count) => Arb.SignalAndModify(s, addr, v, count).s
    case CancelWait(t, r) => CV.Cancel(s, t, r)
    case SetBasePriority(t, p) => ChangeBase(s, t, p)
    case RequestTerminate(t) => Terminate(s, t)
    case UserStore(_, addr, w) => WithMem(s, CV.Store(s.mem, addr, w))
  }

  /** Every step keeps the invariant, whatever its arguments and whatever user memory holds. */
  lemma StepKeepsInv(s: State, a: Action)
    requires Inv(s) && Enabled(s, a)
    ensures Inv(Apply(s, a))
  {
    match a
    case ArbitrateLock(cur, h, addr, tag) => CV.WaitForAddressKeepsInv(s, cur, h, addr, tag);
    case ArbitrateUnlock(cur, addr) => CV.GiveUpKeepsInv(s, cur, addr, if addr in s.mem then Success else InvalidCurrentMemory, s.mem);
    case WaitProcessWideKey(cur, addr, k, tag, timeout) => CV.WaitKeepsInv(s, cur, addr, k, tag, timeout);
    case SignalProcessWideKey(cur, k, count) => CV.SignalKeepsInv(s, cur, k, count);
    case WaitLess(cur, addr, v, d, timeout) => Arb.ArbiterWaitKeepsInv(s, cur, addr, v, d, timeout);
    case WaitEqual(cur, addr, v, timeout) => Arb.ArbiterWaitKeepsInv(s, cur, addr, v, false, timeout);
    case SignalAddress(_, addr, count) => Arb.ArbiterSignalKeepsInv(s, addr, 0, count);
    case SignalIncrement(_, addr, v, count) => Arb.ArbiterSignalKeepsInv(s, addr, v, count);
    case SignalModify(_, addr, v, count) => Arb.ArbiterSignalKeepsInv(s, addr, v, count);
    case CancelWait(t, r) => CV.CancelKeepsInv(s, t, r);
    case SetBasePriority(t, p) => RebaseKeepsInv(s, t, if s.threads[t].dying && p >= TERMINATING then TERMINATING else p);
    case RequestTerminate(t) => TerminateKeepsInv(s, t);
    case UserStore(cur, addr, w) => CV.MemInv(s, CV.Store(s.mem, addr, w));
  }

  /** The state after a run; an action that is not enabled is skipped. */
  ghost function Exec(s: State, run: seq<Action>): (r: State)
    requires Inv(s)
    ensures Inv(r)
    decreases run
  {
    if run == [] then s
    else if Enabled(s, run[0]) then StepKeepsInv(s, run[0]); Exec(Apply(s, run[0]), run[1..])
    else Exec(s, run[1..])
  }

  /** Where a thread can be queued. */
  ghost predicate InSomeLock(s: State, t: Tid) {
    exists l :: l in s.locks && t in s.locks[l].waiters
  }

  /** In every state of every run, a blocked thread is in exactly one of the condition-variable
      tree, the arbiter tree and one lock's waiters, a running thread is in none, and every thread
      runs at the best of its base priority and its waiters' priorities. */
  lemma EveryRunQueuesOnce(s: State, run: seq<Action>, t: Tid)
    requires Inv(s) && t in Exec(s, run).threads
    ensures var r := Exec(s, run);
            && (r.threads[t].queue == NoQueue ==> t !in r.cond && t !in r.arb && !InSomeLock(r, t))
            && (r.threads[t].queue != NoQueue ==>
                  (t in r.cond && t !in r.arb && !InSomeLock(r, t))
                  || (t !in r.cond && t in r.arb && !InSomeLock(r, t))
                  || (t !in r.cond && t !in r.arb && InSomeLock(r, t)))
            && (forall l, m :: l in r.locks && m in r.locks && t in r.locks[l].waiters && t in r.locks[m].waiters ==> l == m)
            && IsWanted(r, t, r.threads[t].prio)
  {
    var r := Exec(s, run);
    assert Settled(r, t) && ThreadLinks(r, t) && Inherits(r, t);
    forall l | l in r.locks && t in r.locks[l].waiters ensures r.threads[t].lock == Some(l) {
      assert LockLinks(r, l) && WaitsIn(r, t, l);
    }
  }
}
