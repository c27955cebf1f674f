/** Whole runs in which user code follows the lock protocol. */
module LockProtocol {
  import opened Basics
  import opened WaitTrees
  import opened KernelState
  import opened WaitSteps
  import opened ConditionVariable
  import Arb = AddressArbiter
  import opened KernelRuns
  import opened LockWords

  // ----- The protocol of user code -----

  /** What user code may do to a lock word: take a free lock, release its own uncontended lock,
      or announce that it will wait. */
  ghost predicate UserMove(d: Setup, cur: Tid, was: Word, w: Word) {
    && cur in d.tags
    && ((was == 0 && w == d.tags[cur]) || (was == d.tags[cur] && w == 0) || (was != 0 && !Masked(was) && w == OrMask(was)))
  }

  /** Threads pass their own tags, unlock and wait with locks they hold, and keep the arbiter away
      from lock words and condition-variable keys; nobody reports success for a cancelled wait. */
  ghost predicate Obeys(d: Setup, s: State, a: Action) {
    match a
    case ArbitrateLock(cur, h, addr, tag) =>
      addr in d.locks && h < WAIT_MASK && cur in d.tags && tag == d.tags[cur] && !Holds(d, s, cur, addr)
    case ArbitrateUnlock(cur, addr) => Holds(d, s, cur, addr)
    case WaitProcessWideKey(cur, addr, k, tag, _) => k in d.keys && Holds(d, s, cur, addr) && tag == d.tags[cur]
    case SignalProcessWideKey(_, k, _) => k in d.keys
    case WaitLess(_, addr, _, _, _) => addr !in d.locks + d.keys
    case WaitEqual(_, addr, _, _) => addr !in d.locks + d.keys
    case SignalAddress(_, addr, _) => addr !in d.locks + d.keys
    case SignalIncrement(_, addr, _, _) => addr !in d.locks + d.keys
    case SignalModify(_, addr, _, _) => addr !in d.locks + d.keys
    case CancelWait(_, r) => r != Success
    case SetBasePriority(_, _) => true
    case RequestTerminate(_) => true
    case UserStore(cur, addr, w) => addr !in d.keys && (addr in d.locks && addr in s.mem ==> UserMove(d, cur, s.mem[addr], w))
  }

  /** The lock an action gives up, and by whom. */
  ghost function Released(d: Setup, s: State, a: Action): Option<(Tid, Addr)> {
    match a
    case ArbitrateUnlock(cur, addr) => Some((cur, addr))
    case WaitProcessWideKey(cur, addr, _, _, _) => Some((cur, addr))
    case UserStore(cur, addr, w) => if addr in d.locks && w == 0 then Some((cur, addr)) else None
    case _ => None
  }

  // ----- One step -----

  lemma UserStoreSafe(d: Setup, s: State, cur: Tid, addr: Addr, w: Word)
    requires Inv(s) && Words(d, s) && Running(s, cur) && Obeys(d, s, UserStore(cur, addr, w))
    ensures Safe(d, s, WithMem(s, Store(s.mem, addr, w)), Released(d, s, UserStore(cur, addr, w)))
  {
    var m := Store(s.mem, addr, w);
    if addr in d.locks && addr in s.mem {
      MemInv(s, m);
      RunningUnlinked(s, cur);
      UserMoveSafe(d, s, cur, addr, w);
    } else { StoreElsewhere(d, s, m); }
  }

  lemma UserMoveSafe(d: Setup, s: State, cur: Tid, addr: Addr, w: Word)
    requires Words(d, s) && UniqueKeys(WithMem(s, s.mem[addr := w])) && cur in s.threads && s.threads[cur].tree == NoTree && OwnerOf(s, cur) == None
    requires addr in d.locks && addr in s.mem && UserMove(d, cur, s.mem[addr], w)
    ensures Safe(d, s, WithMem(s, s.mem[addr := w]), if w == 0 then Some((cur, addr)) else None)
  {
    var s' := WithMem(s, s.mem[addr := w]);
    var o :| s.mem[addr] == 0 || (o in d.tags && (s.mem[addr] == d.tags[o] || s.mem[addr] == d.tags[o] + WAIT_MASK));
    if s.mem[addr] != 0 { MaskFacts(d.tags[o]); }
    MaskFacts(d.tags[cur]);
    MaskFacts(0);
    forall x | x in s'.threads ensures ThreadWords(d, s', x) {
      assert ThreadWords(d, s, x) && OwnerOf(s', x) == OwnerOf(s, x);
      if OwnerOf(s, x).Some? { MaskFacts(d.tags[OwnerOf(s, x).value]); }
    }
    forall b | b in d.locks && b in s'.mem ensures WordOk(d, s'.mem[b]) {
      if b != addr { assert s'.mem[b] == s.mem[b]; }
    }
  }

  /** Whatever is stored at `addr`, the wait returns or sleeps after at most that store. */
  lemma LessWaitShape(s: State, cur: Tid, addr: Addr, value: int, decrement: bool, timeout: int) returns (w: Word)
    requires Inv(s) && Running(s, cur)
    ensures var s' := Arb.WaitIfLessThan(s, cur, addr, value, decrement, timeout).s;
            var s1 := WithMem(s, s.mem[addr := w]);
            s' == s || (addr in s.mem && Detached(s1, cur) && (s' == s1 || s' == Arb.SleepAt(s1, cur, addr)))
  {
    RunningUnlinked(s, cur);
    w := 0;
    if addr in s.mem {
      w := if decrement then Arb.U32(Arb.S32(s.mem[addr]) - 1) else s.mem[addr];
      MemKeepsDetached(s, cur, s.mem[addr := w]);
      assert !decrement ==> s.mem[addr := w] == s.mem;
    }
  }

  lemma LessWaitQuiet(d: Setup, s: State, cur: Tid, addr: Addr, value: int, decrement: bool, timeout: int)
    requires Inv(s) && UniqueKeys(s) && Running(s, cur) && addr !in d.locks
    ensures Quiet(d, s, Arb.WaitIfLessThan(s, cur, addr, value, decrement, timeout).s)
  {
    StillQuiet(d, s);
    RunningUnlinked(s, cur);
    var w := LessWaitShape(s, cur, addr, value, decrement, timeout);
    if addr in s.mem { SleepQuiet(d, s, cur, addr, w); }
  }

  lemma EqualWaitQuiet(d: Setup, s: State, cur: Tid, addr: Addr, value: int, timeout: int)
    requires Inv(s) && UniqueKeys(s) && Running(s, cur) && addr !in d.locks
    ensures Quiet(d, s, Arb.WaitIfEqual(s, cur, addr, value, timeout).s)
  {
    StillQuiet(d, s);
    RunningUnlinked(s, cur);
    SleepAtAlone(s, cur, addr);
    AloneQuiet(d, s, Arb.SleepAt(s, cur, addr));
  }

  lemma SleepQuiet(d: Setup, s: State, cur: Tid, addr: Addr, w: Word)
    requires Detached(s, cur) && UniqueKeys(s) && Running(s, cur) && addr !in d.locks && addr in s.mem
    ensures var s1 := WithMem(s, s.mem[addr := w]);
            Detached(s1, cur) && Quiet(d, s, s1) && Quiet(d, s, Arb.SleepAt(s1, cur, addr))
  {
    var s1 := WithMem(s, s.mem[addr := w]);
    MemKeepsDetached(s, cur, s.mem[addr := w]);
    forall t | t in s.threads ensures Alone(s1, s1, t) {}
    AloneAfterStore(d, s, s1, addr, w);
    SleepAtAlone(s1, cur, addr);
    AloneAfterStore(d, s, Arb.SleepAt(s1, cur, addr), addr, w);
  }

  /** One step of a disciplined run: the words agree with the kernel again, nobody but the
      releasing thread loses a lock, and a lock wait that succeeds ends with the lock. */
  lemma StepSafe(d: Setup, s: State, a: Action)
    requires Inv(s) && Words(d, s) && Enabled(s, a) && Obeys(d, s, a)
    ensures Safe(d, s, Apply(s, a), Released(d, s, a))
  {
    if a.ArbitrateLock? { ArbitrateLockSafe(d, s, a.cur, a.handle, a.addr); }
    else if a.ArbitrateUnlock? { UnlockSafe(d, s, a.cur, a.addr); }
    else if a.WaitProcessWideKey? { WaitSafe(d, s, a.cur, a.addr, a.key, a.timeout); }
    else if a.SignalProcessWideKey? { SignalSafe(d, s, a.key, a.count); }
    else if a.UserStore? { UserStoreSafe(d, s, a.cur, a.addr, a.w); }
    else { QuietStep(d, s, a); QuietSafe(d, s, Apply(s, a)); }
  }

  lemma QuietStep(d: Setup, s: State, a: Action)
    requires Inv(s) && UniqueKeys(s) && Enabled(s, a) && Obeys(d, s, a)
    requires !a.ArbitrateLock? && !a.ArbitrateUnlock? && !a.WaitProcessWideKey? && !a.SignalProcessWideKey? && !a.UserStore?
    ensures Quiet(d, s, Apply(s, a))
  {
    match a
    case WaitLess(cur, addr, v, dec, timeout) => LessWaitQuiet(d, s, cur, addr, v, dec, timeout);
    case WaitEqual(cur, addr, v, timeout) => EqualWaitQuiet(d, s, cur, addr, v, timeout);
    case SignalAddress(_, addr, count) => ArbiterSignalQuiet(d, s, addr, 0, count);
    case SignalIncrement(_, addr, v, count) => ArbiterSignalQuiet(d, s, addr, v, count);
    case SignalModify(_, addr, v, count) => ArbiterSignalQuiet(d, s, addr, v, count);
    case CancelWait(t, r) => CancelQuiet(d, s, t, r);
    case SetBasePriority(t, p) => RebaseQuiet(d, s, t, if s.threads[t].dying && p >= TERMINATING then TERMINATING else p);
    case RequestTerminate(t) => if s.threads[t].dying { StillQuiet(d, s); } else { TerminateQuiet(d, s, t); }
  }

  // ----- Runs -----

  /** Every action of the run is enabled and obeys the protocol where it happens. */
  ghost predicate ObeysRun(d: Setup, s: State, run: seq<Action>)
    requires Inv(s)
    decreases run
  {
    run != [] ==>
      Enabled(s, run[0]) && Obeys(d, s, run[0])
      && (StepKeepsInv(s, run[0]); ObeysRun(d, Apply(s, run[0]), run[1..]))
  }

  /** No action of the run gives up this lock. */
  ghost predicate NeverReleased(d: Setup, s: State, run: seq<Action>, t: Tid, a: Addr)
    requires Inv(s)
    decreases run
  {
    run != [] && Enabled(s, run[0]) ==>
      Released(d, s, run[0]) != Some((t, a))
      && (StepKeepsInv(s, run[0]); NeverReleased(d, Apply(s, run[0]), run[1..], t, a))
  }

  /** In every disciplined run user memory agrees with the kernel's queues. */
  lemma {:induction false} DisciplinedRun(d: Setup, s: State, run: seq<Action>)
    requires Inv(s) && Words(d, s) && ObeysRun(d, s, run)
    ensures Words(d, Exec(s, run))
    decreases run
  {
    if run != [] {
      StepKeepsInv(s, run[0]);
      StepSafe(d, s, run[0]);
      DisciplinedRun(d, Apply(s, run[0]), run[1..]);
    }
  }

  /** Mutual exclusion over whole runs: while its holder does not give it up, a lock keeps that
      one holder. */
  lemma {:induction false} HolderKeepsLock(d: Setup, s: State, run: seq<Action>, t: Tid, a: Addr)
    requires Inv(s) && Words(d, s) && ObeysRun(d, s, run) && Holds(d, s, t, a) && NeverReleased(d, s, run, t, a)
    ensures Holds(d, Exec(s, run), t, a)
    ensures forall u :: Holds(d, Exec(s, run), u, a) ==> u == t
    decreases run
  {
    if run != [] {
      StepKeepsInv(s, run[0]);
      StepSafe(d, s, run[0]);
      HolderKeepsLock(d, Apply(s, run[0]), run[1..], t, a);
    }
  }
}
