/** Condition-variable flags over whole runs.

    A thread that waits on a key while it holds another lock can be skipped by a broadcast, and the
    flag is then cleared while it waits.  In runs where threads wait holding only the lock they
    wait with, the flag of every key that somebody waits on stays set. */
module CondFlags {
  import opened Basics
  import opened WaitTrees
  import opened KernelState
  import opened PriorityInheritance
  import opened WaiterLists
  import opened WaitSteps
  import opened ConditionVariable
  import opened KernelRuns
  import opened TreeOrder
  import opened SignalFlag
  import opened LockWords
  import opened LockProtocol

  /** No thread in the condition-variable tree holds a lock. */
  ghost predicate CondIdle(d: Setup, s: State) {
    forall t: Tid, a: Addr {:trigger Holds(d, s, t, a)} :: t in s.threads && s.threads[t].tree == InCond ==> !Holds(d, s, t, a)
  }

  /** The flag of every key somebody waits on is set. */
  ghost predicate FlagsSet(s: State) {
    forall t :: t in s.threads && s.threads[t].tree == InCond && s.threads[t].cvKey in s.mem ==> s.mem[s.threads[t].cvKey] == 1
  }

  /** Nobody enters the tree or gains a lock there, and no key changes. */
  ghost predicate Idles(d: Setup, s: State, s': State) {
    && s'.threads.Keys == s.threads.Keys
    && (forall t {:trigger IdlesOne(d, s, s', t)} :: t in s.threads ==> IdlesOne(d, s, s', t))
    && (forall k {:trigger SameWord(s, s', k)} :: k in d.keys ==> SameWord(s, s', k))
  }

  ghost predicate IdlesOne(d: Setup, s: State, s': State, t: Tid) {
    && t in s.threads && t in s'.threads
    && (s'.threads[t].tree == InCond ==>
          && s.threads[t].tree == InCond && s'.threads[t].cvKey == s.threads[t].cvKey
          && (forall a {:trigger Holds(d, s', t, a)} :: Holds(d, s', t, a) ==> Holds(d, s, t, a)))
  }

  ghost predicate Flagged(d: Setup, s: State) { Words(d, s) && CondIdle(d, s) && FlagsSet(s) }

  lemma IdlesKeeps(d: Setup, s: State, s': State)
    requires CondIdle(d, s) && Words(d, s) && Idles(d, s, s')
    ensures CondIdle(d, s') && (FlagsSet(s) ==> FlagsSet(s'))
  {
    forall t: Tid, a: Addr | t in s'.threads && s'.threads[t].tree == InCond ensures !Holds(d, s', t, a) {
      assert IdlesOne(d, s, s', t);
      assert Holds(d, s', t, a) ==> Holds(d, s, t, a);
    }
    if FlagsSet(s) {
      forall t | t in s'.threads && s'.threads[t].tree == InCond && s'.threads[t].cvKey in s'.mem
        ensures s'.mem[s'.threads[t].cvKey] == 1
      {
        assert IdlesOne(d, s, s', t) && ThreadWords(d, s, t);
        assert SameWord(s, s', s.threads[t].cvKey);
      }
    }
  }

  lemma IdlesTrans(d: Setup, s: State, s1: State, s2: State)
    requires Idles(d, s, s1) && Idles(d, s1, s2)
    ensures Idles(d, s, s2)
  {
    forall t | t in s.threads ensures IdlesOne(d, s, s2, t) {
      assert IdlesOne(d, s, s1, t) && IdlesOne(d, s1, s2, t);
      forall a | s2.threads[t].tree == InCond && Holds(d, s2, t, a) ensures Holds(d, s, t, a) { assert Holds(d, s1, t, a); }
    }
    forall k | k in d.keys ensures SameWord(s, s2, k) { assert SameWord(s, s1, k) && SameWord(s1, s2, k); }
  }

  // ----- Signalling -----

  /** The end of a chain of owners is its start or owns something. */
  lemma {:induction false} EndOwns(s: State, x: Tid, seen: set<Tid>) returns (w: Tid)
    requires EndFrom(s, x, seen).Some?
    ensures EndFrom(s, x, seen) == Some(x) || OwnerOf(s, w) == EndFrom(s, x, seen)
    decreases s.threads.Keys - seen
  {
    w := x;
    if OwnerOf(s, x).Some? {
      var y := OwnerOf(s, x).value;
      assert x in s.threads.Keys - seen && x !in s.threads.Keys - (seen + {x});
      var v := EndOwns(s, y, seen + {x});
      if EndFrom(s, x, seen) != Some(y) { w := v; }
    }
  }

  /** Whoever a signalled thread waits for, through owners, does not sleep in the tree. */
  lemma RaisedAwake(d: Setup, s: State, t: Tid)
    requires Words(d, s) && CondIdle(d, s) && t in s.threads && s.threads[t].tree == InCond && RaisedBy(s, t).Some?
    ensures var e := RaisedBy(s, t).value; e in s.threads ==> s.threads[e].tree != InCond
  {
    var o, e := HolderFor(s, t).value, RaisedBy(s, t).value;
    var a := s.threads[t].key;
    assert ThreadWords(d, s, t) && WordOk(d, s.mem[a]);
    var h :| h in d.tags && (s.mem[a] == d.tags[h] || s.mem[a] == d.tags[h] + WAIT_MASK);
    MaskFacts(d.tags[h]);
    assert Holds(d, s, o, a);
    var w := EndOwns(s, o, {t});
    if e != o {
      assert ThreadWords(d, s, w);
      MaskFacts(d.tags[e]);
      assert Holds(d, s, e, s.threads[w].key);
    }
  }

  lemma SignalTargetIdles(d: Setup, s: State, t: Tid)
    requires Inv(s) && Words(d, s) && t in s.threads && s.threads[t].tree == InCond
    ensures Idles(d, s, SignalTarget(s, t))
  {
    var s' := SignalTarget(s, t);
    SignalTargetKeepsInv(s, t);
    SignalTargetMem(d, s, t);
    forall x | x in s.threads ensures IdlesOne(d, s, s', x) {
      if x != t { assert SameTree(s, s', x); }
    }
    forall k | k in d.keys ensures SameWord(s, s', k) { assert ThreadWords(d, s, t); }
  }

  /** Only the lock word of `t` changes, and only `t` can gain a lock. */
  lemma SignalTargetMem(d: Setup, s: State, t: Tid)
    requires Inv(s) && Words(d, s) && t in s.threads && s.threads[t].tree == InCond
    ensures var s' := SignalTarget(s, t);
            && s'.mem.Keys == s.mem.Keys && (forall b :: b in s.mem && b != s.threads[t].key ==> s'.mem[b] == s.mem[b])
            && (forall x, a {:trigger Holds(d, s', x, a)} :: Holds(d, s', x, a) && x != t ==> Holds(d, s, x, a))
  {
    var a := s.threads[t].key;
    assert ThreadWords(d, s, t) && WordOk(d, s.mem[a]);
    SignalTargetWord(s, t);
    MaskFacts(d.tags[t]);
    if s.mem[a] != 0 {
      var h :| h in d.tags && (s.mem[a] == d.tags[h] || s.mem[a] == d.tags[h] + WAIT_MASK);
      MaskFacts(d.tags[h]);
    }
  }

  lemma SignalTargetWord(s: State, t: Tid)
    requires Inv(s) && t in s.threads && s.threads[t].tree == InCond && s.threads[t].key in s.mem
    ensures var a := s.threads[t].key;
            SignalTarget(s, t).mem == s.mem[a := if s.mem[a] == 0 then s.threads[t].val else OrMask(s.mem[a])]
  {
    LeaveDetaches(s, t);
    var s1, a := LeaveTree(s, t), s.threads[t].key;
    if s.mem[a] != 0 && ClearMask(s.mem[a]) in s.handles {
      var m := s1.mem[a := OrMask(s.mem[a])];
      MemKeepsDetached(s1, t, m);
      AddWaiterDetached(WithMem(s1, m), s.handles[ClearMask(s.mem[a])], t);
    }
  }

  lemma {:induction false} SignalLoopIdles(d: Setup, s: State, k: Addr, count: int, num: nat, it: Option<Tid>)
    requires Inv(s) && Words(d, s) && CondIdle(d, s) && ValidCursor(s, it)
    ensures Idles(d, s, SignalLoop(s, k, count, num, it).s) && !Skips(s, k, count, num, it)
    decreases |CondMembers(s)|
  {
    if Continues(s, k, count, num, it) {
      var t := it.value;
      var s1, n := SignalTarget(s, t), Next(s.cond, t);
      SignalTargetKeepsInv(s, t);
      CursorSurvives(s, t);
      MembersShrink(s, s1, t);
      SignalTargetSafe(d, s, t);
      SignalTargetIdles(d, s, t);
      IdlesKeeps(d, s, s1);
      NoSkip(d, s, k, t);
      SignalLoopIdles(d, s1, k, count, num + 1, n);
      IdlesTrans(d, s, s1, SignalLoop(s1, k, count, num + 1, n).s);
    }
  }

  lemma NoSkip(d: Setup, s: State, k: Addr, t: Tid)
    requires Inv(s) && Words(d, s) && CondIdle(d, s) && t in s.threads && s.threads[t].tree == InCond
    ensures !SkipsOne(s, k, t)
  {
    if RaisedBy(s, t).Some? && RaisedBy(s, t).value in s.threads {
      RaisedAwake(d, s, t);
      assert ThreadLinks(s, RaisedBy(s, t).value);
    }
  }

  /** In such a state a signal clears the flag exactly if nobody waits on the key any more. */
  lemma SignalFlagExact(d: Setup, s: State, k: Addr, count: int)
    requires Inv(s) && Words(d, s) && CondIdle(d, s)
    ensures Clears(s, k, count) <==> !Waiting(Signal(s, k, count), k)
  {
    FirstValid(s, k);
    SignalClearsExactly(s, k, count);
    SignalLoopIdles(d, s, k, count, 0, FirstFrom(s.threads, s.cond, k));
  }

  lemma SignalKeepsFlags(d: Setup, s: State, k: Addr, count: int)
    requires Inv(s) && Flagged(d, s) && k in d.keys
    ensures CondIdle(d, Signal(s, k, count)) && FlagsSet(Signal(s, k, count))
  {
    FirstValid(s, k);
    var f := FirstFrom(s.threads, s.cond, k);
    var r := SignalLoop(s, k, count, 0, f);
    var s' := Signal(s, k, count);
    SignalLoopIdles(d, s, k, count, 0, f);
    IdlesKeeps(d, s, r.s);
    SignalFlagExact(d, s, k, count);
    forall t: Tid, a: Addr | t in s'.threads && s'.threads[t].tree == InCond ensures !Holds(d, s', t, a) {
      assert !Holds(d, r.s, t, a);
    }
    forall t | t in s'.threads && s'.threads[t].tree == InCond && s'.threads[t].cvKey in s'.mem
      ensures s'.mem[s'.threads[t].cvKey] == 1
    {
      assert Clears(s, k, count) ==> s'.threads[t].cvKey != k;
    }
  }

  // ----- The other steps -----

  lemma QuietIdles(d: Setup, s: State, s': State)
    requires Quiet(Setup(d.tags, d.locks + d.keys, {}), s, s')
    ensures Idles(d, s, s')
  {
    forall a | a in d.locks + d.keys ensures SameWord(s, s', a) {}
    forall t | t in s.threads ensures IdlesOne(d, s, s', t) {
      assert SameWait(s, s', t);
      forall a | Holds(d, s', t, a) ensures Holds(d, s, t, a) { assert SameWord(s, s', a); }
    }
  }

  /** A lock given up: its next owner is awake. */
  lemma GiveUpIdles(d: Setup, s: State, cur: Tid, addr: Addr, m: map<Addr, Word>)
    requires Inv(s) && Words(d, s) && Running(s, cur) && Holds(d, s, cur, addr)
    requires addr in m && forall a {:trigger SameWord(s, WithMem(s, m), a)} :: a in d.locks ==> SameWord(s, WithMem(s, m), a)
    ensures var s' := GiveUp(s, cur, addr, Success, m);
            && s'.threads.Keys == s.threads.Keys && s'.mem == Store(m, addr, s'.mem[addr])
            && (forall t {:trigger IdlesOne(d, s, s', t)} :: t in s.threads ==> IdlesOne(d, s, s', t))
            && (forall a {:trigger SameWord(s, s', a)} :: a in d.locks && a != addr ==> SameWord(s, s', a))
  {
    RunningUnlinked(s, cur);
    var h := RemoveWaiterByKey(s, cur, addr);
    var s' := GiveUp(s, cur, addr, Success, m);
    HandedDetached(s, cur, addr);
    NextWord(d, s, h, cur, addr);
    GiveUpFields(s, cur, addr, m);
    forall a | a in d.locks && a != addr ensures SameWord(s, s', a) { assert SameWord(s, WithMem(s, m), a); }
    forall t | t in s.threads ensures IdlesOne(d, s, s', t) {
      assert SameFields(s, s', t);
      forall a | s'.threads[t].tree == InCond && Holds(d, s', t, a) ensures Holds(d, s, t, a) {
        AwakeGains(d, s, s', h, cur, addr, t, a);
      }
    }
  }

  lemma AwakeGains(d: Setup, s: State, s': State, h: Handed, cur: Tid, addr: Addr, t: Tid, a: Addr)
    requires Inv(s) && SetupOk(d, s) && t in s.threads && s.threads[t].tree == InCond && Holds(d, s', t, a)
    requires h.next.Some? ==> h.next.value in s.threads && OwnerOf(s, h.next.value).Some? && TagOfNext(d, h)
    requires h.next.None? ==> NextValue(h) == 0
    requires a != addr ==> SameWord(s, s', a)
    requires a == addr ==> s'.mem[addr] == NextValue(h)
    ensures Holds(d, s, t, a)
  {
    if h.next.Some? { assert Settled(s, h.next.value) && ThreadLinks(s, h.next.value); }
    MaskFacts(0);
  }

  lemma UnlockIdles(d: Setup, s: State, cur: Tid, addr: Addr)
    requires Inv(s) && Words(d, s) && Running(s, cur) && Holds(d, s, cur, addr)
    ensures Idles(d, s, SignalToAddress(s, cur, addr).s)
  {
    GiveUpIdles(d, s, cur, addr, s.mem);
  }

  lemma ArbitrateLockIdles(d: Setup, s: State, cur: Tid, handle: Word, addr: Addr, tag: Word)
    requires Inv(s) && Running(s, cur)
    ensures Idles(d, s, WaitForAddress(s, cur, handle, addr, tag).s)
  {
    var s' := WaitForAddress(s, cur, handle, addr, tag).s;
    RunningUnlinked(s, cur);
    if WaitForAddress(s, cur, handle, addr, tag).returned.None? { WaitForOwnerFields(s, cur, s.handles[handle], addr, tag); }
    forall t | t in s.threads ensures IdlesOne(d, s, s', t) { assert t != cur && s' != s ==> SameFields(s, s', t); }
  }

  lemma UserStoreIdles(d: Setup, s: State, cur: Tid, addr: Addr, w: Word)
    requires Inv(s) && Words(d, s) && Running(s, cur) && Obeys(d, s, UserStore(cur, addr, w))
    ensures Idles(d, s, WithMem(s, Store(s.mem, addr, w)))
  {
    var s' := WithMem(s, Store(s.mem, addr, w));
    RunningUnlinked(s, cur);
    forall t, a | t in s.threads && s.threads[t].tree == InCond && Holds(d, s', t, a) ensures Holds(d, s, t, a) {
      if a == addr { MoveGains(d, s, cur, t, s.mem[addr], w); }
    }
    forall t | t in s.threads ensures IdlesOne(d, s, s', t) {}
  }

  lemma MoveGains(d: Setup, s: State, cur: Tid, t: Tid, was: Word, w: Word)
    requires SetupOk(d, s) && WordOk(d, was) && UserMove(d, cur, was, w) && t in d.tags && t != cur && ClearMask(w) == d.tags[t]
    ensures ClearMask(was) == d.tags[t]
  {
    MaskFacts(0);
    MaskFacts(d.tags[cur]);
    if was != 0 {
      var h :| h in d.tags && (was == d.tags[h] || was == d.tags[h] + WAIT_MASK);
      MaskFacts(d.tags[h]);
    }
  }

  lemma WaitKeepsFlags(d: Setup, s: State, cur: Tid, addr: Addr, key: Addr, timeout: int)
    requires Inv(s) && Flagged(d, s) && Running(s, cur) && key in d.keys && Holds(d, s, cur, addr)
    requires forall b :: Holds(d, s, cur, b) ==> b == addr
    ensures var s' := Wait(s, cur, addr, key, d.tags[cur], timeout).s; CondIdle(d, s') && FlagsSet(s')
  {
    if !s.threads[cur].dying {
      var m := Store(s.mem, key, 1);
      var s1 := GiveUp(s, cur, addr, Success, m);
      GiveUpKeepsInv(s, cur, addr, Success, m);
      GiveUpSafe(d, s, cur, addr, m);
      GiveUpIdles(d, s, cur, addr, m);
      ReleasedFlags(d, s, s1, cur, addr, key);
      if timeout != 0 {
        RunningUnlinked(s1, cur);
        SleepOnFields(s1, cur, addr, key, d.tags[cur]);
        SleptFlags(d, s, s1, SleepOn(s1, cur, addr, key, d.tags[cur]), cur, addr, key);
      }
    }
  }

  lemma ReleasedFlags(d: Setup, s: State, s1: State, cur: Tid, addr: Addr, key: Addr)
    requires Flagged(d, s) && key in d.keys && addr in d.locks && addr in s.mem && addr in s1.mem
    requires s1.threads.Keys == s.threads.Keys && s1.mem == Store(Store(s.mem, key, 1), addr, s1.mem[addr])
    requires forall t {:trigger IdlesOne(d, s, s1, t)} :: t in s.threads ==> IdlesOne(d, s, s1, t)
    ensures CondIdle(d, s1) && FlagsSet(s1) && (key in s1.mem ==> s1.mem[key] == 1)
  {
    forall t: Tid, a: Addr | t in s1.threads && s1.threads[t].tree == InCond ensures !Holds(d, s1, t, a) {
      assert IdlesOne(d, s, s1, t);
      assert Holds(d, s1, t, a) ==> Holds(d, s, t, a);
    }
    forall t | t in s1.threads && s1.threads[t].tree == InCond && s1.threads[t].cvKey in s1.mem
      ensures s1.mem[s1.threads[t].cvKey] == 1
    {
      assert IdlesOne(d, s, s1, t) && ThreadWords(d, s, t);
    }
  }

  lemma SleptFlags(d: Setup, s: State, s1: State, s2: State, cur: Tid, addr: Addr, key: Addr)
    requires CondIdle(d, s1) && FlagsSet(s1) && (key in s1.mem ==> s1.mem[key] == 1)
    requires cur in d.tags && Slept(s1, s2, cur, addr, key, d.tags[cur]) && !Holds(d, s1, cur, addr)
    requires forall b :: Holds(d, s, cur, b) ==> b == addr
    requires forall a {:trigger SameWord(s, s1, a)} :: a in d.locks && a != addr ==> SameWord(s, s1, a)
    ensures CondIdle(d, s2) && FlagsSet(s2)
  {
    forall t: Tid, a: Addr | t in s2.threads && s2.threads[t].tree == InCond ensures !Holds(d, s2, t, a) {
      assert Holds(d, s2, t, a) <==> Holds(d, s1, t, a);
      if t == cur && a in d.locks && a != addr {
        assert SameWord(s, s1, a);
        assert Holds(d, s1, cur, a) ==> Holds(d, s, cur, a);
      }
    }
  }

  // ----- Runs -----

  /** A thread waits on a condition variable holding only the lock it waits with. */
  ghost predicate Monitor(d: Setup, s: State, a: Action) {
    a.WaitProcessWideKey? ==> forall b :: Holds(d, s, a.cur, b) ==> b == a.addr
  }

  lemma StepKeepsFlags(d: Setup, s: State, a: Action)
    requires Inv(s) && Flagged(d, s) && Enabled(s, a) && Obeys(d, s, a) && Monitor(d, s, a)
    ensures Flagged(d, Apply(s, a))
  {
    StepSafe(d, s, a);
    if a.WaitProcessWideKey? { WaitKeepsFlags(d, s, a.cur, a.addr, a.key, a.timeout); }
    else if a.SignalProcessWideKey? { SignalKeepsFlags(d, s, a.key, a.count); }
    else { StepIdles(d, s, a); IdlesKeeps(d, s, Apply(s, a)); }
  }

  lemma StepIdles(d: Setup, s: State, a: Action)
    requires Inv(s) && Words(d, s) && Enabled(s, a) && Obeys(d, s, a) && !a.WaitProcessWideKey? && !a.SignalProcessWideKey?
    ensures Idles(d, s, Apply(s, a))
  {
    if a.ArbitrateLock? { ArbitrateLockIdles(d, s, a.cur, a.handle, a.addr, a.tag); }
    else if a.ArbitrateUnlock? { UnlockIdles(d, s, a.cur, a.addr); }
    else if a.UserStore? { UserStoreIdles(d, s, a.cur, a.addr, a.w); }
    else {
      QuietStep(Setup(d.tags, d.locks + d.keys, {}), s, a);
      QuietIdles(d, s, Apply(s, a));
    }
  }

  ghost predicate MonitorRun(d: Setup, s: State, run: seq<Action>)
    requires Inv(s)
    decreases run
  {
    run != [] ==>
      Enabled(s, run[0]) && Obeys(d, s, run[0]) && Monitor(d, s, run[0])
      && (StepKeepsInv(s, run[0]); MonitorRun(d, Apply(s, run[0]), run[1..]))
  }

  /** In every run of monitor-style code the flag of every key somebody waits on is set, so a
      signaller that reads 0 may skip the system call. */
  lemma {:induction false} FlagsInRuns(d: Setup, s: State, run: seq<Action>)
    requires Inv(s) && Flagged(d, s) && MonitorRun(d, s, run)
    ensures Flagged(d, Exec(s, run))
    decreases run
  {
    if run != [] {
      StepKeepsInv(s, run[0]);
      StepKeepsFlags(d, s, run[0]);
      FlagsInRuns(d, Apply(s, run[0]), run[1..]);
    }
  }

  // ----- Where runs start -----

  /** Every thread runs at its base priority and nothing is locked or awaited. */
  ghost predicate Started(d: Setup, s: State) {
    && s.locks == map[] && s.cond == [] && s.arb == [] && HandlesKnown(s) && SetupOk(d, s)
    && (forall t :: t in s.threads ==> Unused(s.threads[t]))
    && (forall a :: a in d.locks && a in s.mem ==> s.mem[a] == 0)
  }

  predicate Unused(x: Thread) { x.prio == x.base && x.queue == NoQueue && x.tree == NoTree && x.lock == None && x.held == [] }

  /** Runs start in states where all of this holds. */
  lemma StartedFlagged(d: Setup, s: State)
    requires Started(d, s)
    ensures Inv(s) && Flagged(d, s)
  {
    forall t | t in s.threads ensures ThreadLinks(s, t) && Settled(s, t) && ThreadWords(d, s, t) && Inherits(s, t) {
      assert Unused(s.threads[t]);
    }
  }
}
