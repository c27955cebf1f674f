/** When a signal strands a thread if the waiters of the key share one lock, which is how condition
    variables are used: exactly then the first state alone decides, for every count. */
module SharedLock {
  import opened Basics
  import opened WaitTrees
  import opened KernelState
  import opened PriorityInheritance
  import opened WaiterLists
  import opened WaitSteps
  import opened ConditionVariable
  import opened TreeOrder
  import opened SignalFlag
  import LW = LockWords
  import CO = CallOutcomes

  /** The value that `t` would store into its lock names `t`. */
  predicate NamesSelf(s: State, t: Tid) {
    && t in s.threads && s.threads[t].val != 0
    && ClearMask(s.threads[t].val) in s.handles && s.handles[ClearMask(s.threads[t].val)] == t
  }

  /** All waiters of the key wait with the lock at `a`; if it is free, their values name them. */
  ghost predicate Shared(s: State, k: Addr, a: Addr) {
    forall y {:trigger Under(s, k, y)} :: Under(s, k, y) ==>
      s.threads[y].key == a && (a in s.mem && s.mem[a] == 0 ==> NamesSelf(s, y))
  }

  // ----- One iteration -----

  /** What signalling `t` does apart from priorities and trees. */
  ghost predicate Signalled(s: State, s': State, t: Tid)
    requires t in s.threads
  {
    var a := s.threads[t].key;
    && s'.threads.Keys == s.threads.Keys && s'.handles == s.handles
    && (forall w {:trigger OwnerOf(s', w)} :: OwnerOf(s', w) == if w == t then HolderFor(s, t) else OwnerOf(s, w))
    && (forall y {:trigger s'.threads[y]} :: y in s.threads ==> s'.threads[y].key == s.threads[y].key && s'.threads[y].val == s.threads[y].val)
    && s'.mem == if a !in s.mem then s.mem else s.mem[a := if s.mem[a] == 0 then s.threads[t].val else OrMask(s.mem[a])]
  }

  lemma TargetSignalled(s: State, t: Tid)
    requires Inv(s) && t in s.threads && s.threads[t].tree == InCond
    ensures Signalled(s, SignalTarget(s, t), t) && OwnerOf(s, t) == None
  {
    assert Settled(s, t) && ThreadLinks(s, t);
    LeaveDetaches(s, t);
    ImplSignalled(LeaveTree(s, t), t);
  }

  lemma ImplSignalled(s: State, t: Tid)
    requires Detached(s, t)
    ensures Signalled(s, SignalImpl(s, t), t)
  {
    var a := s.threads[t].key;
    if a in s.mem && s.mem[a] != 0 && ClearMask(s.mem[a]) in s.handles {
      var s1 := WithMem(s, s.mem[a := OrMask(s.mem[a])]);
      MemKeepsDetached(s, t, s1.mem);
      AddWaiterDetached(s1, s.handles[ClearMask(s.mem[a])], t);
      var s' := SignalImpl(s, t);
      forall y | y in s.threads ensures s'.threads[y].key == s.threads[y].key && s'.threads[y].val == s.threads[y].val {
        assert Alike(s1, s', y);
      }
    } else {
      assert OwnerOf(s, t) == None;
    }
  }

  lemma MaskStays(w: Word)
    ensures OrMask(w) != 0 && ClearMask(OrMask(w)) == ClearMask(w)
  {
    assert !Masked(w) ==> (w + WAIT_MASK) / WAIT_MASK == w / WAIT_MASK + 1;
  }

  /** A path of owners that does not return to `h` has not passed `t`, which waits for `h`. */
  lemma {:induction false} EndBack(s: State, s': State, x: Tid, seen: set<Tid>, others: set<Tid>, h: Tid, t: Tid)
    requires s'.threads.Keys == s.threads.Keys && others <= seen + {t} && (h in seen || h == x)
    requires forall w {:trigger OwnerOf(s', w)} :: OwnerOf(s', w) == if w == t then Some(h) else OwnerOf(s, w)
    requires EndFrom(s', x, seen).Some?
    ensures EndFrom(s, x, others) == EndFrom(s', x, seen)
    decreases s.threads.Keys - seen
  {
    assert x in s.threads.Keys - seen && x !in s.threads.Keys - (seen + {x});
    assert x != t;
    if OwnerOf(s, x).Some? { EndBack(s, s', OwnerOf(s, x).value, seen + {x}, others + {x}, h, t); }
  }

  /** Whom a remaining waiter would raise, `t` has raised, and it would have raised it before. */
  lemma RaisedAfter(s: State, k: Addr, a: Addr, t: Tid, y: Tid)
    requires Inv(s) && Shared(s, k, a) && Under(s, k, t) && s.threads[t].tree == InCond && Under(s, k, y) && y != t
    requires var s' := SignalTarget(s, t);
             y in s'.threads && RaisedBy(s', y).Some? && Under(s', k, RaisedBy(s', y).value)
    ensures RaisedBy(s, t) == RaisedBy(s, y) == RaisedBy(SignalTarget(s, t), y)
  {
    var s' := SignalTarget(s, t);
    TargetSignalled(s, t);
    UnderAfter(s, t, k, RaisedBy(s', y).value);
    assert s.threads[t].key == a && s.threads[y].key == a && s'.threads[y].key == a;
    if s.mem[a] != 0 {
      MaskStays(s.mem[a]);
      var h := HolderFor(s, t).value;
      assert HolderFor(s', y) == HolderFor(s, y) == Some(h);
      EndBack(s, s', h, {y}, {t}, h, t);
      EndBack(s, s', h, {y}, {y}, h, t);
    }
  }

  // ----- After the first iteration -----

  /** No waiter is better than `p`, and whom a waiter would raise is as good as that already. */
  ghost predicate Calm(s: State, k: Addr, a: Addr, p: int) {
    && Shared(s, k, a) && (a in s.mem ==> s.mem[a] != 0)
    && (forall y {:trigger Under(s, k, y)} :: Under(s, k, y) ==> p <= s.threads[y].prio && RaisesLow(s, k, y, p))
  }

  ghost predicate RaisesLow(s: State, k: Addr, y: Tid, p: int)
    requires y in s.threads
  {
    var e := RaisedBy(s, y);
    e.Some? && Under(s, k, e.value) ==> s.threads[e.value].prio <= p
  }

  /** From the first iteration on the waiters are calm. */
  lemma CalmAfter(s: State, k: Addr, a: Addr, p: int, t: Tid)
    requires Inv(s) && Shared(s, k, a) && Under(s, k, t) && s.threads[t].tree == InCond
    requires forall y {:trigger Under(s, k, y)} :: Under(s, k, y) ==> p <= s.threads[y].prio
    requires s.threads[t].prio == p || Calm(s, k, a, p)
    ensures Calm(SignalTarget(s, t), k, a, p)
  {
    var s' := SignalTarget(s, t);
    TargetSignalled(s, t);
    if a in s.mem { MaskStays(s.mem[a]); }
    forall y | Under(s', k, y) ensures s'.threads[y].key == a && p <= s'.threads[y].prio && RaisesLow(s', k, y, p) {
      UnderAfter(s, t, k, y);
      PriorityAfter(s, t, y);
      CalmOne(s, k, a, p, t, y);
    }
  }

  lemma CalmOne(s: State, k: Addr, a: Addr, p: int, t: Tid, y: Tid)
    requires Inv(s) && Shared(s, k, a) && Under(s, k, t) && s.threads[t].tree == InCond && Under(s, k, y) && y != t
    requires s.threads[t].prio == p || Calm(s, k, a, p)
    ensures y in SignalTarget(s, t).threads && RaisesLow(SignalTarget(s, t), k, y, p)
  {
    var s' := SignalTarget(s, t);
    UnderAfter(s, t, k, y);
    var e := RaisedBy(s', y);
    if e.Some? && Under(s', k, e.value) {
      RaisedAfter(s, k, a, t, y);
      UnderAfter(s, t, k, e.value);
      PriorityAfter(s, t, e.value);
    }
  }

  /** Calm waiters do not move. */
  lemma CalmStays(s: State, k: Addr, a: Addr, p: int, t: Tid, y: Tid)
    requires Calm(s, k, a, p) && Under(s, k, t) && Under(s, k, y)
    ensures !Mover(s, t, y)
  {
  }

  lemma CalmNoSkip(s: State, k: Addr, a: Addr, p: int, t: Tid)
    requires Inv(s) && Under(s, k, t) && s.threads[t].tree == InCond && Aligned(s, k, Some(t)) && Calm(s, k, a, p)
    ensures !SkipsOne(s, k, t)
  {
    if SkipsOne(s, k, t) {
      var z, e := Next(s.cond, t).value, RaisedBy(s, t).value;
      StepSkips(s, k, t);
      NextIs(s.threads, s.cond, t, e);
      BeforeLe(ByKeyThenPriority, s.threads, s.cond, t, z);
      BeforeLe(ByKeyThenPriority, s.threads, s.cond, z, e);
      CalmStays(s, k, a, p, t, e);
    }
  }

  lemma {:induction false} CalmNeverSkips(s: State, k: Addr, a: Addr, p: int, count: int, num: nat, it: Option<Tid>)
    requires Inv(s) && ValidCursor(s, it) && Aligned(s, k, it) && Calm(s, k, a, p)
    ensures !Skips(s, k, count, num, it)
    decreases |CondMembers(s)|
  {
    if Continues(s, k, count, num, it) {
      var t := it.value;
      assert ThreadLinks(s, t);
      SignalTargetKeepsInv(s, t);
      CursorSurvives(s, t);
      MembersShrink(s, SignalTarget(s, t), t);
      CalmNoSkip(s, k, a, p, t);
      StepAligned(s, k, t);
      CalmAfter(s, k, a, p, t);
      CalmNeverSkips(SignalTarget(s, t), k, a, p, count, num + 1, Next(s.cond, t));
    }
  }

  // ----- How many iterations there are -----

  ghost function Group(s: State, k: Addr): set<Tid> { set y | y in s.threads && Under(s, k, y) }

  /** The waiters at or behind the iterator. */
  ghost function Behind(s: State, k: Addr, it: Option<Tid>): set<Tid> {
    set y | y in s.threads && Under(s, k, y) && it.Some? && (y == it.value || Before(s.cond, it.value, y))
  }

  /** A thread that does not move stays in front of the iterator or behind it. */
  lemma SideStays(s: State, k: Addr, t: Tid, z: Tid, y: Tid)
    requires Inv(s) && Under(s, k, t) && s.threads[t].tree == InCond && Next(s.cond, t) == Some(z)
    requires Under(s, k, y) && y != t && y != z && !Mover(s, t, y) && (Under(s, k, z) ==> !Mover(s, t, z))
    ensures Before(SignalTarget(s, t).cond, z, y) <==> Before(s.cond, t, y)
  {
    var s' := SignalTarget(s, t);
    NextDistinct(ByKeyThenPriority, s.threads, s.cond, t);
    QueuedIn(ByKeyThenPriority, s.threads, s.cond, z);
    SignalTargetKeepsInv(s, t);
    assert SameTree(s, s', z) && SameTree(s, s', y);
    NextIs(s.threads, s.cond, t, y);
    BeforeLe(ByKeyThenPriority, s.threads, s.cond, t, z);
    if Before(s.cond, z, y) {
      BeforeTrans(ByKeyThenPriority, s.threads, s.cond, t, z, y);
      BeforeLe(ByKeyThenPriority, s.threads, s.cond, z, y);
    }
    if Under(s, k, z) { Positions(s, t, z, y); }
    else if Before(s'.cond, z, y) { BeforeLe(ByKeyThenPriority, s'.threads, s'.cond, z, y); }
  }

  lemma BehindNext(s: State, k: Addr, t: Tid, gone: set<Tid>)
    requires Inv(s) && Under(s, k, t) && s.threads[t].tree == InCond && t in gone
    requires forall y {:trigger Under(s, k, y)} :: Under(s, k, y) && y !in gone ==> !Mover(s, t, y)
    requires Next(s.cond, t).Some? ==> Next(s.cond, t).value !in gone
    requires forall y {:trigger Under(s, k, y)} :: Under(s, k, y) && y in gone && y != t && Next(s.cond, t).Some? ==>
               !Before(SignalTarget(s, t).cond, Next(s.cond, t).value, y)
    ensures Behind(SignalTarget(s, t), k, Next(s.cond, t)) == Behind(s, k, Some(t)) - gone
  {
    var s', z := SignalTarget(s, t), Next(s.cond, t);
    forall y ensures y in Behind(s', k, z) <==> y in Behind(s, k, Some(t)) - gone {
      UnderAfter(s, t, k, y);
      if y != t && Under(s, k, y) {
        NextIs(s.threads, s.cond, t, y);
        if z.Some? && y != z.value && y !in gone { SideStays(s, k, t, z.value, y); }
      }
    }
  }

  lemma NextAtLeast(s: State, k: Addr, t: Tid)
    requires Inv(s) && Under(s, k, t) && s.threads[t].tree == InCond
    ensures AtLeast(SignalTarget(s, t), k, Next(s.cond, t))
  {
    var z := Next(s.cond, t);
    if z.Some? {
      SignalTargetKeepsInv(s, t);
      NextDistinct(ByKeyThenPriority, s.threads, s.cond, t);
      NextIs(s.threads, s.cond, t, z.value);
      BeforeLe(ByKeyThenPriority, s.threads, s.cond, t, z.value);
      assert SameTree(s, SignalTarget(s, t), z.value);
    }
  }

  lemma BehindEmpty(s: State, k: Addr, it: Option<Tid>)
    requires Inv(s) && ValidCursor(s, it) && AtLeast(s, k, it)
    ensures Behind(s, k, it) == {} <==> it.None? || s.threads[it.value].cvKey != k
  {
    if it.Some? {
      assert ThreadLinks(s, it.value);
      if s.threads[it.value].cvKey == k { assert it.value in Behind(s, k, it); }
      forall y | y in Behind(s, k, it) && s.threads[it.value].cvKey != k ensures false {
        BeforeLe(ByKeyThenPriority, s.threads, s.cond, it.value, y);
      }
    }
  }

  /** An iteration among calm waiters takes its target from those at or behind the iterator. */
  lemma CalmStep(s: State, k: Addr, a: Addr, p: int, t: Tid)
    requires Inv(s) && Under(s, k, t) && s.threads[t].tree == InCond && Calm(s, k, a, p)
    ensures Calm(SignalTarget(s, t), k, a, p) && AtLeast(SignalTarget(s, t), k, Next(s.cond, t))
    ensures |Behind(SignalTarget(s, t), k, Next(s.cond, t))| == |Behind(s, k, Some(t))| - 1
  {
    CalmAfter(s, k, a, p, t);
    NextAtLeast(s, k, t);
    forall y | Under(s, k, y) && y !in {t} ensures !Mover(s, t, y) { CalmStays(s, k, a, p, t, y); }
    if Next(s.cond, t).Some? { NextDistinct(ByKeyThenPriority, s.threads, s.cond, t); }
    BehindNext(s, k, t, {t});
    assert t in Behind(s, k, Some(t));
  }

  /** Among calm waiters the loop leaves the key's threads exactly if the count suffices for those
      at or behind the iterator. */
  lemma {:induction false} LoopCounts(s: State, k: Addr, a: Addr, p: int, count: int, num: nat, it: Option<Tid>)
    requires Inv(s) && ValidCursor(s, it) && AtLeast(s, k, it) && Calm(s, k, a, p) && num <= count && 0 < count
    ensures LeftGroup(SignalLoop(s, k, count, num, it), k) <==> num + |Behind(s, k, it)| <= count
    decreases |CondMembers(s)|
  {
    BehindEmpty(s, k, it);
    if Continues(s, k, count, num, it) {
      var s', z, m := SignalTarget(s, it.value), Next(s.cond, it.value), num + 1;
      assert ThreadLinks(s, it.value);
      LoopOn(s, k, count, num, it.value);
      CalmStep(s, k, a, p, it.value);
      LoopCounts(s', k, a, p, count, m, z);
    }
  }

  // ----- The whole signal -----

  /** The first iteration skips a thread: the first waiter is better than the second, and the thread
      for which the lock's holder waits, through owners, is another waiter of the key. */
  ghost predicate SkipsFirst(s: State, k: Addr) {
    var f := FirstFrom(s.threads, s.cond, k);
    f.Some? && Under(s, k, f.value) && SkipsOne(s, k, f.value)
  }

  /** The flag is cleared although somebody still waits. */
  ghost predicate Strands(s: State, k: Addr, count: int)
    requires Inv(s)
  {
    Clears(s, k, count) && Waiting(Signal(s, k, count), k)
  }

  /** All waiters are at or behind the first one, and not better than it. */
  lemma FirstLeads(s: State, k: Addr, t: Tid)
    requires Inv(s) && FirstFrom(s.threads, s.cond, k) == Some(t) && Under(s, k, t)
    ensures Aligned(s, k, Some(t)) && Behind(s, k, Some(t)) == Group(s, k)
    ensures forall y {:trigger Under(s, k, y)} :: Under(s, k, y) ==> s.threads[t].prio <= s.threads[y].prio
  {
    forall y | Under(s, k, y) ensures (y == t || Before(s.cond, t, y)) && s.threads[t].prio <= s.threads[y].prio {
      FirstAligned(s.threads, s.cond, k, y);
      if y != t { BeforeLe(ByKeyThenPriority, s.threads, s.cond, t, y); }
    }
  }

  /** The waiters that the first iteration leaves at or behind the iterator. */
  lemma FirstStep(s: State, k: Addr, t: Tid)
    requires Inv(s) && FirstFrom(s.threads, s.cond, k) == Some(t) && Under(s, k, t) && s.threads[t].tree == InCond
    ensures |Behind(SignalTarget(s, t), k, Next(s.cond, t))| == |Group(s, k)| - if SkipsOne(s, k, t) then 2 else 1
  {
    FirstLeads(s, k, t);
    assert t in Group(s, k);
    if SkipsOne(s, k, t) { FirstSkips(s, k, t); }
    else {
      StepAligned(s, k, t);
      BehindAll(s, k, t);
    }
  }

  lemma BehindAll(s: State, k: Addr, t: Tid)
    requires Inv(s) && Under(s, k, t) && s.threads[t].tree == InCond && Aligned(SignalTarget(s, t), k, Next(s.cond, t))
    ensures Behind(SignalTarget(s, t), k, Next(s.cond, t)) == Group(s, k) - {t}
  {
    var s', z := SignalTarget(s, t), Next(s.cond, t);
    forall y ensures y in Behind(s', k, z) <==> y in Group(s, k) - {t} { UnderAfter(s, t, k, y); }
  }

  lemma FirstSkips(s: State, k: Addr, t: Tid)
    requires Inv(s) && Under(s, k, t) && s.threads[t].tree == InCond && Aligned(s, k, Some(t)) && Behind(s, k, Some(t)) == Group(s, k)
    requires SkipsOne(s, k, t)
    ensures |Behind(SignalTarget(s, t), k, Next(s.cond, t))| == |Group(s, k)| - 2
  {
    var e, g := RaisedBy(s, t).value, Group(s, k);
    StepSkips(s, k, t);
    NextDistinct(ByKeyThenPriority, s.threads, s.cond, t);
    BehindNext(s, k, t, {t, e});
    assert t in g && e in g - {t} && g - {t, e} == g - {t} - {e};
  }

  /** Only the first iteration can skip a thread. */
  lemma OnlyFirstSkips(s: State, k: Addr, a: Addr, count: int, t: Tid)
    requires Inv(s) && Shared(s, k, a) && FirstFrom(s.threads, s.cond, k) == Some(t) && Under(s, k, t) && ValidCursor(s, Some(t))
    ensures Skips(s, k, count, 0, Some(t)) <==> SkipsOne(s, k, t)
  {
    FirstLeads(s, k, t);
    SignalTargetKeepsInv(s, t);
    CursorSurvives(s, t);
    MembersShrink(s, SignalTarget(s, t), t);
    if !SkipsOne(s, k, t) {
      StepAligned(s, k, t);
      CalmAfter(s, k, a, s.threads[t].prio, t);
      CalmNeverSkips(SignalTarget(s, t), k, a, s.threads[t].prio, count, 1, Next(s.cond, t));
    }
  }

  /** If a count is given, the flag is cleared exactly if it suffices for the waiters not skipped. */
  lemma ClearsCount(s: State, k: Addr, a: Addr, count: int, t: Tid)
    requires Inv(s) && Shared(s, k, a) && FirstFrom(s.threads, s.cond, k) == Some(t) && Under(s, k, t) && ValidCursor(s, Some(t)) && count > 0
    ensures LeftGroup(SignalLoop(s, k, count, 0, Some(t)), k) <==> |Group(s, k)| - (if SkipsOne(s, k, t) then 1 else 0) <= count
  {
    FirstLeads(s, k, t);
    SignalTargetKeepsInv(s, t);
    CursorSurvives(s, t);
    MembersShrink(s, SignalTarget(s, t), t);
    CalmAfter(s, k, a, s.threads[t].prio, t);
    NextAtLeast(s, k, t);
    FirstStep(s, k, t);
    LoopCounts(SignalTarget(s, t), k, a, s.threads[t].prio, count, 1, Next(s.cond, t));
  }

  /** If the first thread from the key on waits on another key, or there is none, nobody waits on it. */
  lemma NobodyWaits(s: State, k: Addr)
    requires Inv(s)
    ensures var f := FirstFrom(s.threads, s.cond, k); f.None? || !Under(s, k, f.value) ==> Group(s, k) == {} && !Waiting(s, k)
  {
    var f := FirstFrom(s.threads, s.cond, k);
    FirstValid(s, k);
    WaitingUnder(s, k);
    if f.Some? { assert ThreadLinks(s, f.value); }
    forall y | Under(s, k, y) ensures f.Some? && Under(s, k, f.value) {
      FirstAligned(s.threads, s.cond, k, y);
      if y != f.value { BeforeLe(ByKeyThenPriority, s.threads, s.cond, f.value, y); }
    }
  }

  /** Told from the first state, for every count: the flag is cleared exactly if the count suffices for
      all waiters, but for one that the first iteration skips, and a thread is stranded exactly if the
      first iteration skips one and the count suffices for the others. */
  lemma SharedLockExact(s: State, k: Addr, a: Addr, count: int)
    requires Inv(s) && Shared(s, k, a)
    ensures Clears(s, k, count) <==> count <= 0 || |Group(s, k)| - (if SkipsFirst(s, k) then 1 else 0) <= count
    ensures Strands(s, k, count) <==> SkipsFirst(s, k) && (count <= 0 || |Group(s, k)| - 1 <= count)
  {
    var f := FirstFrom(s.threads, s.cond, k);
    FirstValid(s, k);
    NobodyWaits(s, k);
    SignalClearsExactly(s, k, count);
    if f.Some? && Under(s, k, f.value) {
      OnlyFirstSkips(s, k, a, count, f.value);
      if count <= 0 { BroadcastExact(s, k, count); } else { ClearsCount(s, k, a, count, f.value); }
    }
  }

  /** A signal of one thread takes exactly the best waiter of the key, if there is one. */
  lemma SignalsBest(s: State, k: Addr)
    requires Inv(s)
    ensures var taken := CO.Taken(s, Signal(s, k, 1));
            if Group(s, k) == {} then taken == {}
            else exists t :: taken == {t} && t in Group(s, k) && forall y {:trigger Under(s, k, y)} :: Under(s, k, y) ==> s.threads[t].prio <= s.threads[y].prio
  {
    var f := FirstFrom(s.threads, s.cond, k);
    FirstValid(s, k);
    NobodyWaits(s, k);
    if f.Some? && Under(s, k, f.value) {
      var t := f.value;
      FirstLeads(s, k, t);
      LoopOn(s, k, 1, 0, t);
      SignalTargetKeepsInv(s, t);
      TakenOne(s, SignalTarget(s, t), Signal(s, k, 1), t);
      assert t in Group(s, k);
    } else {
      assert CO.Taken(s, Signal(s, k, 1)) == {};
    }
  }

  lemma TakenOne(s: State, s1: State, s2: State, t: Tid)
    requires LeftTree(s, s1, t) && t in s.threads && s.threads[t].tree == InCond && s2.threads == s1.threads
    ensures CO.Taken(s, s2) == {t}
  {
    forall x ensures x in CO.Taken(s, s2) <==> x == t { if x in s.threads && x != t { assert SameTree(s, s1, x); } }
  }

  /** In states of the lock protocol it suffices that the waiters name one lock. */
  lemma ProtocolShares(d: LW.Setup, s: State, k: Addr, a: Addr)
    requires Inv(s) && LW.Words(d, s) && forall y {:trigger Under(s, k, y)} :: Under(s, k, y) ==> s.threads[y].key == a
    ensures Shared(s, k, a)
  {
    forall y | Under(s, k, y) ensures NamesSelf(s, y) {
      assert ThreadLinks(s, y) && LW.ThreadWords(d, s, y);
      LW.MaskFacts(d.tags[y]);
    }
  }
}
