/** When `KConditionVariable::Signal` clears the has-waiter flag although threads still wait.

    The signal loop keeps an iterator across signalling a thread.  Signalling may make the thread
    wait for a lock, which can raise the priority of a thread that still waits on the same key and
    re-insert it in front of the iterator; the loop then never sees it. */
module SignalFlag {
  import opened Basics
  import opened WaitTrees
  import opened KernelState
  import opened PriorityInheritance
  import opened WaiterLists
  import opened WaitSteps
  import opened ConditionVariable
  import opened TreeOrder

  // ----- What signalling one thread does to the tree -----

  /** The thread whose lock the signalled thread will wait for. */
  ghost function HolderFor(s: State, t: Tid): Option<Tid>
    requires t in s.threads
  {
    var a := s.threads[t].key;
    if a in s.mem && s.mem[a] != 0 && ClearMask(s.mem[a]) in s.handles then Some(s.handles[ClearMask(s.mem[a])]) else None
  }

  /** The thread that waits for nobody and for which, through owners, `t` will wait. */
  ghost function RaisedBy(s: State, t: Tid): Option<Tid>
    requires t in s.threads
  {
    if HolderFor(s, t).Some? then EndFrom(s, HolderFor(s, t).value, {t}) else None
  }

  lemma SignalTargetLifts(s: State, t: Tid)
    requires Inv(s) && t in s.threads && s.threads[t].tree == InCond
    ensures var s1 := LeaveTree(s, t);
            && Links(s1) && Lifted(s1, SignalTarget(s, t), RaisedBy(s, t), s.threads[t].prio)
  {
    LeaveDetaches(s, t);
    var s1 := LeaveTree(s, t);
    if HolderFor(s, t).None? { SignalImplStays(s1, t); }
    else {
      SignalImplLifts(s1, t, HolderFor(s, t).value);
      EndFrame(s, s1, HolderFor(s, t).value, {t});
    }
  }

  lemma SignalImplStays(s: State, t: Tid)
    requires Detached(s, t) && HolderFor(s, t).None?
    ensures SignalImpl(s, t).cond == s.cond && SameRanks(s.threads, SignalImpl(s, t).threads, s.cond)
  {
    assert ThreadLinks(s, t);
    forall x | x in s.cond ensures SameRank(s.threads, SignalImpl(s, t).threads, x) {
      QueuedIn(ByKeyThenPriority, s.threads, s.cond, x);
    }
  }

  lemma SignalImplLifts(s: State, t: Tid, o: Tid)
    requires Detached(s, t) && HolderFor(s, t) == Some(o)
    ensures Lifted(s, SignalImpl(s, t), EndFrom(s, o, {t}), s.threads[t].prio)
  {
    var a := s.threads[t].key;
    var m := s.mem[a := OrMask(s.mem[a])];
    MemKeepsDetached(s, t, m);
    AddWaiterLifts(WithMem(s, m), o, t);
    EndFrame(s, WithMem(s, m), o, {t});
  }

  // ----- The iterator -----

  /** Every thread that waits under the key is at or behind the iterator. */
  ghost predicate Aligned(s: State, k: Addr, it: Option<Tid>) {
    forall y {:trigger Under(s, k, y)} :: Under(s, k, y) ==> it.Some? && (y == it.value || Before(s.cond, it.value, y))
  }

  predicate Under(s: State, k: Addr, y: Tid) { y in s.cond && y in s.threads && s.threads[y].cvKey == k }

  /** Signalling `t` moves a thread that waits under the key in front of the iterator. */
  ghost predicate SkipsOne(s: State, k: Addr, t: Tid)
    requires t in s.threads
  {
    var z, e := Next(s.cond, t), RaisedBy(s, t);
    && z.Some? && z.value in s.threads && s.threads[t].prio < s.threads[z.value].prio
    && e.Some? && Under(s, k, e.value) && e != z
  }

  lemma {:induction false} NextIs(th: Threads, q: seq<Tid>, t: Tid, y: Tid)
    requires Queued(ByKeyThenPriority, th, q) && t in q
    ensures Next(q, t).Some? ==> Before(q, t, Next(q, t).value)
    ensures Before(q, t, y) ==> Next(q, t).Some? && (y == Next(q, t).value || Before(q, Next(q, t).value, y))
  {
    if q[0] != t { NextIs(th, q[1..], t, y); }
  }

  /** Signalling `t` re-inserts `e` at `t`'s priority. */
  ghost predicate Mover(s: State, t: Tid, e: Tid)
    requires t in s.threads
  {
    RaisedBy(s, t) == Some(e) && e in s.cond && e != t && e in s.threads && s.threads[t].prio < s.threads[e].prio
  }

  /** The order of the tree after signalling `t`. */
  lemma Positions(s: State, t: Tid, y: Tid, z: Tid)
    requires Inv(s) && t in s.threads && s.threads[t].tree == InCond && y != t && z != t
    ensures var s' := SignalTarget(s, t);
            && (y in s'.cond <==> y in s.cond)
            && (!Mover(s, t, y) && !Mover(s, t, z) ==> (Before(s'.cond, y, z) <==> Before(s.cond, y, z)))
            && (Mover(s, t, z) && y != z && y in s.cond ==>
                  y in s.threads && (Before(s'.cond, y, z) <==> Le(ByKeyThenPriority, s.threads[y], SetPrio(s.threads[z], s.threads[t].prio))))
  {
    SignalTargetLifts(s, t);
    assert ThreadLinks(s, t);
    LeaveDetaches(s, t);
    LiftedAfterLeave(s, LeaveTree(s, t), SignalTarget(s, t).cond, t, y, z);
  }

  lemma LiftedAfterLeave(s: State, s1: State, q: seq<Tid>, t: Tid, y: Tid, z: Tid)
    requires Queued(ByKeyThenPriority, s.threads, s.cond) && t in s.threads && t in s.cond && y != t && z != t
    requires s1.cond == Remove(s.cond, t) && s1.threads == s.threads[t := OutOfTree(s.threads[t])]
    requires Queued(ByKeyThenPriority, s1.threads, s1.cond) && q == LiftedTree(s1, RaisedBy(s, t), s.threads[t].prio)
    ensures y in q <==> y in s.cond
    ensures !Mover(s, t, y) && !Mover(s, t, z) ==> (Before(q, y, z) <==> Before(s.cond, y, z))
    ensures Mover(s, t, z) && y != z && y in s.cond ==>
              y in s.threads && (Before(q, y, z) <==> Le(ByKeyThenPriority, s.threads[y], SetPrio(s.threads[z], s.threads[t].prio)))
  {
    var e, p := RaisedBy(s, t), s.threads[t].prio;
    RemoveProperties(ByKeyThenPriority, s.threads, s.cond, t);
    BeforeRemove(s.cond, t, y, z);
    if Moves(s1, e, p) {
      RequeueFrame(s1, e.value, p, s1.cond);
      if y != e.value { LiftedPositions(s1, e.value, p, y, z); }
    }
  }

  /** Who waits under a key changes by `t` only. */
  lemma UnderAfter(s: State, t: Tid, k: Addr, y: Tid)
    requires Inv(s) && t in s.threads && s.threads[t].tree == InCond
    ensures Under(SignalTarget(s, t), k, y) <==> y != t && Under(s, k, y)
  {
    var s' := SignalTarget(s, t);
    SignalTargetKeepsInv(s, t);
    if y in s.threads {
      assert ThreadLinks(s, y) && ThreadLinks(s', y);
      if y != t { assert SameTree(s, s', y); }
    }
  }

  /** Without a skip, a thread behind the target stays behind the iterator. */
  lemma StepBehind(s: State, k: Addr, t: Tid, z: Tid, y: Tid)
    requires Inv(s) && Under(s, k, t) && s.threads[t].tree == InCond && Next(s.cond, t) == Some(z) && !SkipsOne(s, k, t)
    requires Under(s, k, y) && Before(s.cond, t, y) && y != t && z != t
    ensures y == z || Before(SignalTarget(s, t).cond, z, y)
  {
    NextIs(s.threads, s.cond, t, y);
    if y != z {
      BeforeLe(ByKeyThenPriority, s.threads, s.cond, t, z);
      BeforeLe(ByKeyThenPriority, s.threads, s.cond, z, y);
      BeforeIn(s.cond, z, y);
      Positions(s, t, z, y);
      if Mover(s, t, z) {
        Positions(s, t, y, z);
        SignalTargetKeepsInv(s, t);
        BeforeTotal(ByKeyThenPriority, SignalTarget(s, t).threads, SignalTarget(s, t).cond, y, z);
      }
    }
  }

  /** With a skip, the moved thread is in front of the iterator. */
  lemma StepSkips(s: State, k: Addr, t: Tid)
    requires Inv(s) && Under(s, k, t) && s.threads[t].tree == InCond && Aligned(s, k, Some(t)) && SkipsOne(s, k, t)
    ensures !Aligned(SignalTarget(s, t), k, Next(s.cond, t))
    ensures RaisedBy(s, t) != Some(t) && !Before(SignalTarget(s, t).cond, Next(s.cond, t).value, RaisedBy(s, t).value)
  {
    var z, e := Next(s.cond, t).value, RaisedBy(s, t).value;
    EndUnseen(s, HolderFor(s, t).value, {t});
    NextDistinct(ByKeyThenPriority, s.threads, s.cond, t);
    NextIs(s.threads, s.cond, t, e);
    BeforeLe(ByKeyThenPriority, s.threads, s.cond, t, z);
    BeforeLe(ByKeyThenPriority, s.threads, s.cond, z, e);
    Positions(s, t, z, e);
    UnderAfter(s, t, k, e);
  }

  /** A thread in front of the iterator stays there. */
  lemma StepStaysBehind(s: State, k: Addr, t: Tid, y: Tid)
    requires Inv(s) && Under(s, k, t) && s.threads[t].tree == InCond
    requires Under(s, k, y) && y != t && !Before(s.cond, t, y)
    ensures !Aligned(SignalTarget(s, t), k, Next(s.cond, t))
  {
    var s' := SignalTarget(s, t);
    BeforeTotal(ByKeyThenPriority, s.threads, s.cond, y, t);
    BeforeLe(ByKeyThenPriority, s.threads, s.cond, y, t);
    UnderAfter(s, t, k, y);
    if Next(s.cond, t).Some? {
      var z := Next(s.cond, t).value;
      NextDistinct(ByKeyThenPriority, s.threads, s.cond, t);
      NextIs(s.threads, s.cond, t, y);
      BeforeLe(ByKeyThenPriority, s.threads, s.cond, t, z);
      BeforeTrans(ByKeyThenPriority, s.threads, s.cond, y, t, z);
      Positions(s, t, y, z);
      SignalTargetKeepsInv(s, t);
      Positions(s, t, z, y);
      BeforeTotal(ByKeyThenPriority, s'.threads, s'.cond, y, z);
    }
  }

  /** One iteration keeps the threads under the key at or behind the iterator exactly if it does
      not skip one. */
  lemma StepAligned(s: State, k: Addr, t: Tid)
    requires Inv(s) && Under(s, k, t) && s.threads[t].tree == InCond
    ensures Aligned(SignalTarget(s, t), k, Next(s.cond, t)) <==> Aligned(s, k, Some(t)) && !SkipsOne(s, k, t)
  {
    var s', z := SignalTarget(s, t), Next(s.cond, t);
    if !Aligned(s, k, Some(t)) {
      var y :| Under(s, k, y) && !(y == t || Before(s.cond, t, y));
      StepStaysBehind(s, k, t, y);
    } else if SkipsOne(s, k, t) { StepSkips(s, k, t); }
    else {
      forall y | Under(s', k, y) ensures z.Some? && (y == z.value || Before(s'.cond, z.value, y)) {
        UnderAfter(s, t, k, y);
        NextIs(s.threads, s.cond, t, y);
        NextDistinct(ByKeyThenPriority, s.threads, s.cond, t);
        StepBehind(s, k, t, z.value, y);
      }
    }
  }

  // ----- The loop -----

  /** Some iteration of the loop skips a thread. */
  ghost predicate Skips(s: State, k: Addr, count: int, num: nat, it: Option<Tid>)
    requires Inv(s) && ValidCursor(s, it)
    decreases |CondMembers(s)|
  {
    Continues(s, k, count, num, it) &&
    (SkipsOne(s, k, it.value) ||
     (SignalTargetKeepsInv(s, it.value);
      CursorSurvives(s, it.value);
      MembersShrink(s, SignalTarget(s, it.value), it.value);
      Skips(SignalTarget(s, it.value), k, count, num + 1, Next(s.cond, it.value))))
  }

  lemma {:induction false} LoopAligned(s: State, k: Addr, count: int, num: nat, it: Option<Tid>)
    requires Inv(s) && ValidCursor(s, it)
    ensures var r := SignalLoop(s, k, count, num, it);
            Aligned(r.s, k, r.it) <==> Aligned(s, k, it) && !Skips(s, k, count, num, it)
    decreases |CondMembers(s)|
  {
    if Continues(s, k, count, num, it) {
      var t := it.value;
      assert ThreadLinks(s, t);
      SignalTargetKeepsInv(s, t);
      CursorSurvives(s, t);
      MembersShrink(s, SignalTarget(s, t), t);
      StepAligned(s, k, t);
      LoopAligned(SignalTarget(s, t), k, count, num + 1, Next(s.cond, t));
    }
  }

  /** The iterator never falls behind the key. */
  ghost predicate AtLeast(s: State, k: Addr, it: Option<Tid>) {
    it.Some? ==> it.value in s.threads && k <= s.threads[it.value].cvKey
  }

  lemma {:induction false} LoopAtLeast(s: State, k: Addr, count: int, num: nat, it: Option<Tid>)
    requires Inv(s) && ValidCursor(s, it) && AtLeast(s, k, it)
    ensures var r := SignalLoop(s, k, count, num, it); AtLeast(r.s, k, r.it)
    decreases |CondMembers(s)|
  {
    if Continues(s, k, count, num, it) {
      var t, z := it.value, Next(s.cond, it.value);
      assert ThreadLinks(s, t);
      SignalTargetKeepsInv(s, t);
      CursorSurvives(s, t);
      MembersShrink(s, SignalTarget(s, t), t);
      if z.Some? {
        NextIs(s.threads, s.cond, t, z.value);
        BeforeLe(ByKeyThenPriority, s.threads, s.cond, t, z.value);
        assert SameTree(s, SignalTarget(s, t), z.value);
      }
      LoopAtLeast(SignalTarget(s, t), k, count, num + 1, z);
    }
  }

  lemma {:induction false} FirstAligned(th: Threads, q: seq<Tid>, k: Addr, y: Tid)
    requires Queued(ByKeyThenPriority, th, q) && y in q && y in th && th[y].cvKey == k
    ensures var f := FirstFrom(th, q, k); f.Some? && (y == f.value || Before(q, f.value, y))
  {
    if th[q[0]].cvKey < k {
      FirstAligned(th, q[1..], k, y);
      assert FirstFrom(th, q, k).value in q[1..];
    }
  }

  /** Once the iterator has left the key's threads, only skipped threads are left under the key. */
  lemma LeftAligned(s: State, k: Addr, it: Option<Tid>)
    requires Inv(s) && ValidCursor(s, it) && AtLeast(s, k, it) && (it.Some? ==> s.threads[it.value].cvKey != k)
    ensures Aligned(s, k, it) <==> forall y {:trigger Under(s, k, y)} :: !Under(s, k, y)
  {
    if it.Some? {
      forall y | Under(s, k, y) ensures y != it.value && !Before(s.cond, it.value, y) {
        if Before(s.cond, it.value, y) { BeforeLe(ByKeyThenPriority, s.threads, s.cond, it.value, y); }
      }
    }
  }

  /** Some thread waits under the key. */
  ghost predicate Waiting(s: State, k: Addr) {
    exists y :: y in s.threads && s.threads[y].tree == InCond && s.threads[y].cvKey == k
  }

  lemma WaitingUnder(s: State, k: Addr)
    requires Inv(s)
    ensures Waiting(s, k) <==> exists y {:trigger Under(s, k, y)} :: Under(s, k, y)
  {
    if Waiting(s, k) {
      var y :| y in s.threads && s.threads[y].tree == InCond && s.threads[y].cvKey == k;
      assert ThreadLinks(s, y);
      assert Under(s, k, y);
    }
    if y :| Under(s, k, y) { assert ThreadLinks(s, y); }
  }

  /** `Signal` writes 0 to the key. */
  ghost predicate Clears(s: State, k: Addr, count: int)
    requires Inv(s)
  {
    FirstValid(s, k);
    LeftGroup(SignalLoop(s, k, count, 0, FirstFrom(s.threads, s.cond, k)), k)
  }

  ghost predicate SignalSkips(s: State, k: Addr, count: int)
    requires Inv(s)
  {
    FirstValid(s, k);
    Skips(s, k, count, 0, FirstFrom(s.threads, s.cond, k))
  }

  /** `Signal` keeps the flag whenever a thread is left that it should have kept it for, except
      for skipped threads: it clears the flag if nobody waits under the key any more, and if it
      clears the flag somebody still waits exactly if an iteration of its loop skipped a thread. */
  lemma SignalClearsExactly(s: State, k: Addr, count: int)
    requires Inv(s)
    ensures !Waiting(Signal(s, k, count), k) ==> Clears(s, k, count)
    ensures Clears(s, k, count) ==> (Waiting(Signal(s, k, count), k) <==> SignalSkips(s, k, count))
  {
    FirstValid(s, k);
    var f := FirstFrom(s.threads, s.cond, k);
    var r := SignalLoop(s, k, count, 0, f);
    assert Waiting(Signal(s, k, count), k) <==> Waiting(r.s, k);
    if Clears(s, k, count) {
      forall y | Under(s, k, y) ensures f.Some? && (y == f.value || Before(s.cond, f.value, y)) {
        FirstAligned(s.threads, s.cond, k, y);
      }
      LoopAligned(s, k, count, 0, f);
      LoopAtLeast(s, k, count, 0, f);
      LeftAligned(r.s, k, r.it);
      WaitingUnder(r.s, k);
    }
  }

  lemma {:induction false} LoopEnds(s: State, k: Addr, count: int, num: nat, it: Option<Tid>)
    requires Inv(s) && ValidCursor(s, it) && count <= 0
    ensures LeftGroup(SignalLoop(s, k, count, num, it), k)
    decreases |CondMembers(s)|
  {
    if Continues(s, k, count, num, it) {
      SignalTargetKeepsInv(s, it.value);
      CursorSurvives(s, it.value);
      MembersShrink(s, SignalTarget(s, it.value), it.value);
      LoopEnds(SignalTarget(s, it.value), k, count, num + 1, Next(s.cond, it.value));
    }
  }

  /** A broadcast always clears the flag, so it leaves a thread behind exactly if it skips one. */
  lemma BroadcastExact(s: State, k: Addr, count: int)
    requires Inv(s) && count <= 0
    ensures Clears(s, k, count) && (Waiting(Signal(s, k, count), k) <==> SignalSkips(s, k, count))
  {
    FirstValid(s, k);
    LoopEnds(s, k, count, 0, FirstFrom(s.threads, s.cond, k));
    SignalClearsExactly(s, k, count);
  }

  /** A skip leaves the iterator among the key's threads. */
  lemma SkipInGroup(s: State, k: Addr, t: Tid)
    requires Inv(s) && Under(s, k, t) && s.threads[t].tree == InCond && Aligned(s, k, Some(t)) && SkipsOne(s, k, t)
    ensures Under(SignalTarget(s, t), k, Next(s.cond, t).value)
  {
    var z, e := Next(s.cond, t).value, RaisedBy(s, t).value;
    EndUnseen(s, HolderFor(s, t).value, {t});
    NextDistinct(ByKeyThenPriority, s.threads, s.cond, t);
    NextIs(s.threads, s.cond, t, e);
    BeforeLe(ByKeyThenPriority, s.threads, s.cond, t, z);
    BeforeLe(ByKeyThenPriority, s.threads, s.cond, z, e);
    UnderAfter(s, t, k, z);
  }

  /** A signal of one thread never clears the flag too early. */
  lemma SignalOneExact(s: State, k: Addr)
    requires Inv(s)
    ensures Clears(s, k, 1) <==> !Waiting(Signal(s, k, 1), k)
  {
    FirstValid(s, k);
    SignalClearsExactly(s, k, 1);
    if SignalSkips(s, k, 1) { OneSkipKeepsFlag(s, k); }
  }

  lemma OneSkipKeepsFlag(s: State, k: Addr)
    requires Inv(s) && SignalSkips(s, k, 1)
    ensures !Clears(s, k, 1)
  {
    FirstValid(s, k);
    var t := FirstFrom(s.threads, s.cond, k).value;
    OneRound(s, k, t);
    assert ThreadLinks(s, t);
    forall y | Under(s, k, y) ensures y == t || Before(s.cond, t, y) { FirstAligned(s.threads, s.cond, k, y); }
    SkipInGroup(s, k, t);
  }

  lemma OneRound(s: State, k: Addr, t: Tid)
    requires Inv(s) && ValidCursor(s, Some(t)) && Skips(s, k, 1, 0, Some(t))
    ensures SkipsOne(s, k, t) && SignalLoop(s, k, 1, 0, Some(t)) == Loop(SignalTarget(s, t), Next(s.cond, t))
  {
    SignalTargetKeepsInv(s, t);
    CursorSurvives(s, t);
    assert !Continues(SignalTarget(s, t), k, 1, 1, Next(s.cond, t));
  }

  // ----- Waiters of one priority -----

  /** All threads that wait under the key have the same priority. */
  ghost predicate Level(s: State, k: Addr) {
    forall y, z {:trigger Under(s, k, y), Under(s, k, z)} :: Under(s, k, y) && Under(s, k, z) ==> s.threads[y].prio == s.threads[z].prio
  }

  lemma LevelNoSkip(s: State, k: Addr, t: Tid)
    requires Inv(s) && Under(s, k, t) && s.threads[t].tree == InCond && Aligned(s, k, Some(t)) && Level(s, k)
    ensures !SkipsOne(s, k, t)
  {
    if SkipsOne(s, k, t) {
      var z := Next(s.cond, t).value;
      SkipInGroup(s, k, t);
      NextDistinct(ByKeyThenPriority, s.threads, s.cond, t);
      UnderAfter(s, t, k, z);
    }
  }

  /** A thread in the tree keeps its priority, unless it is raised to that of the signalled thread. */
  lemma PriorityAfter(s: State, t: Tid, y: Tid)
    requires Inv(s) && t in s.threads && s.threads[t].tree == InCond && y in s.cond && y != t && y in s.threads
    ensures var s' := SignalTarget(s, t);
            y in s'.threads && s'.threads[y].prio == if Mover(s, t, y) then s.threads[t].prio else s.threads[y].prio
  {
    var s1, e, p := LeaveTree(s, t), RaisedBy(s, t), s.threads[t].prio;
    SignalTargetLifts(s, t);
    assert ThreadLinks(s, t);
    RemoveKeeps(s.cond, t, y);
    assert SameRank(LiftedThreads(s1, e, p), SignalTarget(s, t).threads, y);
    assert LiftedThreads(s1, e, p)[y].prio == if Mover(s, t, y) then p else s.threads[y].prio;
  }

  /** Signalling one of them leaves the others at that priority. */
  lemma LevelAfter(s: State, k: Addr, t: Tid)
    requires Inv(s) && Under(s, k, t) && s.threads[t].tree == InCond && Level(s, k)
    ensures Level(SignalTarget(s, t), k)
  {
    var s' := SignalTarget(s, t);
    forall y | Under(s', k, y) ensures s'.threads[y].prio == s.threads[t].prio {
      UnderAfter(s, t, k, y);
      PriorityAfter(s, t, y);
    }
  }

  lemma {:induction false} LevelNeverSkips(s: State, k: Addr, count: int, num: nat, it: Option<Tid>)
    requires Inv(s) && ValidCursor(s, it) && Aligned(s, k, it) && Level(s, k)
    ensures !Skips(s, k, count, num, it)
    decreases |CondMembers(s)|
  {
    if Continues(s, k, count, num, it) {
      var t := it.value;
      assert ThreadLinks(s, t);
      SignalTargetKeepsInv(s, t);
      CursorSurvives(s, t);
      MembersShrink(s, SignalTarget(s, t), t);
      LevelNoSkip(s, k, t);
      StepAligned(s, k, t);
      LevelAfter(s, k, t);
      LevelNeverSkips(SignalTarget(s, t), k, count, num + 1, Next(s.cond, t));
    }
  }

  /** If the threads that wait under the key have one priority, whatever locks they hold, a signal of
      any count clears the flag exactly if nobody waits any more. */
  lemma SignalLevelExact(s: State, k: Addr, count: int)
    requires Inv(s) && Level(s, k)
    ensures Clears(s, k, count) <==> !Waiting(Signal(s, k, count), k)
  {
    FirstValid(s, k);
    var f := FirstFrom(s.threads, s.cond, k);
    forall y | Under(s, k, y) ensures f.Some? && (y == f.value || Before(s.cond, f.value, y)) {
      FirstAligned(s.threads, s.cond, k, y);
    }
    LevelNeverSkips(s, k, count, 0, f);
    SignalClearsExactly(s, k, count);
  }
}
