/** What the wait and signal calls return and do, in terms of the threads, queues and words before:
    when a call blocks, with which result it returns otherwise, and what it leaves alone. */
module CallOutcomes {
  import opened Basics
  import opened WaitTrees
  import opened KernelState
  import opened PriorityInheritance
  import opened WaiterLists
  import opened WaitSteps
  import opened ConditionVariable
  import opened AddressArbiter
  import opened KernelRuns

  // ----- What stays -----

  /** `x` is as before but for its inherited priority and its links. */
  ghost predicate Untouched(s: State, s': State, x: Tid) {
    && x in s.threads && x in s'.threads
    && var a, b := s.threads[x], s'.threads[x];
       && b.base == a.base && b.dying == a.dying && b.queue == a.queue && b.result == a.result
       && b.tree == a.tree && b.cvKey == a.cvKey && b.key == a.key && b.val == a.val
  }

  /** All threads but `t` and `u` are as before. */
  ghost predicate OthersStay(s: State, s': State, t: Tid, u: Tid) {
    && s'.threads.Keys == s.threads.Keys && s'.handles == s.handles
    && (forall x {:trigger Untouched(s, s', x)} :: x in s.threads && x != t && x != u ==> Untouched(s, s', x))
  }

  ghost predicate OwnersStay(s: State, s': State, t: Tid) {
    forall w {:trigger OwnerOf(s', w)} :: w != t ==> OwnerOf(s', w) == OwnerOf(s, w)
  }

  /** `t` sleeps in this queue and tree under `k`, and waits for no owner. */
  ghost predicate Asleep(s: State, t: Tid, q: Queue, tree: Tree, k: Addr) {
    && t in s.threads && s.threads[t].queue == q && s.threads[t].tree == tree && s.threads[t].cvKey == k && OwnerOf(s, t) == None
    && (tree == InCond ==> t in s.cond) && (tree == InArb ==> t in s.arb)
  }

  // ----- Giving up a lock -----

  /** `w` waits for `o` with the word at `addr`. */
  predicate WaitsFor(s: State, w: Tid, o: Tid, addr: Addr) {
    w in s.threads && OwnerOf(s, w) == Some(o) && s.threads[w].key == addr
  }

  /** The lock at `addr` goes from `cur` to `n`, the best of a queue of its waiters, which wakes with
      result `r`; the others of the queue wait for `n` from now on, and the word becomes `n`'s value, with
      the wait bit if there are others. */
  ghost predicate HandedTo(s: State, s': State, cur: Tid, addr: Addr, n: Tid, l: Lid, r: Result, m: map<Addr, Word>) {
    && WaitsFor(s, n, cur, addr) && Queues(s, n, l) && n in s'.threads
    && (forall w {:trigger Queues(s, w, l)} :: Queues(s, w, l) ==> WaitsFor(s, w, cur, addr) && s.threads[n].prio <= s.threads[w].prio)
    && s'.threads[n].queue == NoQueue && s'.threads[n].result == r && s'.threads[n].tree == NoTree
    && (forall w {:trigger OwnerOf(s', w)} ::
          OwnerOf(s', w) == if w == n then None else if Queues(s, w, l) then Some(n) else OwnerOf(s, w))
    && OthersStay(s, s', cur, n)
    && var more := exists w {:trigger Queues(s, w, l)} :: w != n && Queues(s, w, l);
       s'.mem == Store(m, addr, if more then OrMask(s.threads[n].val) else s.threads[n].val)
  }

  /** Nobody waits for `cur` at `addr`; the word becomes 0. */
  ghost predicate Freed(s: State, s': State, cur: Tid, addr: Addr, m: map<Addr, Word>) {
    && (forall w :: !WaitsFor(s, w, cur, addr)) && OthersStay(s, s', cur, cur) && s'.mem == Store(m, addr, 0)
    && (forall w {:trigger OwnerOf(s', w)} :: OwnerOf(s', w) == OwnerOf(s, w))
  }

  ghost predicate Released(s: State, s': State, cur: Tid, addr: Addr, r: Result, m: map<Addr, Word>) {
    Freed(s, s', cur, addr, m) || exists n, l :: HandedTo(s, s', cur, addr, n, l, r, m)
  }

  lemma GiveUpReleases(s: State, cur: Tid, addr: Addr, r: Result, m: map<Addr, Word>)
    requires Inv(s) && Running(s, cur)
    ensures var s' := GiveUp(s, cur, addr, r, m); Released(s, s', cur, addr, r, m) && Untouched(s, s', cur) && OwnerOf(s', cur) == None
  {
    RunningUnlinked(s, cur);
    HandedDetached(s, cur, addr);
    RemoveWaiterByKeyCorrect(s, cur, addr);
    var h, s' := RemoveWaiterByKey(s, cur, addr), GiveUp(s, cur, addr, r, m);
    assert Settled(s, cur) && Alike(s, h.s, cur);
    if h.next.Some? { GiveUpHands(s, cur, addr, r, m, h.next.value); }
    else { assert Freed(s, s', cur, addr, m); }
  }

  lemma GiveUpHands(s: State, cur: Tid, addr: Addr, r: Result, m: map<Addr, Word>, n: Tid)
    requires Inv(s) && Running(s, cur) && s.threads[cur].lock == None && RemoveWaiterByKey(s, cur, addr).next == Some(n)
    ensures var s' := GiveUp(s, cur, addr, r, m);
            && n in s.threads && s.threads[n].lock.Some? && HandedTo(s, s', cur, addr, n, s.threads[n].lock.value, r, m)
            && n != cur && OwnerOf(s', cur) == OwnerOf(s, cur) && Untouched(s, s', cur)
  {
    var h, s' := RemoveWaiterByKey(s, cur, addr), GiveUp(s, cur, addr, r, m);
    HandedDetached(s, cur, addr);
    assert Settled(s, n) && Settled(s, cur) && Alike(s, h.s, n) && Alike(s, h.s, cur);
    EndWaitSettles(h.s, n, r, s'.mem);
    assert s' == WithMem(EndWait(h.s, n, r), s'.mem);
    HandedShape(s, h, s', cur, addr, n, r, m);
    assert !Queues(s, cur, s.threads[n].lock.value);
  }

  lemma HandedShape(s: State, h: Handed, s': State, cur: Tid, addr: Addr, n: Tid, r: Result, m: map<Addr, Word>)
    requires h.next == Some(n) && Promoted(s, h, cur, addr) && Relinked(s, h.s) && n in h.s.threads && h.s.threads[n].queue != NoQueue
    requires h.s.threads[n].tree == NoTree
    requires s' == WithMem(EndWait(h.s, n, r), Store(m, addr, NextValue(h)))
    requires forall w {:trigger OwnerOf(s', w)} :: OwnerOf(s', w) == OwnerOf(h.s, w)
    ensures HandedTo(s, s', cur, addr, n, s.threads[n].lock.value, r, m)
  {
    assert Alike(s, h.s, n);
    forall x | x in s.threads && x != n ensures Untouched(s, s', x) { assert Alike(s, h.s, x); }
    forall w | Queues(s, w, s.threads[n].lock.value) ensures WaitsFor(s, w, cur, addr) && s.threads[n].prio <= s.threads[w].prio {
      assert BehindIn(s, w, n, cur, addr);
    }
  }

  /** `SignalToAddress` releases the lock; it and the next owner's wait succeed exactly if the word can
      be written. */
  lemma UnlockOutcome(s: State, cur: Tid, addr: Addr)
    requires Inv(s) && Running(s, cur)
    ensures var o := SignalToAddress(s, cur, addr);
            && (o.returned == Some(Success) <==> addr in s.mem) && (o.returned == Some(InvalidCurrentMemory) <==> addr !in s.mem)
            && Released(s, o.s, cur, addr, if addr in s.mem then Success else InvalidCurrentMemory, s.mem)
            && Untouched(s, o.s, cur) && OwnerOf(o.s, cur) == None
  {
    GiveUpReleases(s, cur, addr, if addr in s.mem then Success else InvalidCurrentMemory, s.mem);
  }

  // ----- Waiting for a lock -----

  /** `WaitForAddress` blocks exactly if the thread is not terminating, the word is that of the handle's
      thread with the wait bit, and the handle is known; otherwise nothing changes. */
  lemma LockOutcome(s: State, cur: Tid, handle: Word, addr: Addr, value: Word)
    requires Inv(s) && Running(s, cur)
    ensures var o := WaitForAddress(s, cur, handle, addr, value);
            var live := !s.threads[cur].dying;
            && (o.returned == Some(TerminationRequested) <==> !live)
            && (o.returned == Some(InvalidCurrentMemory) <==> live && addr !in s.mem)
            && (o.returned == Some(Success) <==> live && addr in s.mem && s.mem[addr] != OrMask(handle))
            && (o.returned == Some(InvalidHandle) <==> live && addr in s.mem && s.mem[addr] == OrMask(handle) && handle !in s.handles)
            && (o.returned == None <==> live && addr in s.mem && s.mem[addr] == OrMask(handle) && handle in s.handles)
            && (o.returned.Some? ==> o.s == s)
            && (o.returned == None ==> LockWait(s, o.s, cur, s.handles[handle], addr, value))
  {
    if WaitForAddress(s, cur, handle, addr, value).returned == None {
      RunningUnlinked(s, cur);
      var o := s.handles[handle];
      var s1 := PutThread(s, cur, SetKey(s.threads[cur], addr, value));
      KeyKeepsDetached(s, cur, addr, value);
      AddWaiterDetached(s1, o, cur);
      WaitForOwnerSettles(s, cur, o, addr, value);
      var s2 := AddWaiter(s1, o, cur);
      assert Alike(s1, s2, cur);
      forall x | x in s.threads && x != cur ensures Untouched(s, WaitForOwner(s, cur, o, addr, value), x) { assert Alike(s1, s2, x); }
    }
  }

  /** `t` sleeps in the queue of `o` for the word at `addr`, with its value noted. */
  ghost predicate LockWait(s: State, s': State, t: Tid, o: Tid, addr: Addr, value: Word) {
    && t in s'.threads && s'.threads[t].queue == LockQueue && OwnerOf(s', t) == Some(o)
    && s'.threads[t].key == addr && s'.threads[t].val == value && s'.threads[t].tree == NoTree
    && OthersStay(s, s', t, t) && OwnersStay(s, s', t) && s'.mem == s.mem
  }

  // ----- Waiting on a condition variable -----

  /** `Wait` releases the lock, after setting the flag, unless the thread is terminating; it sleeps
      exactly if moreover the word can be written and the timeout is not zero. */
  lemma WaitOutcome(s: State, cur: Tid, addr: Addr, key: Addr, value: Word, timeout: int)
    requires Inv(s) && Running(s, cur)
    ensures var o := Wait(s, cur, addr, key, value, timeout);
            var live := !s.threads[cur].dying;
            && (o.returned == Some(TerminationRequested) <==> !live) && (!live ==> o.s == s)
            && (o.returned == Some(InvalidCurrentMemory) <==> live && addr !in s.mem)
            && (o.returned == Some(TimedOut) <==> live && addr in s.mem && timeout == 0)
            && (o.returned == None <==> live && addr in s.mem && timeout != 0)
            && (live ==> Released(s, o.s, cur, addr, Success, Store(s.mem, key, 1)))
            && (o.returned.Some? ==> Running(o.s, cur) && Untouched(s, o.s, cur))
            && (o.returned == None ==>
                  Asleep(o.s, cur, CondQueue, InCond, key) && o.s.threads[cur].key == addr && o.s.threads[cur].val == value)
  {
    if !s.threads[cur].dying {
      GiveUpReleases(s, cur, addr, Success, Store(s.mem, key, 1));
      GiveUpKeepsInv(s, cur, addr, Success, Store(s.mem, key, 1));
      if addr in s.mem && timeout != 0 { WaitSleeps(s, cur, addr, key, value); }
    }
  }

  lemma WaitSleeps(s: State, cur: Tid, addr: Addr, key: Addr, value: Word)
    requires Inv(s) && Running(s, cur)
    ensures var s1 := GiveUp(s, cur, addr, Success, Store(s.mem, key, 1));
            && Detached(s1, cur)
            && var s' := SleepOn(s1, cur, addr, key, value);
            && Released(s, s', cur, addr, Success, Store(s.mem, key, 1))
            && Asleep(s', cur, CondQueue, InCond, key) && s'.threads[cur].key == addr && s'.threads[cur].val == value
  {
    var m := Store(s.mem, key, 1);
    GiveUpReleases(s, cur, addr, Success, m);
    GiveUpKeepsInv(s, cur, addr, Success, m);
    var s1 := GiveUp(s, cur, addr, Success, m);
    RunningUnlinked(s1, cur);
    SleepOutcome(s1, cur, addr, key, value);
    assert Settled(s, cur);
    ReleasedThenSlept(s, s1, SleepOn(s1, cur, addr, key, value), cur, addr, m);
  }

  /** Going to sleep changes nothing but the thread and the tree. */
  ghost predicate Slept(s: State, s': State, t: Tid) {
    && s'.threads.Keys == s.threads.Keys && s'.handles == s.handles && s'.mem == s.mem
    && (forall x {:trigger s'.threads[x]} :: x in s.threads && x != t ==> s'.threads[x] == s.threads[x])
    && (forall w {:trigger OwnerOf(s', w)} :: OwnerOf(s', w) == OwnerOf(s, w))
  }

  lemma SleepOutcome(s: State, cur: Tid, addr: Addr, key: Addr, value: Word)
    requires Detached(s, cur)
    ensures var s' := SleepOn(s, cur, addr, key, value);
            && Slept(s, s', cur) && Asleep(s', cur, CondQueue, InCond, key) && s'.threads[cur].key == addr && s'.threads[cur].val == value
  {
    var s1 := PutThread(s, cur, SetKey(s.threads[cur], addr, value));
    KeyKeepsDetached(s, cur, addr, value);
    EnterCondMoves(s1, cur, key);
    SleepOnSettles(s, cur, addr, key, value);
  }

  lemma ReleasedThenSlept(s: State, s1: State, s': State, cur: Tid, addr: Addr, m: map<Addr, Word>)
    requires Released(s, s1, cur, addr, Success, m) && Slept(s1, s', cur) && OwnerOf(s, cur) == None
    ensures Released(s, s', cur, addr, Success, m)
  {
    forall x | x in s.threads && x != cur && Untouched(s, s1, x) ensures Untouched(s, s', x) { assert s'.threads[x] == s1.threads[x]; }
    if !Freed(s, s1, cur, addr, m) {
      var n, l :| HandedTo(s, s1, cur, addr, n, l, Success, m);
      assert n != cur && s'.threads[n] == s1.threads[n];
      forall x | x in s.threads && x != cur && x != n ensures Untouched(s, s', x) { assert Untouched(s, s1, x); }
      assert HandedTo(s, s', cur, addr, n, l, Success, m);
    } else {
      forall x | x in s.threads && x != cur ensures Untouched(s, s', x) { assert Untouched(s, s1, x); }
      assert Freed(s, s', cur, addr, m);
    }
  }

  // ----- Signalling a condition variable -----

  /** A signalled thread gets the lock if the word is 0, queues on the thread that the word names, and
      otherwise runs with an error. */
  lemma TargetOutcome(s: State, t: Tid)
    requires Inv(s) && t in s.threads && s.threads[t].tree == InCond
    ensures var s', a := SignalTarget(s, t), s.threads[t].key;
            && t in s'.threads && s'.threads[t].tree == NoTree && OthersStay(s, s', t, t) && OwnersStay(s, s', t)
            && (a !in s.mem ==> Running(s', t) && s'.threads[t].result == InvalidCurrentMemory && s'.mem == s.mem)
            && (a in s.mem && s.mem[a] == 0 ==>
                  Running(s', t) && s'.threads[t].result == Success && s'.mem == s.mem[a := s.threads[t].val])
            && (a in s.mem && s.mem[a] != 0 ==> s'.mem == s.mem[a := OrMask(s.mem[a])])
            && (a in s.mem && s.mem[a] != 0 && ClearMask(s.mem[a]) in s.handles ==>
                  !Running(s', t) && OwnerOf(s', t) == Some(s.handles[ClearMask(s.mem[a])]))
            && (a in s.mem && s.mem[a] != 0 && ClearMask(s.mem[a]) !in s.handles ==>
                  Running(s', t) && s'.threads[t].result == InvalidState)
  {
    assert Settled(s, t) && ThreadLinks(s, t);
    LeaveDetaches(s, t);
    var s1 := LeaveTree(s, t);
    ImplOutcome(s1, t);
    SignalTargetKeepsInv(s, t);
    forall x | x in s.threads && x != t ensures Untouched(s, SignalTarget(s, t), x) { assert Untouched(s1, SignalImpl(s1, t), x); }
  }

  lemma ImplOutcome(s: State, t: Tid)
    requires Detached(s, t) && s.threads[t].queue == CondQueue
    ensures var s', a := SignalImpl(s, t), s.threads[t].key;
            && t in s'.threads && OthersStay(s, s', t, t) && OwnersStay(s, s', t)
            && (a !in s.mem ==> Running(s', t) && s'.threads[t].result == InvalidCurrentMemory && s'.mem == s.mem)
            && (a in s.mem && s.mem[a] == 0 ==>
                  Running(s', t) && s'.threads[t].result == Success && s'.mem == s.mem[a := s.threads[t].val])
            && (a in s.mem && s.mem[a] != 0 ==> s'.mem == s.mem[a := OrMask(s.mem[a])])
            && (a in s.mem && s.mem[a] != 0 && ClearMask(s.mem[a]) in s.handles ==>
                  !Running(s', t) && OwnerOf(s', t) == Some(s.handles[ClearMask(s.mem[a])]))
            && (a in s.mem && s.mem[a] != 0 && ClearMask(s.mem[a]) !in s.handles ==>
                  Running(s', t) && s'.threads[t].result == InvalidState)
  {
    var a, s' := s.threads[t].key, SignalImpl(s, t);
    if a in s.mem && s.mem[a] != 0 && ClearMask(s.mem[a]) in s.handles {
      var s1 := WithMem(s, s.mem[a := OrMask(s.mem[a])]);
      MemKeepsDetached(s, t, s1.mem);
      AddWaiterDetached(s1, s.handles[ClearMask(s.mem[a])], t);
      assert Alike(s1, s', t);
      forall x | x in s.threads && x != t ensures Untouched(s, s', x) { assert Alike(s1, s', x); }
    } else {
      forall x | x in s.threads && x != t ensures Untouched(s, s', x) {}
    }
  }

  /** The threads that have left the tree. */
  ghost function Taken(s: State, s': State): set<Tid> {
    set t | t in s.threads && t in s'.threads && s.threads[t].tree == InCond && s'.threads[t].tree != InCond
  }

  /** Threads only leave the tree, and only those of the key. */
  ghost predicate OnlyLeave(s: State, s': State, k: Addr) {
    && s'.threads.Keys == s.threads.Keys
    && (forall t {:trigger LeavesOrStays(s, s', k, t)} :: t in s.threads ==> LeavesOrStays(s, s', k, t))
  }

  ghost predicate LeavesOrStays(s: State, s': State, k: Addr, t: Tid) {
    && t in s.threads && t in s'.threads
    && if s'.threads[t].tree == s.threads[t].tree then s.threads[t].tree != NoTree ==> s'.threads[t].cvKey == s.threads[t].cvKey
       else s.threads[t].tree == InCond && s'.threads[t].tree == NoTree && s.threads[t].cvKey == k
  }

  /** What the loop has done from `s` and `num` on. */
  ghost predicate Took(s: State, r: Loop, k: Addr, count: int, num: nat) {
    && OnlyLeave(s, r.s, k) && (count > 0 ==> num + |Taken(s, r.s)| <= count)
    && (LeftGroup(r, k) || (count > 0 && num + |Taken(s, r.s)| == count))
  }

  lemma {:induction false} LoopTakes(s: State, k: Addr, count: int, num: nat, it: Option<Tid>)
    requires Inv(s) && ValidCursor(s, it) && (count > 0 ==> num <= count)
    ensures Took(s, SignalLoop(s, k, count, num, it), k, count, num)
    decreases |CondMembers(s)|
  {
    if Continues(s, k, count, num, it) {
      var t, m := it.value, num + 1;
      SignalTargetKeepsInv(s, t);
      LoopOn(s, k, count, num, t);
      LoopTakes(SignalTarget(s, t), k, count, m, Next(s.cond, t));
      TakesOneMore(s, SignalTarget(s, t), SignalLoop(s, k, count, num, it), k, count, num, m, t);
    } else { TakesNone(s, k, count, num, it); }
  }

  lemma TakesNone(s: State, k: Addr, count: int, num: nat, it: Option<Tid>)
    requires ValidCursor(s, it) && !Continues(s, k, count, num, it) && (count > 0 ==> num <= count)
    ensures Took(s, Loop(s, it), k, count, num)
  {
    forall t | t in s.threads ensures LeavesOrStays(s, s, k, t) {}
    assert Taken(s, s) == {};
  }

  lemma TakesOneMore(s: State, s1: State, r: Loop, k: Addr, count: int, num: nat, m: nat, t: Tid)
    requires LeftTree(s, s1, t) && t in s.threads && s.threads[t].tree == InCond && s.threads[t].cvKey == k
    requires m == num + 1 && Took(s1, r, k, count, m)
    ensures Took(s, r, k, count, num)
  {
    forall x | x in s.threads ensures LeavesOrStays(s, r.s, k, x) && (x in Taken(s, r.s) <==> x == t || x in Taken(s1, r.s)) {
      assert LeavesOrStays(s1, r.s, k, x);
      if x != t { assert SameTree(s, s1, x); }
    }
    assert t !in Taken(s1, r.s) && Taken(s, r.s) == Taken(s1, r.s) + {t};
  }

  /** A signal takes only threads of the key out of the tree, no more than the count if that is positive;
      if it takes fewer, or the count is not positive, the flag is 0 afterwards. */
  lemma SignalTakes(s: State, k: Addr, count: int)
    requires Inv(s)
    ensures var s' := Signal(s, k, count);
            && OnlyLeave(s, s', k) && (count > 0 ==> |Taken(s, s')| <= count)
            && ((count <= 0 || |Taken(s, s')| < count) && k in s'.mem ==> s'.mem[k] == 0)
  {
    FirstValid(s, k);
    var f := FirstFrom(s.threads, s.cond, k);
    var r, s' := SignalLoop(s, k, count, 0, f), Signal(s, k, count);
    LoopTakes(s, k, count, 0, f);
    assert s'.threads == r.s.threads && Taken(s, s') == Taken(s, r.s);
    forall t | t in s.threads ensures LeavesOrStays(s, s', k, t) { assert LeavesOrStays(s, r.s, k, t); }
  }

  // ----- Waiting on an address -----

  lemma SleepAtOutcome(s: State, cur: Tid, addr: Addr)
    requires Detached(s, cur)
    ensures Slept(s, SleepAt(s, cur, addr), cur) && Asleep(SleepAt(s, cur, addr), cur, ArbQueue, InArb, addr)
  {
    EnterArbMoves(s, cur, addr);
    SleepAtSettles(s, cur, addr);
  }

  /** Going to sleep with the memory `m` stored before. */
  ghost predicate SleptWith(s: State, s': State, t: Tid, m: map<Addr, Word>) { Slept(WithMem(s, m), s', t) }

  /** `WaitIfLessThan` decrements the word if asked to and the word is below the value, also if it times
      out at once, and sleeps exactly if the word is below the value and the timeout is not zero. */
  lemma WaitLessOutcome(s: State, cur: Tid, addr: Addr, value: int, decrement: bool, timeout: int)
    requires Inv(s) && Running(s, cur)
    ensures var o := WaitIfLessThan(s, cur, addr, value, decrement, timeout);
            var live := !s.threads[cur].dying;
            && (o.returned == Some(TerminationRequested) <==> !live)
            && (o.returned == Some(InvalidCurrentMemory) <==> live && addr !in s.mem)
            && (o.returned == Some(InvalidState) <==> live && addr in s.mem && S32(s.mem[addr]) >= value)
            && (o.returned == Some(TimedOut) <==> live && addr in s.mem && S32(s.mem[addr]) < value && timeout == 0)
            && (o.returned == None <==> live && addr in s.mem && S32(s.mem[addr]) < value && timeout != 0)
            && (o.returned.Some? && o.returned != Some(TimedOut) ==> o.s == s)
            && (o.returned == Some(TimedOut) ==> o.s == WithMem(s, Lowered(s.mem, addr, decrement)))
            && (o.returned == None ==>
                  SleptWith(s, o.s, cur, Lowered(s.mem, addr, decrement)) && Asleep(o.s, cur, ArbQueue, InArb, addr))
  {
    if addr in s.mem && !s.threads[cur].dying && S32(s.mem[addr]) < value {
      var m := Lowered(s.mem, addr, decrement);
      RunningUnlinked(s, cur);
      MemKeepsDetached(s, cur, m);
      SleepAtOutcome(WithMem(s, m), cur, addr);
    }
  }

  /** The word after the decrement; the lowest 32-bit value wraps around. */
  function Lowered(m: map<Addr, Word>, addr: Addr, decrement: bool): map<Addr, Word> {
    if addr in m && decrement then m[addr := U32(S32(m[addr]) - 1)] else m
  }

  /** `WaitIfEqual` stores nothing, and sleeps exactly if the word is the value and the timeout is not
      zero. */
  lemma WaitEqualOutcome(s: State, cur: Tid, addr: Addr, value: int, timeout: int)
    requires Inv(s) && Running(s, cur)
    ensures var o := WaitIfEqual(s, cur, addr, value, timeout);
            var live := !s.threads[cur].dying;
            && (o.returned == Some(TerminationRequested) <==> !live)
            && (o.returned == Some(InvalidCurrentMemory) <==> live && addr !in s.mem)
            && (o.returned == Some(InvalidState) <==> live && addr in s.mem && S32(s.mem[addr]) != value)
            && (o.returned == Some(TimedOut) <==> live && addr in s.mem && S32(s.mem[addr]) == value && timeout == 0)
            && (o.returned == None <==> live && addr in s.mem && S32(s.mem[addr]) == value && timeout != 0)
            && (o.returned.Some? ==> o.s == s)
            && (o.returned == None ==> Slept(s, o.s, cur) && Asleep(o.s, cur, ArbQueue, InArb, addr))
  {
    RunningUnlinked(s, cur);
    SleepAtOutcome(s, cur, addr);
  }

  // ----- Signalling an address -----

  /** Exactly the best `n` of the threads that wait at `addr`, in the order `ws`, have been woken with
      success; everything else but the memory stays. */
  ghost predicate WokeFirst(s: State, s': State, addr: Addr, ws: seq<Tid>, n: nat) {
    && n <= |ws| && Queued(ByPriority, s.threads, ws) && s'.threads.Keys == s.threads.Keys
    && (forall t :: t in ws <==> t in s.threads && s.threads[t].tree == InArb && s.threads[t].cvKey == addr)
    && (forall t {:trigger s'.threads[t]} :: t in s.threads ==>
          s'.threads[t] == if t in ws[..n] then Woken(OutOfTree(s.threads[t]), Success) else s.threads[t])
    && s'.locks == s.locks && s'.cond == s.cond && s'.handles == s.handles
  }

  /** How many of `n` waiters a count allows: all if it is not positive. */
  ghost predicate Allows(n: nat, count: int, k: nat) {
    if count <= 0 then k == n else (k == n && n <= count) || (k == count && count < n)
  }

  /** The count's share of the `waiters` threads at `addr`, from the best on, have been woken. */
  ghost predicate WokeBest(s: State, s': State, addr: Addr, count: int, waiters: nat) {
    exists ws, n :: WokeFirst(s, s', addr, ws, n) && Allows(waiters, count, n) && |ws| == waiters
  }

  /** The same with a store before. */
  lemma WakeOutcome(s: State, m: map<Addr, Word>, addr: Addr, count: int)
    requires Inv(s)
    ensures Inv(WithMem(s, m))
    ensures var s' := WakeAt(WithMem(s, m), addr, count); WokeBest(s, s', addr, count, |Waiters(s, addr)|) && s'.mem == m
  {
    MemInv(s, m);
    var s1, ws := WithMem(s, m), Waiters(s, addr);
    var n, s' := Quota(|ws|, count), WakeAt(s1, addr, count);
    WakeLoopCorrect(s1, addr, count);
    WaitersAre(s, addr);
    WokeShape(s, s', addr, ws, n);
    assert WokeFirst(s, s', addr, ws, n) && Allows(|ws|, count, n);
  }

  lemma WokeShape(s: State, s': State, addr: Addr, ws: seq<Tid>, n: nat)
    requires n <= |ws| && Queued(ByPriority, s.threads, ws) && s'.threads == WokenAll(s.threads, ws[..n])
    requires forall t :: t in ws <==> t in s.threads && s.threads[t].tree == InArb && s.threads[t].cvKey == addr
    requires s'.locks == s.locks && s'.cond == s.cond && s'.handles == s.handles
    ensures WokeFirst(s, s', addr, ws, n)
  {
    WokenKeys(s.threads, ws[..n]);
    forall t | t in s.threads
      ensures t in s'.threads && s'.threads[t] == if t in ws[..n] then Woken(OutOfTree(s.threads[t]), Success) else s.threads[t]
    {
      WokenAllAt(s.threads, ws[..n], t);
    }
  }

  /** `Signal` always succeeds and changes no word. */
  lemma SignalOnlyOutcome(s: State, addr: Addr, count: int)
    requires Inv(s)
    ensures var o := SignalOnly(s, addr, count);
            o.returned == Some(Success) && WokeBest(s, o.s, addr, count, |Waiters(s, addr)|) && o.s.mem == s.mem
  {
    assert WithMem(s, s.mem) == s;
    WakeOutcome(s, s.mem, addr, count);
  }

  /** `SignalAndIncrementIfEqual` acts exactly if the word is the value, which it then increments. */
  lemma SignalIncrementOutcome(s: State, addr: Addr, value: int, count: int)
    requires Inv(s)
    ensures var o := SignalAndIncrement(s, addr, value, count);
            && (o.returned == Some(Success) <==> addr in s.mem && S32(s.mem[addr]) == value)
            && (o.returned == Some(InvalidCurrentMemory) <==> addr !in s.mem)
            && (o.returned == Some(InvalidState) <==> addr in s.mem && S32(s.mem[addr]) != value)
            && (o.returned != Some(Success) ==> o.s == s)
            && (o.returned == Some(Success) ==>
                  WokeBest(s, o.s, addr, count, |Waiters(s, addr)|) && o.s.mem == s.mem[addr := U32(value + 1)])
  {
    if addr in s.mem { WakeOutcome(s, s.mem[addr := U32(value + 1)], addr, count); }
  }

  /** The word that a signal by waiting count leaves: one more if nobody waits, one less if all waiters
      are woken, and otherwise the same. */
  ghost predicate CountedWord(m: map<Addr, Word>, m': map<Addr, Word>, addr: Addr, value: int, count: int, waiters: nat) {
    && (waiters == 0 ==> m' == m[addr := U32(value + 1)])
    && (waiters > 0 && (count <= 0 || waiters <= count) ==> m' == m[addr := U32(value - 1)])
    && (waiters > count > 0 ==> m' == m)
  }

  /** `SignalAndModifyByWaitingCountIfEqual` acts exactly if the word is the value. */
  lemma SignalModifyOutcome(s: State, addr: Addr, value: int, count: int)
    requires Inv(s)
    ensures var o, w := SignalAndModify(s, addr, value, count), |Waiters(s, addr)|;
            && (o.returned == Some(Success) <==> addr in s.mem && S32(s.mem[addr]) == value)
            && (o.returned == Some(InvalidCurrentMemory) <==> addr !in s.mem)
            && (o.returned == Some(InvalidState) <==> addr in s.mem && S32(s.mem[addr]) != value)
            && (o.returned != Some(Success) ==> o.s == s)
            && (o.returned == Some(Success) ==> WokeBest(s, o.s, addr, count, w) && CountedWord(s.mem, o.s.mem, addr, value, count, w))
  {
    WakeOutcome(s, Modified(s.mem, addr, value, ModifiedValue(value, count, |Waiters(s, addr)|)), addr, count);
  }

  // ----- Cancelling, terminating, changing priorities -----

  /** A cancelled thread runs with the result, if it was blocked; nobody else changes. */
  lemma CancelOutcome(s: State, t: Tid, r: Result)
    requires Inv(s) && t in s.threads
    ensures var s' := Cancel(s, t, r);
            && (Running(s, t) ==> s' == s) && Running(s', t) && OwnerOf(s', t) == None && s'.threads[t].tree == NoTree
            && (!Running(s, t) ==> s'.threads[t].result == r)
            && s'.threads[t].dying == s.threads[t].dying && s'.threads[t].base == s.threads[t].base
            && OthersStay(s, s', t, t) && OwnersStay(s, s', t) && s'.mem == s.mem
  {
    var s' := Cancel(s, t, r);
    CancelKeepsInv(s, t, r);
    assert Settled(s', t);
    if !Running(s, t) {
      UnlinkDetaches(s, t);
      UnlinkStays(s, t);
      var s1 := Unlink(s, t);
      EndWaitSettles(s1, t, r, s1.mem);
      assert s' == WithMem(EndWait(s1, t, r), s1.mem);
      forall x | x in s.threads && x != t ensures Untouched(s, s', x) { assert Untouched(s, s1, x); }
    }
  }

  lemma UnlinkStays(s: State, t: Tid)
    requires Inv(s) && t in s.threads && s.threads[t].queue != NoQueue
    ensures var s1 := Unlink(s, t);
            && OthersStay(s, s1, t, t) && t in s1.threads && s1.mem == s.mem && s1.threads[t].queue == s.threads[t].queue
            && s1.threads[t].dying == s.threads[t].dying && s1.threads[t].base == s.threads[t].base
  {
    UnlinkDetaches(s, t);
    match OwnerOf(s, t) {
      case Some(o) =>
        RemoveWaiterCorrect(s, o, t);
        assert Alike(s, RemoveWaiter(s, o, t), t);
        forall x | x in s.threads ensures Untouched(s, RemoveWaiter(s, o, t), x) { assert Alike(s, RemoveWaiter(s, o, t), x); }
      case None => LeaveDetaches(s, t);
    }
  }

  /** `SetBasePriority`: a terminating thread stays at 15 or better. */
  lemma BaseOutcome(s: State, t: Tid, priority: int)
    requires Inv(s) && t in s.threads
    ensures var s' := ChangeBase(s, t, priority);
            && t in s'.threads && s'.threads[t].base == (if s.threads[t].dying && priority > 15 then 15 else priority)
            && SameView(PutThread(s, t, SetBase(s.threads[t], s'.threads[t].base)), s')
  {
    var p := if s.threads[t].dying && priority >= TERMINATING then TERMINATING else priority;
    RebaseKeepsInv(s, t, p);
    assert Alike(PutThread(s, t, SetBase(s.threads[t], p)), ChangeBase(s, t, priority), t);
  }

  /** After the first request the thread is terminating, runs, and is in no queue; its base priority is 15
      or better, and a wait it was in ends with the request's result.  A second request does nothing. */
  lemma TerminateOutcome(s: State, t: Tid)
    requires Inv(s) && t in s.threads
    ensures var s' := Terminate(s, t);
            && (s.threads[t].dying ==> s' == s) && t in s'.threads && s'.threads[t].dying
            && (!s.threads[t].dying ==>
                  && Running(s', t) && OwnerOf(s', t) == None && s'.threads[t].tree == NoTree
                  && s'.threads[t].base == (if s.threads[t].base < 15 then s.threads[t].base else 15)
                  && (!Running(s, t) ==> s'.threads[t].result == TerminationRequested))
            && OthersStay(s, s', t, t) && OwnersStay(s, s', t) && s'.mem == s.mem
  {
    TerminateKeepsInv(s, t);
    if !s.threads[t].dying {
      DoomOutcome(s, t);
      DoomKeepsInv(s, t);
      CancelOutcome(Doom(s, t), t, TerminationRequested);
      StayTrans(s, Doom(s, t), Terminate(s, t), t);
    } else {
      forall x | x in s.threads ensures Untouched(s, s, x) {}
    }
  }

  /** A new base priority changes nobody else but in inherited priorities. */
  lemma RebaseOutcome(s: State, t: Tid, p: int)
    requires Inv(s) && t in s.threads
    ensures var s' := Rebase(s, t, p);
            && t in s'.threads && s'.threads[t].base == p && s'.threads[t].dying == s.threads[t].dying && s'.threads[t].queue == s.threads[t].queue
            && OthersStay(s, s', t, t) && OwnersStay(s, s', t) && s'.mem == s.mem
  {
    var s1, s' := PutThread(s, t, SetBase(s.threads[t], p)), Rebase(s, t, p);
    RebaseKeepsInv(s, t, p);
    assert Alike(s1, s', t);
    forall x | x in s.threads && x != t ensures Untouched(s, s', x) { assert Alike(s1, s', x); }
  }

  lemma DoomOutcome(s: State, t: Tid)
    requires Inv(s) && t in s.threads
    ensures var s' := Doom(s, t);
            && t in s'.threads && s'.threads[t].dying && s'.threads[t].queue == s.threads[t].queue
            && s'.threads[t].base == (if s.threads[t].base < 15 then s.threads[t].base else 15)
            && OthersStay(s, s', t, t) && OwnersStay(s, s', t) && s'.mem == s.mem
  {
    var s1 := PutThread(s, t, SetDying(s.threads[t]));
    DyingKeepsInv(s, t);
    forall x | x in s.threads && x != t ensures Untouched(s, s1, x) {}
    if s1.threads[t].base > TERMINATING {
      RebaseOutcome(s1, t, TERMINATING);
      StayTrans(s, s1, Doom(s, t), t);
    }
  }

  lemma StayTrans(s: State, s1: State, s2: State, t: Tid)
    requires OthersStay(s, s1, t, t) && OthersStay(s1, s2, t, t) && OwnersStay(s, s1, t) && OwnersStay(s1, s2, t)
    ensures OthersStay(s, s2, t, t) && OwnersStay(s, s2, t)
  {
    forall x | x in s.threads && x != t ensures Untouched(s, s2, x) { assert Untouched(s, s1, x) && Untouched(s1, s2, x); }
    forall w | w != t ensures OwnerOf(s2, w) == OwnerOf(s, w) { assert OwnerOf(s1, w) == OwnerOf(s, w); }
  }
}
