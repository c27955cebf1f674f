/** `KConditionVariable`: lock arbitration and condition variables, step by step. */
module ConditionVariable {
  import opened Basics
  import opened WaitTrees
  import opened KernelState
  import opened PriorityInheritance
  import opened WaiterLists
  import opened WaitSteps

  // ----- Lock words -----

  /** `HandleWaitMask`: the bit of a lock word that says a thread waits in the kernel. */
  const WAIT_MASK: Word := 0x4000_0000

  predicate Masked(w: Word) { (w / WAIT_MASK) % 2 == 1 }

  function OrMask(w: Word): Word { if Masked(w) then w else w + WAIT_MASK }

  function ClearMask(w: Word): Word { if Masked(w) then w - WAIT_MASK else w }

  /** A store to user memory; a store to an inaccessible word has no effect. */
  function Store(m: map<Addr, Word>, a: Addr, w: Word): map<Addr, Word> {
    if a in m then m[a := w] else m
  }

  /** A system call's new state, and its result if it did not block. */
  datatype Outcome = Outcome(s: State, returned: Option<Result>)

  /** The tag the lock word gets when it is handed over. */
  ghost function NextValue(h: Handed): Word {
    if h.next.Some? && h.next.value in h.s.threads then
      var v := h.s.threads[h.next.value].val;
      if h.more then OrMask(v) else v
    else 0
  }

  // ----- SignalToAddress -----

  /** Give up the word at `addr`: choose the next owner, store its tag over the memory `m`, and
      end its wait. */
  ghost function GiveUp(s: State, cur: Tid, addr: Addr, r: Result, m: map<Addr, Word>): State
    requires Inv(s) && Running(s, cur)
  {
    RunningUnlinked(s, cur);
    var h := RemoveWaiterByKey(s, cur, addr);
    HandedDetached(s, cur, addr);
    var m' := Store(m, addr, NextValue(h));
    match h.next
    case None => WithMem(h.s, m')
    case Some(n) => WithMem(EndWait(h.s, n, r), m')
  }

  ghost function SignalToAddress(s: State, cur: Tid, addr: Addr): Outcome
    requires Inv(s) && Running(s, cur)
  {
    var r := if addr in s.mem then Success else InvalidCurrentMemory;
    Outcome(GiveUp(s, cur, addr, r, s.mem), Some(r))
  }

  /** After `RemoveWaiterByKey` only the chosen thread is unsettled. */
  lemma HandedDetached(s: State, cur: Tid, addr: Addr)
    requires Inv(s) && Running(s, cur) && s.threads[cur].lock == None
    ensures var h := RemoveWaiterByKey(s, cur, addr);
            && (h.next.None? ==> h.s == s)
            && (h.next.Some? ==> h.next.value in s.threads && Detached(h.s, h.next.value) && Promoted(s, h, cur, addr))
            && Relinked(s, h.s)
  {
    var h := RemoveWaiterByKey(s, cur, addr);
    RemoveWaiterByKeyCorrect(s, cur, addr);
    if h.next.Some? {
      var n := h.next.value;
      assert Settled(s, n) && Alike(s, h.s, n) && ThreadLinks(h.s, n);
      assert OwnerOf(h.s, n) == None;
      DetachedByLinks(h.s, n);
      forall x | x in h.s.threads && x != n ensures Settled(h.s, x) {
        assert Settled(s, x) && Alike(s, h.s, x);
        assert OwnerOf(h.s, x).Some? <==> OwnerOf(s, x).Some?;
      }
    }
  }

  lemma DetachedByLinks(s: State, t: Tid)
    requires Links(s) && t in s.threads && OwnerOf(s, t) == None
    ensures s.threads[t].lock == None
  {
    assert ThreadLinks(s, t);
  }

  lemma GiveUpKeepsInv(s: State, cur: Tid, addr: Addr, r: Result, m: map<Addr, Word>)
    requires Inv(s) && Running(s, cur)
    ensures Inv(GiveUp(s, cur, addr, r, m)) && Running(GiveUp(s, cur, addr, r, m), cur)
  {
    RunningUnlinked(s, cur);
    var h := RemoveWaiterByKey(s, cur, addr);
    HandedDetached(s, cur, addr);
    assert Alike(s, h.s, cur);
    if h.next.None? { MemKeepsInv(s, cur, Store(m, addr, NextValue(h))); }
    else { EndWaitSettles(h.s, h.next.value, r, Store(m, addr, NextValue(h))); }
  }

  lemma MemKeepsInv(s: State, cur: Tid, m: map<Addr, Word>)
    requires Inv(s) && Running(s, cur)
    ensures var s' := WithMem(s, m);
            && Inv(s') && (UniqueKeys(s) ==> UniqueKeys(s'))
            && (forall w {:trigger OwnerOf(s', w)} :: OwnerOf(s', w) == OwnerOf(s, w))
  {
    RunningUnlinked(s, cur);
    EndWaitSettles(s, cur, Success, m);
  }

  // ----- WaitForAddress -----

  function SetKey(x: Thread, key: Addr, val: Word): Thread { x.(key := key, val := val) }

  ghost function WaitForAddress(s: State, cur: Tid, handle: Word, addr: Addr, value: Word): Outcome
    requires Inv(s) && Running(s, cur)
  {
    if s.threads[cur].dying then Outcome(s, Some(TerminationRequested))
    else if addr !in s.mem then Outcome(s, Some(InvalidCurrentMemory))
    else if s.mem[addr] != OrMask(handle) then Outcome(s, Some(Success))
    else if handle !in s.handles then Outcome(s, Some(InvalidHandle))
    else
      RunningUnlinked(s, cur);
      Outcome(WaitForOwner(s, cur, s.handles[handle], addr, value), None)
  }

  /** Queue `t` on `o` for the word at `addr` and block it. */
  ghost function WaitForOwner(s: State, t: Tid, o: Tid, addr: Addr, value: Word): State
    requires Detached(s, t) && o in s.threads
  {
    var s1 := PutThread(s, t, SetKey(s.threads[t], addr, value));
    KeyKeepsDetached(s, t, addr, value);
    AddWaiterDetached(s1, o, t);
    BeginWait(AddWaiter(s1, o, t), t, LockQueue)
  }

  lemma KeyKeepsDetached(s: State, t: Tid, addr: Addr, value: Word)
    requires Detached(s, t)
    ensures var s' := PutThread(s, t, SetKey(s.threads[t], addr, value));
            && Detached(s', t) && (UniqueKeys(s) ==> UniqueKeys(s'))
            && (forall w {:trigger OwnerOf(s', w)} :: OwnerOf(s', w) == OwnerOf(s, w))
  {
    var s' := PutThread(s, t, SetKey(s.threads[t], addr, value));
    TouchKeepsSound(s, s', t);
    forall x | x in s'.threads && x != t ensures Settled(s', x) {
      assert Settled(s, x);
      assert OwnerOf(s', x) == OwnerOf(s, x);
    }
  }

  /** Waiting for an owner: only `t`'s owner changes, and everything else stays settled. */
  lemma AddWaiterDetached(s: State, o: Tid, t: Tid)
    requires Detached(s, t) && o in s.threads
    ensures var s' := AddWaiter(s, o, t);
            && Sound(s') && HandlesKnown(s') && Relinked(s, s') && (UniqueKeys(s) ==> UniqueKeys(s'))
            && (forall w {:trigger OwnerOf(s', w)} :: OwnerOf(s', w) == if w == t then Some(o) else OwnerOf(s, w))
            && (forall x {:trigger Settled(s', x)} :: x in s'.threads && x != t ==> Settled(s', x))
  {
    var s' := AddWaiter(s, o, t);
    AddWaiterCorrect(s, o, t);
    forall x | x in s'.threads && x != t ensures Settled(s', x) {
      assert Settled(s, x) && Alike(s, s', x);
      assert OwnerOf(s', x) == OwnerOf(s, x);
    }
  }

  lemma WaitForAddressKeepsInv(s: State, cur: Tid, handle: Word, addr: Addr, value: Word)
    requires Inv(s) && Running(s, cur)
    ensures Inv(WaitForAddress(s, cur, handle, addr, value).s)
  {
    if WaitForAddress(s, cur, handle, addr, value).returned.None? {
      RunningUnlinked(s, cur);
      WaitForOwnerSettles(s, cur, s.handles[handle], addr, value);
    }
  }

  lemma WaitForOwnerSettles(s: State, t: Tid, o: Tid, addr: Addr, value: Word)
    requires Detached(s, t) && o in s.threads
    ensures var s' := WaitForOwner(s, t, o, addr, value);
            && Inv(s') && (UniqueKeys(s) ==> UniqueKeys(s'))
            && (forall w {:trigger OwnerOf(s', w)} :: OwnerOf(s', w) == if w == t then Some(o) else OwnerOf(s, w))
  {
    var s1 := PutThread(s, t, SetKey(s.threads[t], addr, value));
    KeyKeepsDetached(s, t, addr, value);
    AddWaiterDetached(s1, o, t);
    var s2 := AddWaiter(s1, o, t);
    assert Alike(s1, s2, t) && OwnerOf(s2, t) == Some(o);
    BeginWaitSettles(s2, t, LockQueue);
  }

  // ----- SignalImpl -----

  ghost function SignalImpl(s: State, t: Tid): State
    requires Detached(s, t)
  {
    var a := s.threads[t].key;
    if a !in s.mem then EndWait(s, t, InvalidCurrentMemory)
    else
      var prev := s.mem[a];
      var m := s.mem[a := if prev == 0 then s.threads[t].val else OrMask(prev)];
      if prev == 0 then WithMem(EndWait(s, t, Success), m)
      else if ClearMask(prev) in s.handles then
        MemKeepsDetached(s, t, m);
        AddWaiter(WithMem(s, m), s.handles[ClearMask(prev)], t)
      else WithMem(EndWait(s, t, InvalidState), m)
  }

  lemma SignalImplKeepsInv(s: State, t: Tid)
    requires Detached(s, t) && s.threads[t].queue == CondQueue
    ensures Inv(SignalImpl(s, t))
    ensures SameTrees(s, SignalImpl(s, t))
  {
    var a := s.threads[t].key;
    var s' := SignalImpl(s, t);
    if a !in s.mem {
      EndWaitSettles(s, t, InvalidCurrentMemory, s.mem);
      assert s' == WithMem(EndWait(s, t, InvalidCurrentMemory), s.mem);
    } else {
      var prev := s.mem[a];
      var m := s.mem[a := if prev == 0 then s.threads[t].val else OrMask(prev)];
      if prev == 0 { EndWaitSettles(s, t, Success, m); }
      else if ClearMask(prev) in s.handles {
        MemKeepsDetached(s, t, m);
        SignalWaits(WithMem(s, m), s.handles[ClearMask(prev)], t);
        assert forall x {:trigger SameTree(s, s', x)} :: x in s.threads ==> SameTree(WithMem(s, m), s', x);
      } else { EndWaitSettles(s, t, InvalidState, m); }
    }
  }

  lemma SignalWaits(s: State, o: Tid, t: Tid)
    requires Detached(s, t) && s.threads[t].queue == CondQueue && o in s.threads
    ensures Inv(AddWaiter(s, o, t)) && SameTrees(s, AddWaiter(s, o, t))
  {
    var s' := AddWaiter(s, o, t);
    AddWaiterDetached(s, o, t);
    assert Alike(s, s', t) && OwnerOf(s', t) == Some(o);
    assert Settled(s', t);
    RelinkedTrees(s, s');
  }

  /** The trees have the same members, with the same keys. */
  ghost predicate SameTrees(s: State, s': State) {
    && s'.threads.Keys == s.threads.Keys
    && (forall x {:trigger SameTree(s, s', x)} :: x in s.threads ==> SameTree(s, s', x))
  }

  ghost predicate SameTree(s: State, s': State, x: Tid) {
    x in s.threads && x in s'.threads && s'.threads[x].tree == s.threads[x].tree && s'.threads[x].cvKey == s.threads[x].cvKey
  }

  lemma RelinkedTrees(s: State, s': State)
    requires Relinked(s, s')
    ensures SameTrees(s, s')
  {
    forall x | x in s.threads ensures SameTree(s, s', x) { assert Alike(s, s', x); }
  }

  // ----- Signal -----

  /** The tree iterator's successor of `t`. */
  function Next(q: seq<Tid>, t: Tid): (r: Option<Tid>)
    ensures r.Some? ==> r.value in q[if |q| > 0 then 1 else 0..]
  {
    if |q| < 2 then None else if q[0] == t then Some(q[1]) else Next(q[1..], t)
  }

  /** The first thread of the tree whose key is not below `k`. */
  function FirstFrom(th: Threads, q: seq<Tid>, k: Addr): (r: Option<Tid>)
    ensures r.Some? ==> r.value in q && r.value in th && k <= th[r.value].cvKey
  {
    if q == [] then None
    else if q[0] in th && k <= th[q[0]].cvKey then Some(q[0])
    else FirstFrom(th, q[1..], k)
  }

  /** One iteration of the signal loop: erase the target from the tree and signal it. */
  ghost function SignalTarget(s: State, t: Tid): State
    requires Inv(s) && t in s.threads && s.threads[t].tree == InCond
  {
    LeaveDetaches(s, t);
    SignalImpl(LeaveTree(s, t), t)
  }

  lemma LeaveDetaches(s: State, t: Tid)
    requires Inv(s) && t in s.threads && s.threads[t].tree != NoTree
    ensures var s' := LeaveTree(s, t);
            && Detached(s', t) && s'.threads[t] == OutOfTree(s.threads[t])
            && s'.threads == s.threads[t := s'.threads[t]] && s'.mem == s.mem
            && (forall w {:trigger OwnerOf(s', w)} :: OwnerOf(s', w) == OwnerOf(s, w))
            && (UniqueKeys(s) ==> UniqueKeys(s'))
  {
    assert Settled(s, t) && ThreadLinks(s, t);
    LeaveTreeMoves(s, t);
    var s' := LeaveTree(s, t);
    MoveKeepsSound(s, s', t);
    forall x | x in s'.threads && x != t ensures Settled(s', x) {
      assert Settled(s, x);
      assert OwnerOf(s', x) == OwnerOf(s, x);
    }
  }

  /** `t` left the condition-variable tree and nothing else entered or left a tree. */
  ghost predicate LeftTree(s: State, s': State, t: Tid) {
    && s'.threads.Keys == s.threads.Keys && t in s'.threads && s'.threads[t].tree == NoTree
    && (forall x {:trigger SameTree(s, s', x)} :: x in s.threads && x != t ==> SameTree(s, s', x))
  }

  lemma SignalTargetKeepsInv(s: State, t: Tid)
    requires Inv(s) && t in s.threads && s.threads[t].tree == InCond
    ensures Inv(SignalTarget(s, t)) && LeftTree(s, SignalTarget(s, t), t)
  {
    assert Settled(s, t);
    LeaveDetaches(s, t);
    var s1 := LeaveTree(s, t);
    SignalImplKeepsInv(s1, t);
    var s2 := SignalTarget(s, t);
    forall x | x in s.threads && x != t ensures SameTree(s, s2, x) { assert SameTree(s1, s2, x); }
    assert SameTree(s1, s2, t);
  }

  ghost function CondMembers(s: State): set<Tid> { set t | t in s.threads && s.threads[t].tree == InCond }

  lemma MembersShrink(s: State, s': State, t: Tid)
    requires LeftTree(s, s', t) && t in s.threads && s.threads[t].tree == InCond
    ensures CondMembers(s') == CondMembers(s) - {t} && |CondMembers(s')| < |CondMembers(s)|
  {
    assert t in CondMembers(s);
    forall x ensures x in CondMembers(s') <==> x in CondMembers(s) - {t} {
      if x in s.threads && x != t { assert SameTree(s, s', x); }
    }
    assert CondMembers(s') == CondMembers(s) - {t};
  }

  /** The iterator of the signal loop is at the end of the tree or at a member. */
  ghost predicate ValidCursor(s: State, it: Option<Tid>) {
    it.Some? ==> it.value in s.threads && s.threads[it.value].tree == InCond
  }

  lemma CursorSurvives(s: State, t: Tid)
    requires Inv(s) && t in s.threads && s.threads[t].tree == InCond
    ensures ValidCursor(SignalTarget(s, t), Next(s.cond, t))
    ensures Next(s.cond, t).Some? ==> Next(s.cond, t).value != t
  {
    SignalTargetKeepsInv(s, t);
    assert ThreadLinks(s, t);
    var n := Next(s.cond, t);
    if n.Some? {
      NextDistinct(ByKeyThenPriority, s.threads, s.cond, t);
      QueuedIn(ByKeyThenPriority, s.threads, s.cond, n.value);
      assert ThreadLinks(s, n.value) && SameTree(s, SignalTarget(s, t), n.value);
    }
  }

  lemma {:induction false} NextDistinct(o: Order, th: Threads, q: seq<Tid>, t: Tid)
    requires Queued(o, th, q) && Next(q, t).Some?
    ensures Next(q, t).value != t && Next(q, t).value in q
  {
    if q[0] != t { NextDistinct(o, th, q[1..], t); }
  }

  /** Where the signal loop stops: the state and the iterator. */
  datatype Loop = Loop(s: State, it: Option<Tid>)

  predicate Continues(s: State, k: Addr, count: int, num: nat, it: Option<Tid>) {
    it.Some? && it.value in s.threads && (count <= 0 || num < count) && s.threads[it.value].cvKey == k
  }

  /** The loop of `Signal`: the iterator moves on before the target is signalled, and signalling
      may re-insert threads into the tree. */
  ghost function SignalLoop(s: State, k: Addr, count: int, num: nat, it: Option<Tid>): (r: Loop)
    requires Inv(s) && ValidCursor(s, it)
    ensures Inv(r.s) && ValidCursor(r.s, r.it)
    decreases |CondMembers(s)|
  {
    if Continues(s, k, count, num, it) then
      SignalTargetKeepsInv(s, it.value);
      CursorSurvives(s, it.value);
      MembersShrink(s, SignalTarget(s, it.value), it.value);
      SignalLoop(SignalTarget(s, it.value), k, count, num + 1, Next(s.cond, it.value))
    else Loop(s, it)
  }

  /** One iteration. */
  lemma LoopOn(s: State, k: Addr, count: int, num: nat, t: Tid)
    requires Inv(s) && ValidCursor(s, Some(t)) && Continues(s, k, count, num, Some(t))
    ensures var s', z := SignalTarget(s, t), Next(s.cond, t);
            && Inv(s') && ValidCursor(s', z) && |CondMembers(s')| < |CondMembers(s)|
            && SignalLoop(s, k, count, num, Some(t)) == SignalLoop(s', k, count, num + 1, z)
  {
    SignalTargetKeepsInv(s, t);
    CursorSurvives(s, t);
    MembersShrink(s, SignalTarget(s, t), t);
  }

  /** Whether the loop stopped because the iterator left the key's threads. */
  ghost predicate LeftGroup(r: Loop, k: Addr) {
    r.it.None? || (r.it.value in r.s.threads && r.s.threads[r.it.value].cvKey != k)
  }

  ghost function Signal(s: State, k: Addr, count: int): State
    requires Inv(s)
  {
    FirstValid(s, k);
    var r := SignalLoop(s, k, count, 0, FirstFrom(s.threads, s.cond, k));
    if LeftGroup(r, k) then WithMem(r.s, Store(r.s.mem, k, 0)) else r.s
  }

  lemma FirstValid(s: State, k: Addr)
    requires Inv(s)
    ensures ValidCursor(s, FirstFrom(s.threads, s.cond, k))
  {
    var f := FirstFrom(s.threads, s.cond, k);
    if f.Some? { assert ThreadLinks(s, f.value); }
  }

  lemma SignalKeepsInv(s: State, cur: Tid, k: Addr, count: int)
    requires Inv(s) && Running(s, cur)
    ensures Inv(Signal(s, k, count))
  {
    FirstValid(s, k);
    var r := SignalLoop(s, k, count, 0, FirstFrom(s.threads, s.cond, k));
    if LeftGroup(r, k) { MemInv(r.s, Store(r.s.mem, k, 0)); }
  }

  /** Writing memory keeps the invariant. */
  lemma MemInv(s: State, m: map<Addr, Word>)
    requires Inv(s)
    ensures var s' := WithMem(s, m);
            && Inv(s') && (UniqueKeys(s) ==> UniqueKeys(s'))
            && (forall w {:trigger OwnerOf(s', w)} :: OwnerOf(s', w) == OwnerOf(s, w))
  {
    var s' := WithMem(s, m);
    if s.threads == map[] {
      assert forall l {:trigger LockLinks(s', l)} :: l in s'.locks ==> LockLinks(s, l);
      assert forall a, b {:trigger SameSlot(s', a, b)} :: SameSlot(s', a, b) ==> SameSlot(s, a, b);
    } else {
      var t :| t in s.threads;
      TouchKeepsSound(s, s', t);
    }
    forall x | x in s'.threads ensures Settled(s', x) {
      assert Settled(s, x);
    }
  }

  // ----- Wait -----

  ghost function Wait(s: State, cur: Tid, addr: Addr, key: Addr, value: Word, timeout: int): Outcome
    requires Inv(s) && Running(s, cur)
  {
    if s.threads[cur].dying then Outcome(s, Some(TerminationRequested))
    else
      var s1 := GiveUp(s, cur, addr, Success, Store(s.mem, key, 1));
      GiveUpKeepsInv(s, cur, addr, Success, Store(s.mem, key, 1));
      if addr !in s.mem then Outcome(s1, Some(InvalidCurrentMemory))
      else if timeout == 0 then Outcome(s1, Some(TimedOut))
      else
        RunningUnlinked(s1, cur);
        Outcome(SleepOn(s1, cur, addr, key, value), None)
  }

  /** The second half of `Wait`: enter the tree under the key and block. */
  ghost function SleepOn(s: State, cur: Tid, addr: Addr, key: Addr, value: Word): State
    requires Detached(s, cur)
  {
    var s1 := PutThread(s, cur, SetKey(s.threads[cur], addr, value));
    KeyKeepsDetached(s, cur, addr, value);
    BeginWait(EnterCond(s1, cur, key), cur, CondQueue)
  }

  lemma SleepOnSettles(s: State, cur: Tid, addr: Addr, key: Addr, value: Word)
    requires Detached(s, cur)
    ensures var s' := SleepOn(s, cur, addr, key, value);
            && Inv(s') && (UniqueKeys(s) ==> UniqueKeys(s'))
            && (forall w {:trigger OwnerOf(s', w)} :: OwnerOf(s', w) == OwnerOf(s, w))
  {
    var s1 := PutThread(s, cur, SetKey(s.threads[cur], addr, value));
    KeyKeepsDetached(s, cur, addr, value);
    EnterCondMoves(s1, cur, key);
    var s2 := EnterCond(s1, cur, key);
    MoveKeepsSound(s1, s2, cur);
    forall x | x in s2.threads && x != cur ensures Settled(s2, x) {
      assert Settled(s1, x);
      assert OwnerOf(s2, x) == OwnerOf(s1, x);
    }
    assert OwnerOf(s2, cur) == None;
    BeginWaitSettles(s2, cur, CondQueue);
  }

  lemma WaitKeepsInv(s: State, cur: Tid, addr: Addr, key: Addr, value: Word, timeout: int)
    requires Inv(s) && Running(s, cur)
    ensures Inv(Wait(s, cur, addr, key, value, timeout).s)
  {
    if !s.threads[cur].dying {
      GiveUpKeepsInv(s, cur, addr, Success, Store(s.mem, key, 1));
      var s1 := GiveUp(s, cur, addr, Success, Store(s.mem, key, 1));
      RunningUnlinked(s1, cur);
      SleepOnSettles(s1, cur, addr, key, value);
    }
  }

  // ----- CancelWait -----

  /** `CancelWait` of the queue the thread sleeps in. */
  ghost function Cancel(s: State, t: Tid, r: Result): State
    requires Inv(s) && t in s.threads
  {
    if s.threads[t].queue == NoQueue then s
    else
      UnlinkDetaches(s, t);
      EndWait(Unlink(s, t), t, r)
  }

  /** Take a blocked thread out of its owner's waiters or its tree. */
  ghost function Unlink(s: State, t: Tid): State
    requires Inv(s) && t in s.threads
  {
    match OwnerOf(s, t)
    case Some(o) => RemoveWaiter(s, o, t)
    case None => LeaveTree(s, t)
  }

  /** At any phase of a wait there is exactly one place to take the thread from, and afterwards
      it is in no queue. */
  lemma UnlinkDetaches(s: State, t: Tid)
    requires Inv(s) && t in s.threads && s.threads[t].queue != NoQueue
    ensures OwnerOf(s, t).Some? != (s.threads[t].tree != NoTree)
    ensures var s' := Unlink(s, t);
            && Detached(s', t) && (UniqueKeys(s) ==> UniqueKeys(s'))
            && (forall w {:trigger OwnerOf(s', w)} :: OwnerOf(s', w) == if w == t then None else OwnerOf(s, w))
  {
    assert Settled(s, t);
    match OwnerOf(s, t) {
      case Some(o) =>
        RemoveWaiterCorrect(s, o, t);
        var s' := RemoveWaiter(s, o, t);
        assert Alike(s, s', t) && OwnerOf(s', t) == None;
        DetachedByLinks(s', t);
        forall x | x in s'.threads && x != t ensures Settled(s', x) {
          assert Settled(s, x) && Alike(s, s', x);
          assert OwnerOf(s', x) == OwnerOf(s, x);
        }
      case None =>
        LeaveDetaches(s, t);
    }
  }

  lemma CancelKeepsInv(s: State, t: Tid, r: Result)
    requires Inv(s) && t in s.threads
    ensures var s' := Cancel(s, t, r); Inv(s') && Running(s', t) && OwnerOf(s', t) == None && t !in s'.cond && t !in s'.arb
  {
    if s.threads[t].queue != NoQueue {
      UnlinkDetaches(s, t);
      var s1 := Unlink(s, t);
      EndWaitSettles(s1, t, r, s1.mem);
      assert Cancel(s, t, r) == WithMem(EndWait(s1, t, r), s1.mem);
    }
    var s' := Cancel(s, t, r);
    assert Settled(s', t) && ThreadLinks(s', t);
  }
}
