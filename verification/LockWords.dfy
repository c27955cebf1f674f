/** Runs in which user code follows the lock protocol: user memory agrees with the kernel queues.

    A lock word is 0 or the holder's tag, with the wait bit while a thread waits in the kernel.
    User code may take a free lock, release an uncontended one, and set the wait bit; a word
    with the wait bit is changed by the kernel only. */
module LockWords {
  import opened Basics
  import opened WaitTrees
  import opened KernelState
  import opened PriorityInheritance
  import opened WaiterLists
  import opened WaitSteps
  import opened ConditionVariable
  import Arb = AddressArbiter
  import opened KernelRuns

  /** The threads' tags, and which words are locks and which are condition-variable keys. */
  datatype Setup = Setup(tags: map<Tid, Word>, locks: set<Addr>, keys: set<Addr>)

  /** Every thread's tag is a handle of that thread, without the wait bit. */
  ghost predicate SetupOk(d: Setup, s: State) {
    && d.tags.Keys == s.threads.Keys && d.locks !! d.keys
    && (forall t :: t in d.tags ==> 0 < d.tags[t] < WAIT_MASK && d.tags[t] in s.handles && s.handles[d.tags[t]] == t)
  }

  lemma MaskFacts(w: Word)
    requires w < WAIT_MASK
    ensures !Masked(w) && OrMask(w) == w + WAIT_MASK && ClearMask(w) == w
    ensures Masked(w + WAIT_MASK) && OrMask(w + WAIT_MASK) == w + WAIT_MASK && ClearMask(w + WAIT_MASK) == w
  {
  }

  /** The word says that `t` holds the lock at `a`. */
  ghost predicate Holds(d: Setup, s: State, t: Tid, a: Addr) {
    a in d.locks && a in s.mem && t in d.tags && ClearMask(s.mem[a]) == d.tags[t]
  }

  /** A lock word names nobody or a thread. */
  ghost predicate WordOk(d: Setup, w: Word) {
    w == 0 || exists o :: o in d.tags && (w == d.tags[o] || w == d.tags[o] + WAIT_MASK)
  }

  /** A thread in a lock's queue sees its owner's tag with the wait bit; a thread that waits for a
      lock, now or after its condition variable is signalled, does not hold it. */
  ghost predicate ThreadWords(d: Setup, s: State, t: Tid)
    requires t in s.threads
  {
    var x := s.threads[t];
    && (OwnerOf(s, t).Some? || x.tree == InCond ==> t in d.tags && x.key in d.locks && x.key in s.mem && x.val == d.tags[t])
    && (OwnerOf(s, t).Some? ==> OwnerOf(s, t).value in d.tags && s.mem[x.key] == d.tags[OwnerOf(s, t).value] + WAIT_MASK)
    && (x.tree == InCond ==> x.cvKey in d.keys)
    && (OwnerOf(s, t).Some? || x.tree == InCond ==> !Holds(d, s, t, x.key))
  }

  ghost predicate Words(d: Setup, s: State) {
    && SetupOk(d, s) && UniqueKeys(s)
    && (forall t {:trigger ThreadWords(d, s, t)} :: t in s.threads ==> ThreadWords(d, s, t))
    && (forall a {:trigger s.mem[a]} :: a in d.locks && a in s.mem ==> WordOk(d, s.mem[a]))
  }

  /** A thread that waits for a lock afterwards waited for it in the same way before. */
  ghost predicate SameWait(s: State, s': State, t: Tid) {
    && t in s.threads && t in s'.threads
    && (OwnerOf(s', t).Some? || s'.threads[t].tree == InCond ==> SameFields(s, s', t) && OwnerOf(s', t) == OwnerOf(s, t))
  }

  ghost predicate SameWord(s: State, s': State, a: Addr) {
    (a in s'.mem <==> a in s.mem) && (a in s.mem ==> s'.mem[a] == s.mem[a])
  }

  lemma FrameThread(d: Setup, s: State, s': State, t: Tid)
    requires t in s.threads && ThreadWords(d, s, t) && SameWait(s, s', t) && SameWord(s, s', s.threads[t].key)
    ensures ThreadWords(d, s', t)
  {
  }

  /** Nothing the lock words depend on changes. */
  lemma FrameWords(d: Setup, s: State, s': State)
    requires Words(d, s) && s'.threads.Keys == s.threads.Keys && s'.handles == s.handles && UniqueKeys(s')
    requires forall t {:trigger SameWait(s, s', t)} :: t in s.threads ==> SameWait(s, s', t)
    requires forall a {:trigger SameWord(s, s', a)} :: a in d.locks ==> SameWord(s, s', a)
    ensures Words(d, s')
  {
    forall t | t in s'.threads ensures ThreadWords(d, s', t) {
      assert ThreadWords(d, s, t) && SameWait(s, s', t);
      if OwnerOf(s', t).Some? || s'.threads[t].tree == InCond { assert SameWord(s, s', s.threads[t].key); }
    }
    forall a | a in d.locks && a in s'.mem ensures WordOk(d, s'.mem[a]) {
      assert SameWord(s, s', a);
    }
  }

  // ----- What a step guarantees -----

  ghost predicate ForLock(x: Thread) { x.queue == LockQueue || x.queue == CondQueue }

  /** Nobody but the releasing thread loses a lock. */
  ghost predicate KeepHolding(d: Setup, s: State, s': State, released: Option<(Tid, Addr)>) {
    forall t: Tid, a: Addr {:trigger Holds(d, s', t, a)} :: Holds(d, s, t, a) && released != Some((t, a)) ==> Holds(d, s', t, a)
  }

  /** A thread whose lock or condition-variable wait ends with success holds its lock. */
  ghost predicate WakeHolding(d: Setup, s: State, s': State) {
    forall t :: t in s.threads && t in s'.threads && ForLock(s.threads[t]) && Running(s', t) && s'.threads[t].result == Success
      ==> Holds(d, s', t, s.threads[t].key)
  }

  ghost predicate Safe(d: Setup, s: State, s': State, released: Option<(Tid, Addr)>) {
    Words(d, s') && KeepHolding(d, s, s', released) && WakeHolding(d, s, s')
  }

  // ----- Handing a lock over -----

  /** `RemoveWaiterByKey` by the holder and the store of the next value. */
  ghost predicate HandedTo(s: State, s': State, h: Handed, addr: Addr) {
    && s'.threads.Keys == s.threads.Keys && s'.handles == s.handles
    && (forall t {:trigger OwnerOf(s', t)} :: OwnerOf(s', t) == OwnerOf(h.s, t))
    && (forall t {:trigger SameFields(s, s', t)} :: t in s.threads ==> SameFields(s, s', t))
    && addr in s'.mem && s'.mem[addr] == NextValue(h)
  }

  ghost predicate SameFields(s: State, s': State, t: Tid) {
    && t in s.threads && t in s'.threads
    && s'.threads[t].tree == s.threads[t].tree && s'.threads[t].cvKey == s.threads[t].cvKey
    && s'.threads[t].key == s.threads[t].key && s'.threads[t].val == s.threads[t].val
  }

  /** The holder of a lock gives it up: the words agree again. */
  lemma HandOverWords(d: Setup, s: State, s': State, cur: Tid, addr: Addr)
    requires Inv(s) && Words(d, s) && Running(s, cur) && s.threads[cur].lock == None && Holds(d, s, cur, addr)
    requires HandedTo(s, s', RemoveWaiterByKey(s, cur, addr), addr) && UniqueKeys(s')
    requires forall a {:trigger SameWord(s, s', a)} :: a in d.locks && a != addr ==> SameWord(s, s', a)
    ensures Words(d, s') && !Holds(d, s', cur, addr)
    ensures var h := RemoveWaiterByKey(s, cur, addr); h.next.Some? ==> Holds(d, s', h.next.value, addr)
  {
    var h := RemoveWaiterByKey(s, cur, addr);
    HandedDetached(s, cur, addr);
    RemoveWaiterByKeyCorrect(s, cur, addr);
    NextWord(d, s, h, cur, addr);
    forall t | t in s'.threads ensures ThreadWords(d, s', t) {
      assert ThreadWords(d, s, t) && SameFields(s, s', t);
      if h.next.None? { HandOverNone(d, s, s', cur, addr, t); }
      else { HandOverThreadWords(d, s, s', h, cur, addr, t); }
    }
    forall a | a in d.locks && a in s'.mem ensures WordOk(d, s'.mem[a]) {
      if a != addr { assert SameWord(s, s', a); }
    }
  }

  ghost predicate TagOfNext(d: Setup, h: Handed) {
    && h.next.Some? && h.next.value in d.tags && ClearMask(NextValue(h)) == d.tags[h.next.value]
    && NextValue(h) == d.tags[h.next.value] + (if h.more then WAIT_MASK else 0)
  }

  /** The stored value is the next owner's tag, or 0. */
  lemma NextWord(d: Setup, s: State, h: Handed, cur: Tid, addr: Addr)
    requires Words(d, s) && Relinked(s, h.s) && cur in d.tags
    requires h.next.Some? ==> Promoted(s, h, cur, addr)
    ensures h.next.None? ==> NextValue(h) == 0
    ensures h.next.Some? ==> TagOfNext(d, h) && h.next.value != cur
    ensures ClearMask(NextValue(h)) != d.tags[cur] && WordOk(d, NextValue(h))
  {
    if h.next.Some? {
      var n := h.next.value;
      assert ThreadWords(d, s, n) && Alike(s, h.s, n);
      MaskFacts(d.tags[n]);
    }
  }

  lemma HandOverNone(d: Setup, s: State, s': State, cur: Tid, addr: Addr, t: Tid)
    requires SetupOk(d, s) && Holds(d, s, cur, addr) && t in s.threads && ThreadWords(d, s, t) && SameFields(s, s', t)
    requires OwnerOf(s', t) == OwnerOf(s, t) && addr in s'.mem && s'.mem[addr] == 0
    requires OwnerOf(s, t) == Some(cur) ==> s.threads[t].key != addr
    requires forall a {:trigger SameWord(s, s', a)} :: a in d.locks && a != addr ==> SameWord(s, s', a)
    ensures ThreadWords(d, s', t)
  {
    var k := s.threads[t].key;
    if k in d.locks {
      if k != addr { assert SameWord(s, s', k); }
      else if OwnerOf(s, t).Some? { MaskFacts(d.tags[OwnerOf(s, t).value]); }
    }
  }

  lemma HandOverThreadWords(d: Setup, s: State, s': State, h: Handed, cur: Tid, addr: Addr, t: Tid)
    requires Links(s) && Words(d, s) && Holds(d, s, cur, addr) && t in s.threads && ThreadWords(d, s, t) && SameFields(s, s', t)
    requires h.next.Some? && Promoted(s, h, cur, addr) && OwnerOf(s', t) == OwnerOf(h.s, t)
    requires TagOfNext(d, h) && addr in s'.mem && s'.mem[addr] == NextValue(h)
    requires forall a {:trigger SameWord(s, s', a)} :: a in d.locks && a != addr ==> SameWord(s, s', a)
    ensures ThreadWords(d, s', t)
  {
    var n := h.next.value;
    var l := s.threads[n].lock.value;
    var k := s.threads[t].key;
    if OwnerOf(s, t).Some? && k == addr { OnlyQueue(d, s, n, cur, addr, t); }
    assert Queues(s, t, l) ==> BehindIn(s, t, n, cur, addr);
    assert ThreadLinks(s, n);
    if k in d.locks && k != addr { assert SameWord(s, s', k); }
  }

  /** Every thread that waits for a lock waits in the queue of its holder. */
  lemma OnlyQueue(d: Setup, s: State, n: Tid, cur: Tid, addr: Addr, t: Tid)
    requires Links(s) && SetupOk(d, s) && UniqueKeys(s) && Holds(d, s, cur, addr)
    requires n in s.threads && s.threads[n].lock.Some? && OwnerOf(s, n) == Some(cur) && s.threads[n].key == addr
    requires t in s.threads && ThreadWords(d, s, t) && OwnerOf(s, t).Some? && s.threads[t].key == addr
    ensures OwnerOf(s, t) == Some(cur) && Queues(s, t, s.threads[n].lock.value)
  {
    MaskFacts(d.tags[OwnerOf(s, t).value]);
    assert ThreadLinks(s, t) && ThreadLinks(s, n);
    var l, m := s.threads[n].lock.value, s.threads[t].lock.value;
    assert LockLinks(s, l) && LockLinks(s, m) && WaitsIn(s, n, l) && WaitsIn(s, t, m);
    assert SameSlot(s, l, m);
  }

  /** The next owner lists no other lock for the word, so keys stay unique. */
  lemma HandOverKeepsUnique(d: Setup, s: State, h: Handed, cur: Tid, addr: Addr)
    requires Links(s) && Words(d, s) && Holds(d, s, cur, addr) && h.next.Some? && Promoted(s, h, cur, addr)
    ensures UniqueKeys(h.s)
  {
    var n := h.next.value;
    forall m | m in s.locks && s.locks[m].owner == n ensures s.locks[m].key != addr {
      assert LockLinks(s, m);
      var w := s.locks[m].waiters[0];
      assert WaitsIn(s, w, m) && ThreadWords(d, s, w);
      MaskFacts(d.tags[n]);
    }
  }

  // ----- ArbitrateUnlock and ArbitrateLock -----

  /** What the holder's release does, apart from who wakes up. */
  lemma ReleaseKeepsOthers(d: Setup, s: State, s': State, cur: Tid, addr: Addr)
    requires SetupOk(d, s) && Holds(d, s, cur, addr)
    requires forall a {:trigger SameWord(s, s', a)} :: a in d.locks && a != addr ==> SameWord(s, s', a)
    ensures KeepHolding(d, s, s', Some((cur, addr)))
  {
    forall t: Tid, a: Addr | Holds(d, s, t, a) && (t, a) != (cur, addr) ensures Holds(d, s', t, a) {
      assert SameWord(s, s', a);
    }
  }

  lemma UnlockSafe(d: Setup, s: State, cur: Tid, addr: Addr)
    requires Inv(s) && Words(d, s) && Running(s, cur) && Holds(d, s, cur, addr)
    ensures Safe(d, s, SignalToAddress(s, cur, addr).s, Some((cur, addr)))
  {
    GiveUpSafe(d, s, cur, addr, s.mem);
  }

  /** The holder gives a lock up, with other lock words untouched. */
  lemma GiveUpSafe(d: Setup, s: State, cur: Tid, addr: Addr, m: map<Addr, Word>)
    requires Inv(s) && Words(d, s) && Running(s, cur) && Holds(d, s, cur, addr)
    requires addr in m && forall a {:trigger SameWord(s, WithMem(s, m), a)} :: a in d.locks ==> SameWord(s, WithMem(s, m), a)
    ensures var s' := GiveUp(s, cur, addr, Success, m); Safe(d, s, s', Some((cur, addr))) && !Holds(d, s', cur, addr)
  {
    RunningUnlinked(s, cur);
    var s' := GiveUp(s, cur, addr, Success, m);
    GiveUpOwners(d, s, cur, addr, m);
    GiveUpFields(s, cur, addr, m);
    forall a | a in d.locks && a != addr ensures SameWord(s, s', a) { assert SameWord(s, WithMem(s, m), a); }
    HandOverWords(d, s, s', cur, addr);
    ReleaseKeepsOthers(d, s, s', cur, addr);
  }

  lemma GiveUpOwners(d: Setup, s: State, cur: Tid, addr: Addr, m: map<Addr, Word>)
    requires Inv(s) && Words(d, s) && Running(s, cur) && s.threads[cur].lock == None && Holds(d, s, cur, addr)
    ensures var s' := GiveUp(s, cur, addr, Success, m);
            var h := RemoveWaiterByKey(s, cur, addr);
            UniqueKeys(s') && (forall t {:trigger OwnerOf(s', t)} :: OwnerOf(s', t) == OwnerOf(h.s, t))
  {
    var h := RemoveWaiterByKey(s, cur, addr);
    HandedDetached(s, cur, addr);
    var m' := Store(m, addr, NextValue(h));
    if h.next.None? { MemKeepsInv(s, cur, m'); }
    else {
      HandOverKeepsUnique(d, s, h, cur, addr);
      EndWaitSettles(h.s, h.next.value, Success, m');
    }
  }

  /** Only the next owner wakes. */
  lemma GiveUpFields(s: State, cur: Tid, addr: Addr, m: map<Addr, Word>)
    requires Inv(s) && Running(s, cur) && s.threads[cur].lock == None
    ensures var s' := GiveUp(s, cur, addr, Success, m);
            var h := RemoveWaiterByKey(s, cur, addr);
            && s'.threads.Keys == s.threads.Keys && s'.handles == s.handles && s'.mem == Store(m, addr, NextValue(h))
            && (forall t {:trigger SameFields(s, s', t)} :: t in s.threads ==> SameFields(s, s', t))
            && (forall t :: t in s.threads && !Running(s, t) && Running(s', t) ==> h.next == Some(t) && s.threads[t].key == addr)
            && (forall t :: t in s.threads && Running(s, t) ==> Running(s', t))
  {
    var h := RemoveWaiterByKey(s, cur, addr);
    HandedDetached(s, cur, addr);
    var s' := GiveUp(s, cur, addr, Success, m);
    assert s'.threads == if h.next.Some? then EndWait(h.s, h.next.value, Success).threads else h.s.threads;
    forall t | t in s.threads
      ensures SameFields(s, s', t) && (Running(s, t) ==> Running(s', t))
      ensures !Running(s, t) && Running(s', t) ==> h.next == Some(t)
    {
      WokenFields(s, h.s, s', h.next, t);
    }
  }

  lemma WokenFields(s: State, s1: State, s': State, next: Option<Tid>, t: Tid)
    requires Alike(s, s1, t) && (next.Some? ==> next.value in s1.threads)
    requires s'.threads == if next.Some? then EndWait(s1, next.value, Success).threads else s1.threads
    ensures SameFields(s, s', t) && (Running(s, t) ==> Running(s', t))
    ensures !Running(s, t) && Running(s', t) ==> next == Some(t)
  {
  }

  lemma ArbitrateLockSafe(d: Setup, s: State, cur: Tid, handle: Word, addr: Addr)
    requires Inv(s) && Words(d, s) && Running(s, cur) && addr in d.locks && handle < WAIT_MASK && !Holds(d, s, cur, addr)
    ensures Safe(d, s, WaitForAddress(s, cur, handle, addr, d.tags[cur]).s, None)
  {
    var r := WaitForAddress(s, cur, handle, addr, d.tags[cur]);
    if r.returned.None? {
      RunningUnlinked(s, cur);
      OwnerOfWord(d, s, addr, handle);
      WaitForOwnerSafe(d, s, cur, s.handles[handle], addr);
    }
  }

  lemma OwnerOfWord(d: Setup, s: State, addr: Addr, handle: Word)
    requires Words(d, s) && addr in d.locks && addr in s.mem && handle < WAIT_MASK && handle in s.handles
    requires s.mem[addr] == OrMask(handle)
    ensures s.handles[handle] in d.tags && d.tags[s.handles[handle]] == handle && s.mem[addr] == handle + WAIT_MASK
  {
    MaskFacts(handle);
    var o :| o in d.tags && (s.mem[addr] == d.tags[o] || s.mem[addr] == d.tags[o] + WAIT_MASK);
    MaskFacts(d.tags[o]);
  }

  lemma WaitForOwnerSafe(d: Setup, s: State, cur: Tid, o: Tid, addr: Addr)
    requires Inv(s) && Words(d, s) && Running(s, cur) && Detached(s, cur) && addr in d.locks && addr in s.mem
    requires o in s.threads && !Holds(d, s, cur, addr) && s.mem[addr] == d.tags[o] + WAIT_MASK
    ensures Safe(d, s, WaitForOwner(s, cur, o, addr, d.tags[cur]), None)
  {
    var s' := WaitForOwner(s, cur, o, addr, d.tags[cur]);
    WaitForOwnerSettles(s, cur, o, addr, d.tags[cur]);
    WaitForOwnerFields(s, cur, o, addr, d.tags[cur]);
    forall t | t in s'.threads ensures ThreadWords(d, s', t) {
      assert ThreadWords(d, s, t);
      if t != cur {
        assert SameFields(s, s', t) && OwnerOf(s', t) == OwnerOf(s, t);
        FrameThread(d, s, s', t);
      } else { assert OwnerOf(s', t) == Some(o); }
    }
  }

  lemma WaitForOwnerFields(s: State, cur: Tid, o: Tid, addr: Addr, v: Word)
    requires Detached(s, cur) && o in s.threads
    ensures var s' := WaitForOwner(s, cur, o, addr, v);
            && s'.threads.Keys == s.threads.Keys && s'.mem == s.mem && s'.handles == s.handles
            && (forall t {:trigger SameFields(s, s', t)} :: t in s.threads && t != cur ==> SameFields(s, s', t))
            && (forall t :: t in s.threads && t != cur ==> s'.threads[t].queue == s.threads[t].queue)
            && s'.threads[cur].key == addr && s'.threads[cur].val == v && s'.threads[cur].tree == NoTree
            && s'.threads[cur].queue == LockQueue
  {
    var s1 := PutThread(s, cur, SetKey(s.threads[cur], addr, v));
    KeyKeepsDetached(s, cur, addr, v);
    AddWaiterDetached(s1, o, cur);
    var s2 := AddWaiter(s1, o, cur);
    var s' := WaitForOwner(s, cur, o, addr, v);
    assert Alike(s1, s2, cur);
    forall t | t in s.threads && t != cur ensures SameFields(s, s', t) && s'.threads[t].queue == s.threads[t].queue {
      assert Alike(s1, s2, t);
    }
  }

  // ----- SignalProcessWideKey -----

  /** `t` will want its lock back: it knows its own tag and does not hold the lock. */
  ghost predicate Pending(d: Setup, s: State, t: Tid) {
    && t in s.threads && t in d.tags && s.threads[t].key in d.locks && s.threads[t].key in s.mem
    && s.threads[t].val == d.tags[t] && !Holds(d, s, t, s.threads[t].key)
  }

  /** Nobody changes what it waits for, and running threads keep running with their results. */
  ghost predicate Calm(s: State, s': State) {
    && s'.threads.Keys == s.threads.Keys && s'.handles == s.handles
    && (forall t {:trigger CalmThread(s, s', t)} :: t in s.threads ==> CalmThread(s, s', t))
  }

  ghost predicate CalmThread(s: State, s': State, t: Tid) {
    && t in s.threads && t in s'.threads
    && s'.threads[t].key == s.threads[t].key && s'.threads[t].val == s.threads[t].val
    && (Running(s, t) ==> Running(s', t) && s'.threads[t].result == s.threads[t].result)
    && (Running(s', t) || s'.threads[t].queue == s.threads[t].queue)
  }

  lemma SafeTrans(d: Setup, s: State, s1: State, s2: State)
    requires Safe(d, s, s1, None) && Safe(d, s1, s2, None) && Calm(s, s1) && Calm(s1, s2)
    ensures Safe(d, s, s2, None) && Calm(s, s2)
  {
    forall t | t in s.threads ensures CalmThread(s, s2, t) { assert CalmThread(s, s1, t) && CalmThread(s1, s2, t); }
    forall t: Tid, a: Addr | Holds(d, s, t, a) ensures Holds(d, s2, t, a) { assert Holds(d, s1, t, a); }
    forall t | t in s.threads && ForLock(s.threads[t]) && Running(s2, t) && s2.threads[t].result == Success
      ensures Holds(d, s2, t, s.threads[t].key)
    {
      assert CalmThread(s, s1, t) && CalmThread(s1, s2, t);
      if Running(s1, t) { assert Holds(d, s1, t, s.threads[t].key); }
    }
  }

  lemma SignalImplSafe(d: Setup, s: State, t: Tid)
    requires Words(d, s) && Detached(s, t) && s.threads[t].queue == CondQueue && Pending(d, s, t)
    ensures Safe(d, s, SignalImpl(s, t), None) && Calm(s, SignalImpl(s, t))
  {
    var a := s.threads[t].key;
    var prev := s.mem[a];
    assert WordOk(d, prev);
    if prev == 0 {
      SignalTakes(d, s, t);
    } else {
      var o :| o in d.tags && (prev == d.tags[o] || prev == d.tags[o] + WAIT_MASK);
      MaskFacts(d.tags[o]);
      SignalQueues(d, s, t, o);
    }
  }

  /** The lock is free: the signalled thread takes it. */
  lemma SignalTakes(d: Setup, s: State, t: Tid)
    requires Words(d, s) && Detached(s, t) && s.threads[t].queue == CondQueue && Pending(d, s, t)
    requires s.mem[s.threads[t].key] == 0
    ensures Safe(d, s, SignalImpl(s, t), None) && Calm(s, SignalImpl(s, t))
  {
    SignalTakesShape(s, t);
    SignalTakesWords(d, s, SignalImpl(s, t), t);
  }

  /** Only the word and `t`'s wait change. */
  ghost predicate Taken(s: State, s': State, t: Tid) {
    && t in s.threads && Calm(s, s') && s'.mem == s.mem[s.threads[t].key := s.threads[t].val]
    && (forall x {:trigger OwnerOf(s', x)} :: OwnerOf(s', x) == OwnerOf(s, x))
    && (forall x {:trigger SameFields(s, s', x)} :: x in s.threads ==> SameFields(s, s', x) && (x != t ==> s'.threads[x].queue == s.threads[x].queue))
  }

  lemma SignalTakesShape(s: State, t: Tid)
    requires Detached(s, t) && s.threads[t].queue == CondQueue && s.threads[t].key in s.mem && s.mem[s.threads[t].key] == 0
    ensures Taken(s, SignalImpl(s, t), t) && (UniqueKeys(s) ==> UniqueKeys(SignalImpl(s, t)))
  {
    var s' := SignalImpl(s, t);
    EndWaitSettles(s, t, Success, s.mem[s.threads[t].key := s.threads[t].val]);
    forall x | x in s.threads ensures CalmThread(s, s', x) {}
  }

  lemma SignalTakesWords(d: Setup, s: State, s': State, t: Tid)
    requires Words(d, s) && Pending(d, s, t) && Taken(s, s', t) && UniqueKeys(s') && s.mem[s.threads[t].key] == 0
    requires OwnerOf(s, t) == None && s.threads[t].tree == NoTree
    ensures Safe(d, s, s', None)
  {
    MaskFacts(d.tags[t]);
    MaskFacts(0);
    forall x | x in s'.threads ensures ThreadWords(d, s', x) {
      assert ThreadWords(d, s, x) && SameFields(s, s', x) && OwnerOf(s', x) == OwnerOf(s, x);
    }
    forall b | b in d.locks && b in s'.mem ensures WordOk(d, s'.mem[b]) {
      if b != s.threads[t].key { assert s'.mem[b] == s.mem[b]; }
    }
    forall x | x in s.threads && ForLock(s.threads[x]) && Running(s', x) ensures x == t { assert SameFields(s, s', x); }
  }

  ghost predicate NamesOwner(w: Word, tag: Word) { w != 0 && ClearMask(w) == tag && OrMask(w) == tag + WAIT_MASK }

  /** The lock is held: the signalled thread waits for its holder. */
  lemma SignalQueues(d: Setup, s: State, t: Tid, o: Tid)
    requires Words(d, s) && Detached(s, t) && s.threads[t].queue == CondQueue && Pending(d, s, t) && o in d.tags
    requires NamesOwner(s.mem[s.threads[t].key], d.tags[o])
    ensures Safe(d, s, SignalImpl(s, t), None) && Calm(s, SignalImpl(s, t))
  {
    SignalQueuesShape(s, t, o, d.tags[o]);
    SignalQueuesWords(d, s, SignalImpl(s, t), t, o);
  }

  /** Everything but the word and `t`'s owner is as before. */
  ghost predicate Requeued(s: State, s': State, t: Tid, o: Tid, w: Word) {
    && t in s.threads && Calm(s, s') && s'.mem == s.mem[s.threads[t].key := w]
    && (forall x {:trigger OwnerOf(s', x)} :: OwnerOf(s', x) == if x == t then Some(o) else OwnerOf(s, x))
    && (forall x {:trigger SameFields(s, s', x)} :: x in s.threads ==> SameFields(s, s', x) && s'.threads[x].queue == s.threads[x].queue)
  }

  lemma SignalQueuesShape(s: State, t: Tid, o: Tid, tag: Word)
    requires Detached(s, t) && s.threads[t].key in s.mem && tag in s.handles && s.handles[tag] == o
    requires NamesOwner(s.mem[s.threads[t].key], tag)
    ensures Requeued(s, SignalImpl(s, t), t, o, tag + WAIT_MASK) && (UniqueKeys(s) ==> UniqueKeys(SignalImpl(s, t)))
  {
    var m := s.mem[s.threads[t].key := tag + WAIT_MASK];
    var s1 := WithMem(s, m);
    MemKeepsDetached(s, t, m);
    AddWaiterDetached(s1, o, t);
    var s' := AddWaiter(s1, o, t);
    assert SignalImpl(s, t) == s';
    forall x | x in s.threads ensures CalmThread(s, s', x) && SameFields(s, s', x) && s'.threads[x].queue == s.threads[x].queue {
      assert Alike(s1, s', x);
    }
    assert forall x {:trigger OwnerOf(s', x)} :: OwnerOf(s', x) == if x == t then Some(o) else OwnerOf(s1, x);
  }

  lemma SignalQueuesWords(d: Setup, s: State, s': State, t: Tid, o: Tid)
    requires Words(d, s) && Pending(d, s, t) && o in d.tags && s.threads[t].tree == NoTree && UniqueKeys(s')
    requires NamesOwner(s.mem[s.threads[t].key], d.tags[o])
    requires Requeued(s, s', t, o, d.tags[o] + WAIT_MASK)
    ensures Safe(d, s, s', None)
  {
    MaskFacts(d.tags[o]);
    forall x | x in s'.threads ensures ThreadWords(d, s', x) {
      assert ThreadWords(d, s, x) && SameFields(s, s', x);
      SignalQueuesThread(d, s, s', t, o, x);
    }
    forall b | b in d.locks && b in s'.mem ensures WordOk(d, s'.mem[b]) {
      if b != s.threads[t].key { assert s'.mem[b] == s.mem[b]; }
    }
    forall x | x in s.threads && ForLock(s.threads[x]) ensures !Running(s', x) { assert SameFields(s, s', x); }
  }

  lemma SignalQueuesThread(d: Setup, s: State, s': State, t: Tid, o: Tid, x: Tid)
    requires SetupOk(d, s) && Pending(d, s, t) && o in d.tags && s.threads[t].tree == NoTree
    requires NamesOwner(s.mem[s.threads[t].key], d.tags[o])
    requires s'.mem == s.mem[s.threads[t].key := d.tags[o] + WAIT_MASK]
    requires x in s.threads && ThreadWords(d, s, x) && SameFields(s, s', x)
    requires OwnerOf(s', x) == if x == t then Some(o) else OwnerOf(s, x)
    ensures ThreadWords(d, s', x)
  {
    MaskFacts(d.tags[o]);
    if OwnerOf(s, x).Some? { MaskFacts(d.tags[OwnerOf(s, x).value]); }
  }

  lemma SignalTargetSafe(d: Setup, s: State, t: Tid)
    requires Inv(s) && Words(d, s) && t in s.threads && s.threads[t].tree == InCond
    ensures Safe(d, s, SignalTarget(s, t), None) && Calm(s, SignalTarget(s, t))
  {
    assert Settled(s, t) && ThreadWords(d, s, t);
    LeaveDetaches(s, t);
    var s1 := LeaveTree(s, t);
    LeaveSafe(d, s, s1, t);
    SignalImplSafe(d, s1, t);
    SafeTrans(d, s, s1, SignalTarget(s, t));
  }

  lemma LeaveSafe(d: Setup, s: State, s': State, t: Tid)
    requires Words(d, s) && t in s.threads && s'.threads == s.threads[t := OutOfTree(s.threads[t])]
    requires s'.mem == s.mem && s'.handles == s.handles && UniqueKeys(s')
    requires forall w {:trigger OwnerOf(s', w)} :: OwnerOf(s', w) == OwnerOf(s, w)
    ensures Safe(d, s, s', None) && Calm(s, s')
  {
    forall x | x in s'.threads ensures ThreadWords(d, s', x) && CalmThread(s, s', x) {
      assert ThreadWords(d, s, x) && OwnerOf(s', x) == OwnerOf(s, x);
    }
    forall x: Tid, b: Addr | Holds(d, s, x, b) ensures Holds(d, s', x, b) {}
  }

  lemma {:induction false} SignalLoopSafe(d: Setup, s: State, k: Addr, count: int, num: nat, it: Option<Tid>)
    requires Inv(s) && Words(d, s) && ValidCursor(s, it)
    ensures Safe(d, s, SignalLoop(s, k, count, num, it).s, None) && Calm(s, SignalLoop(s, k, count, num, it).s)
    decreases |CondMembers(s)|
  {
    if Continues(s, k, count, num, it) {
      var s1 := SignalTarget(s, it.value);
      SignalTargetKeepsInv(s, it.value);
      CursorSurvives(s, it.value);
      MembersShrink(s, s1, it.value);
      SignalTargetSafe(d, s, it.value);
      SignalLoopSafe(d, s1, k, count, num + 1, Next(s.cond, it.value));
      SafeTrans(d, s, s1, SignalLoop(s1, k, count, num + 1, Next(s.cond, it.value)).s);
    }
  }

  lemma SignalSafe(d: Setup, s: State, k: Addr, count: int)
    requires Inv(s) && Words(d, s) && k in d.keys
    ensures Safe(d, s, Signal(s, k, count), None)
  {
    FirstValid(s, k);
    var it := FirstFrom(s.threads, s.cond, k);
    var r := SignalLoop(s, k, count, 0, it);
    SignalLoopSafe(d, s, k, count, 0, it);
    if LeftGroup(r, k) {
      StoreElsewhere(d, r.s, Store(r.s.mem, k, 0));
      SafeTrans(d, s, r.s, Signal(s, k, count));
    }
  }

  /** Stores to other words than locks are safe. */
  lemma StoreElsewhere(d: Setup, s: State, m: map<Addr, Word>)
    requires Inv(s) && Words(d, s)
    requires forall a :: a in d.locks ==> (a in m <==> a in s.mem) && (a in s.mem ==> m[a] == s.mem[a])
    ensures Safe(d, s, WithMem(s, m), None) && Calm(s, WithMem(s, m))
  {
    var s' := WithMem(s, m);
    MemInv(s, m);
    forall t | t in s.threads ensures SameWait(s, s', t) && CalmThread(s, s', t) { assert OwnerOf(s', t) == OwnerOf(s, t); }
    FrameWords(d, s, s');
    forall t: Tid, a: Addr | Holds(d, s, t, a) ensures Holds(d, s', t, a) {}
    forall t | t in s.threads && ForLock(s.threads[t]) ensures !Running(s', t) {}
  }

  // ----- WaitProcessWideKey -----

  lemma WaitSafe(d: Setup, s: State, cur: Tid, addr: Addr, key: Addr, timeout: int)
    requires Inv(s) && Words(d, s) && Running(s, cur) && key in d.keys && Holds(d, s, cur, addr)
    ensures Safe(d, s, Wait(s, cur, addr, key, d.tags[cur], timeout).s, Some((cur, addr)))
  {
    if !s.threads[cur].dying {
      var m := Store(s.mem, key, 1);
      var s1 := GiveUp(s, cur, addr, Success, m);
      GiveUpKeepsInv(s, cur, addr, Success, m);
      GiveUpSafe(d, s, cur, addr, m);
      if timeout != 0 {
        RunningUnlinked(s, cur);
        GiveUpFields(s, cur, addr, m);
        RunningUnlinked(s1, cur);
        SleepOnFields(s1, cur, addr, key, d.tags[cur]);
        var s2 := SleepOn(s1, cur, addr, key, d.tags[cur]);
        SleepOnWords(d, s1, s2, cur, addr, key);
        ThenSleep(d, s, s1, s2, cur, addr);
      }
    }
  }

  /** Only `cur` changes: it sleeps in the tree under the key. */
  ghost predicate Slept(s: State, s': State, cur: Tid, addr: Addr, key: Addr, value: Word) {
    && cur in s.threads && s'.mem == s.mem && s'.handles == s.handles
    && s'.threads == s.threads[cur := Blocked(InTree(SetKey(s.threads[cur], addr, value), InCond, key), CondQueue)]
  }

  lemma SleepOnFields(s: State, cur: Tid, addr: Addr, key: Addr, value: Word)
    requires Detached(s, cur)
    ensures var s' := SleepOn(s, cur, addr, key, value);
            && Slept(s, s', cur, addr, key, value) && (UniqueKeys(s) ==> UniqueKeys(s'))
            && (forall w {:trigger OwnerOf(s', w)} :: OwnerOf(s', w) == OwnerOf(s, w))
  {
    SleepOnSettles(s, cur, addr, key, value);
    KeyKeepsDetached(s, cur, addr, value);
  }

  lemma SleepOnWords(d: Setup, s: State, s': State, cur: Tid, addr: Addr, key: Addr)
    requires Words(d, s) && cur in s.threads && Slept(s, s', cur, addr, key, d.tags[cur]) && UniqueKeys(s')
    requires addr in d.locks && addr in s.mem && key in d.keys && !Holds(d, s, cur, addr) && OwnerOf(s, cur) == None
    requires forall w {:trigger OwnerOf(s', w)} :: OwnerOf(s', w) == OwnerOf(s, w)
    ensures Words(d, s')
  {
    forall x | x in s'.threads ensures ThreadWords(d, s', x) {
      assert ThreadWords(d, s, x) && OwnerOf(s', x) == OwnerOf(s, x);
    }
  }

  lemma ThenSleep(d: Setup, s: State, s1: State, s2: State, cur: Tid, addr: Addr)
    requires Safe(d, s, s1, Some((cur, addr))) && Words(d, s2) && s2.mem == s1.mem
    requires cur in s2.threads && !Running(s2, cur) && s2.threads == s1.threads[cur := s2.threads[cur]]
    ensures Safe(d, s, s2, Some((cur, addr)))
  {
    forall t: Tid, a: Addr | Holds(d, s1, t, a) ensures Holds(d, s2, t, a) {}
    forall t: Tid, a: Addr | Holds(d, s, t, a) && (t, a) != (cur, addr) ensures Holds(d, s2, t, a) { assert Holds(d, s1, t, a); }
  }

  // ----- Steps that leave lock words alone -----

  /** No lock word changes, no lock wait begins, and lock waits end only without success. */
  ghost predicate Quiet(d: Setup, s: State, s': State) {
    && s'.threads.Keys == s.threads.Keys && s'.handles == s.handles && UniqueKeys(s')
    && (forall t {:trigger SameWait(s, s', t)} :: t in s.threads ==> SameWait(s, s', t))
    && (forall a {:trigger SameWord(s, s', a)} :: a in d.locks ==> SameWord(s, s', a))
    && (forall t :: t in s.threads && ForLock(s.threads[t]) && Running(s', t) ==> s'.threads[t].result != Success)
  }

  lemma QuietSafe(d: Setup, s: State, s': State)
    requires Words(d, s) && Quiet(d, s, s')
    ensures Safe(d, s, s', None)
  {
    FrameWords(d, s, s');
    forall t: Tid, a: Addr | Holds(d, s, t, a) ensures Holds(d, s', t, a) { assert SameWord(s, s', a); }
  }

  lemma CancelQuiet(d: Setup, s: State, t: Tid, r: Result)
    requires Inv(s) && UniqueKeys(s) && t in s.threads && r != Success
    ensures Quiet(d, s, Cancel(s, t, r))
  {
    var s' := Cancel(s, t, r);
    if s.threads[t].queue != NoQueue {
      UnlinkDetaches(s, t);
      UnlinkFields(s, t);
      var s1 := Unlink(s, t);
      EndWaitSettles(s1, t, r, s1.mem);
      assert s' == WithMem(EndWait(s1, t, r), s1.mem);
      forall x | x in s.threads ensures SameWait(s, s', x) && (x != t ==> s'.threads[x].queue == s.threads[x].queue) {
        assert SameFields(s, s1, x) || x == t;
        assert OwnerOf(s', x) == OwnerOf(s1, x);
      }
    }
  }

  lemma UnlinkFields(s: State, t: Tid)
    requires Inv(s) && t in s.threads && s.threads[t].queue != NoQueue
    ensures var s' := Unlink(s, t);
            && s'.threads.Keys == s.threads.Keys && s'.mem == s.mem && s'.handles == s.handles
            && s'.threads[t].queue == s.threads[t].queue && s'.threads[t].tree == NoTree
            && (forall x {:trigger SameFields(s, s', x)} :: x in s.threads && x != t ==>
                  SameFields(s, s', x) && s'.threads[x].queue == s.threads[x].queue)
  {
    var s' := Unlink(s, t);
    UnlinkDetaches(s, t);
    match OwnerOf(s, t) {
      case Some(o) =>
        RemoveWaiterCorrect(s, o, t);
        assert Alike(s, s', t);
        forall x | x in s.threads && x != t ensures SameFields(s, s', x) && s'.threads[x].queue == s.threads[x].queue {
          assert Alike(s, s', x);
        }
      case None => LeaveDetaches(s, t);
    }
  }

  lemma RebaseQuiet(d: Setup, s: State, t: Tid, p: int)
    requires Inv(s) && UniqueKeys(s) && t in s.threads
    ensures var s' := Rebase(s, t, p); Quiet(d, s, s') && forall x :: x in s.threads ==> s'.threads[x].queue == s.threads[x].queue
  {
    var s1 := PutThread(s, t, SetBase(s.threads[t], p));
    var s' := Rebase(s, t, p);
    RebaseKeepsInv(s, t, p);
    assert forall a, b {:trigger SameSlot(s1, a, b)} :: SameSlot(s1, a, b) ==> SameSlot(s, a, b);
    forall x | x in s.threads ensures SameWait(s, s', x) && s'.threads[x].queue == s.threads[x].queue {
      assert Alike(s1, s', x);
      assert OwnerOf(s', x) == OwnerOf(s1, x) == OwnerOf(s, x);
    }
  }

  lemma QuietTrans(d: Setup, s: State, s1: State, s2: State)
    requires Quiet(d, s, s1) && Quiet(d, s1, s2)
    requires forall t :: t in s.threads && t in s1.threads ==> s1.threads[t].queue == s.threads[t].queue
    ensures Quiet(d, s, s2)
  {
    forall t | t in s.threads ensures SameWait(s, s2, t) { assert SameWait(s, s1, t) && SameWait(s1, s2, t); }
    forall a | a in d.locks ensures SameWord(s, s2, a) { assert SameWord(s, s1, a) && SameWord(s1, s2, a); }
  }

  /** Locks, and the threads that wait for them, are as before. */
  ghost predicate LocksAlone(s: State, s': State) {
    && s'.threads.Keys == s.threads.Keys && s'.handles == s.handles && s'.locks == s.locks
    && (forall t {:trigger Alone(s, s', t)} :: t in s.threads ==> Alone(s, s', t))
  }

  ghost predicate Alone(s: State, s': State, t: Tid) {
    && t in s.threads && t in s'.threads && s'.threads[t].lock == s.threads[t].lock
    && (s'.threads[t].lock.Some? || s'.threads[t].tree == InCond ==> SameFields(s, s', t))
    && (ForLock(s.threads[t]) ==> s'.threads[t].queue == s.threads[t].queue)
  }

  lemma AloneQuiet(d: Setup, s: State, s': State)
    requires UniqueKeys(s) && LocksAlone(s, s')
    requires forall a {:trigger SameWord(s, s', a)} :: a in d.locks ==> SameWord(s, s', a)
    ensures Quiet(d, s, s')
  {
    assert forall a, b {:trigger SameSlot(s', a, b)} :: SameSlot(s', a, b) ==> SameSlot(s, a, b);
    forall t | t in s.threads ensures SameWait(s, s', t) && (ForLock(s.threads[t]) ==> !Running(s', t)) { assert Alone(s, s', t); }
  }

  lemma DoomQuiet(d: Setup, s: State, t: Tid)
    requires Inv(s) && UniqueKeys(s) && t in s.threads
    ensures var s' := Doom(s, t);
            Quiet(d, s, s') && forall x :: x in s.threads ==> s'.threads[x].queue == s.threads[x].queue
  {
    var s1 := PutThread(s, t, SetDying(s.threads[t]));
    DyingKeepsInv(s, t);
    AloneQuiet(d, s, s1);
    if s1.threads[t].base > TERMINATING {
      RebaseQuiet(d, s1, t, TERMINATING);
      QuietTrans(d, s, s1, Doom(s, t));
    }
  }

  lemma TerminateQuiet(d: Setup, s: State, t: Tid)
    requires Inv(s) && UniqueKeys(s) && t in s.threads && !s.threads[t].dying
    ensures Quiet(d, s, Terminate(s, t))
  {
    DoomKeepsInv(s, t);
    DoomQuiet(d, s, t);
    CancelQuiet(d, Doom(s, t), t, TerminationRequested);
    QuietTrans(d, s, Doom(s, t), Terminate(s, t));
  }

  // ----- The address arbiter, on words that are neither locks nor keys -----

  lemma WakeAtAlone(s: State, addr: Addr, count: int)
    requires Inv(s)
    ensures LocksAlone(s, Arb.WakeAt(s, addr, count)) && Arb.WakeAt(s, addr, count).mem == s.mem
  {
    var ws := Arb.Waiters(s, addr);
    var ts := ws[..Arb.Quota(|ws|, count)];
    Arb.WakeLoopCorrect(s, addr, count);
    var s' := Arb.WakeAt(s, addr, count);
    Arb.WokenKeys(s.threads, ts);
    forall t | t in s.threads ensures Alone(s, s', t) {
      Arb.WokenAllAt(s.threads, ts, t);
      Arb.WaitersComplete(s.threads, s.arb, addr, t);
      assert ThreadLinks(s, t) && Settled(s, t);
    }
  }

  lemma SleepAtAlone(s: State, cur: Tid, addr: Addr)
    requires Detached(s, cur) && Running(s, cur)
    ensures LocksAlone(s, Arb.SleepAt(s, cur, addr)) && Arb.SleepAt(s, cur, addr).mem == s.mem
  {
    var s' := Arb.SleepAt(s, cur, addr);
    forall t | t in s.threads ensures Alone(s, s', t) {}
  }

  /** The state before, with other memory. */
  lemma AloneAfterStore(d: Setup, s: State, s': State, a: Addr, w: Word)
    requires UniqueKeys(s) && a !in d.locks
    requires LocksAlone(WithMem(s, Store(s.mem, a, w)), s') && s'.mem == Store(s.mem, a, w)
    ensures Quiet(d, s, s')
  {
    var s1 := WithMem(s, Store(s.mem, a, w));
    forall t | t in s.threads ensures Alone(s, s', t) { assert Alone(s1, s', t); }
    AloneQuiet(d, s, s');
  }

  lemma ArbiterSignalQuiet(d: Setup, s: State, addr: Addr, value: int, count: int)
    requires Inv(s) && UniqueKeys(s) && addr !in d.locks
    ensures Quiet(d, s, Arb.SignalOnly(s, addr, count).s)
    ensures Quiet(d, s, Arb.SignalAndIncrement(s, addr, value, count).s)
    ensures Quiet(d, s, Arb.SignalAndModify(s, addr, value, count).s)
  {
    WakeAtAlone(s, addr, count);
    AloneQuiet(d, s, Arb.WakeAt(s, addr, count));
    StillQuiet(d, s);
    if addr in s.mem {
      ModifyQuiet(d, s, addr, Arb.U32(value + 1), count);
      var v := Arb.ModifiedValue(value, count, |Arb.Waiters(s, addr)|);
      if v != value { ModifyQuiet(d, s, addr, Arb.U32(v), count); }
    }
  }

  lemma ModifyQuiet(d: Setup, s: State, addr: Addr, w: Word, count: int)
    requires Inv(s) && UniqueKeys(s) && addr !in d.locks && addr in s.mem
    ensures Inv(WithMem(s, s.mem[addr := w])) && Quiet(d, s, Arb.WakeAt(WithMem(s, s.mem[addr := w]), addr, count))
  {
    MemInv(s, Store(s.mem, addr, w));
    WakeAtAlone(WithMem(s, Store(s.mem, addr, w)), addr, count);
    AloneAfterStore(d, s, Arb.WakeAt(WithMem(s, Store(s.mem, addr, w)), addr, count), addr, w);
  }

  lemma StillQuiet(d: Setup, s: State)
    requires UniqueKeys(s)
    ensures Quiet(d, s, s)
  {
    AloneQuiet(d, s, s);
  }
}
