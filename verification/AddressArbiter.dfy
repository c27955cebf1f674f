/** `KAddressArbiter`: waiting on the value of a user word, and signalling its waiters. */
module AddressArbiter {
  import opened Basics
  import opened WaitTrees
  import opened KernelState
  import opened PriorityInheritance
  import opened WaiterLists
  import opened WaitSteps
  import opened ConditionVariable

  // ----- 32-bit words -----

  const WORD: int := 0x1_0000_0000

  /** The signed value of a word. */
  function S32(w: Word): int { if w < WORD / 2 then w else w - WORD }

  /** The word that stores a 32-bit value; addition wraps around. */
  function U32(v: int): Word { v % WORD }

  /** Words and signed 32-bit values stand for each other, and storing keeps the lower 32 bits. */
  lemma WordRoundTrip(w: Word, v: int)
    ensures w < 0x1_0000_0000 ==> -0x8000_0000 <= S32(w) < 0x8000_0000 && U32(S32(w)) == w
    ensures -0x8000_0000 <= v < 0x8000_0000 ==> S32(U32(v)) == v
    ensures (U32(v) - v) % 0x1_0000_0000 == 0 && U32(v) < 0x1_0000_0000
  {
  }

  // ----- Waiters of one address -----

  /** The tree from the first thread whose address is not below `k`. */
  function From(th: Threads, q: seq<Tid>, k: Addr): seq<Tid> {
    if q == [] || (q[0] in th && k <= th[q[0]].cvKey) then q else From(th, q[1..], k)
  }

  /** The leading threads that wait at `k`. */
  function Run(th: Threads, q: seq<Tid>, k: Addr): seq<Tid> {
    if q == [] || q[0] !in th || th[q[0]].cvKey != k then [] else [q[0]] + Run(th, q[1..], k)
  }

  /** The threads that wait at `k`, best priority first. */
  function Waiters(s: State, k: Addr): seq<Tid> {
    Run(s.threads, From(s.threads, s.arb, k), k)
  }

  /** How many of `n` waiters a signal with this count wakes. */
  function Quota(n: nat, count: int): nat { if count <= 0 || n < count then n else count }

  // ----- Waking -----

  /** End the wait of one thread and erase it from the tree. */
  ghost function WakeOne(s: State, t: Tid): State
    requires Inv(s) && t in s.threads && s.threads[t].tree == InArb
  {
    LeaveDetaches(s, t);
    EndWait(LeaveTree(s, t), t, Success)
  }

  lemma WakeOneKeepsInv(s: State, t: Tid)
    requires Inv(s) && t in s.threads && s.threads[t].tree == InArb
    ensures var s' := WakeOne(s, t);
            && Inv(s') && t in s.arb
            && s' == s.(threads := s.threads[t := Woken(OutOfTree(s.threads[t]), Success)], arb := Remove(s.arb, t))
  {
    assert ThreadLinks(s, t) && Settled(s, t);
    LeaveDetaches(s, t);
    var s1 := LeaveTree(s, t);
    EndWaitSettles(s1, t, Success, s1.mem);
    assert WakeOne(s, t) == WithMem(EndWait(s1, t, Success), s1.mem);
  }

  /** The wake-up loop of the signal operations, over the rest of the tree. */
  ghost function WakeLoop(s: State, rest: seq<Tid>, k: Addr, count: int, num: nat): (r: State)
    requires Inv(s) && Suffix(rest, s.arb)
    ensures Inv(r)
    decreases |rest|
  {
    if rest != [] && (count <= 0 || num < count) && rest[0] in s.threads && s.threads[rest[0]].cvKey == k then
      SuffixHead(s, rest);
      WakeOneKeepsInv(s, rest[0]);
      SuffixAfter(s, rest);
      WakeLoop(WakeOne(s, rest[0]), rest[1..], k, count, num + 1)
    else s
  }

  predicate Suffix(a: seq<Tid>, b: seq<Tid>) {
    |a| <= |b| && b[|b| - |a|..] == a
  }

  lemma SuffixHead(s: State, rest: seq<Tid>)
    requires Inv(s) && Suffix(rest, s.arb) && rest != []
    ensures rest[0] in s.threads && s.threads[rest[0]].tree == InArb && s.threads[rest[0]].queue == ArbQueue
  {
    assert rest[0] == s.arb[|s.arb| - |rest|];
    QueuedIn(ByKeyThenPriority, s.threads, s.arb, rest[0]);
    assert ThreadLinks(s, rest[0]) && Settled(s, rest[0]);
  }

  lemma SuffixAfter(s: State, rest: seq<Tid>)
    requires Queued(ByKeyThenPriority, s.threads, s.arb) && Suffix(rest, s.arb) && rest != []
    ensures rest[0] in s.arb && Suffix(rest[1..], Remove(s.arb, rest[0]))
  {
    assert rest[0] == s.arb[|s.arb| - |rest|];
    RemoveAt(ByKeyThenPriority, s.threads, s.arb, |s.arb| - |rest|);
  }

  lemma {:induction false} RemoveAt(o: Order, th: Threads, q: seq<Tid>, i: nat)
    requires Queued(o, th, q) && i < |q|
    ensures Remove(q, q[i]) == q[..i] + q[i + 1..]
  {
    if i > 0 {
      assert q[i] == q[1..][i - 1] && q[i] in q[1..];
      RemoveAt(o, th, q[1..], i - 1);
    }
  }

  /** Every waiter of the address is in the run the iterator starts at. */
  lemma {:induction false} WaitersComplete(th: Threads, q: seq<Tid>, k: Addr, t: Tid)
    requires Queued(ByKeyThenPriority, th, q)
    ensures t in Run(th, From(th, q, k), k) <==> t in q && t in th && th[t].cvKey == k
  {
    if q != [] {
      if k <= th[q[0]].cvKey { RunComplete(th, q, k, t); }
      else {
        WaitersComplete(th, q[1..], k, t);
        assert q == [q[0]] + q[1..];
      }
    }
  }

  lemma {:induction false} RunComplete(th: Threads, q: seq<Tid>, k: Addr, t: Tid)
    requires Queued(ByKeyThenPriority, th, q) && q != [] && k <= th[q[0]].cvKey
    ensures t in Run(th, q, k) <==> t in q && t in th && th[t].cvKey == k
  {
    assert q == [q[0]] + q[1..];
    if th[q[0]].cvKey == k {
      if |q| > 1 { RunComplete(th, q[1..], k, t); }
    } else if t in q { AllAbove(th, q, k, t); }
  }

  lemma {:induction false} AllAbove(th: Threads, q: seq<Tid>, k: Addr, t: Tid)
    requires Queued(ByKeyThenPriority, th, q) && q != [] && k < th[q[0]].cvKey && t in q
    ensures t in th && k < th[t].cvKey
  {
    if q[0] != t { AllAbove(th, q[1..], k, t); }
  }

  /** The run ends where the first thread at another address stands. */
  lemma {:induction false} RunLength(th: Threads, q: seq<Tid>, k: Addr)
    requires Queued(ByKeyThenPriority, th, q)
    ensures var n := |Run(th, q, k)|;
            && n <= |q| && (forall i :: 0 <= i < n ==> q[i] in th && th[q[i]].cvKey == k)
            && (n < |q| ==> q[n] in th && th[q[n]].cvKey != k)
  {
    if q != [] && th[q[0]].cvKey == k { RunLength(th, q[1..], k); }
  }

  /** The run lists its threads from the best priority to the worst. */
  lemma {:induction false} RunOrdered(th: Threads, q: seq<Tid>, k: Addr)
    requires Queued(ByKeyThenPriority, th, q)
    ensures Queued(ByPriority, th, Run(th, q, k))
    ensures Run(th, q, k) <= q
  {
    if q != [] && th[q[0]].cvKey == k {
      RunOrdered(th, q[1..], k);
      var r := Run(th, q, k);
      assert r[1..] == Run(th, q[1..], k);
      assert q == [q[0]] + q[1..];
    }
  }

  lemma {:induction false} FromSuffix(th: Threads, q: seq<Tid>, k: Addr)
    requires Queued(ByKeyThenPriority, th, q)
    ensures Suffix(From(th, q, k), q) && Queued(ByKeyThenPriority, th, From(th, q, k))
  {
    if q != [] && th[q[0]].cvKey < k {
      FromSuffix(th, q[1..], k);
      var f := From(th, q[1..], k);
      assert q[|q| - |f|..] == q[1..][|q[1..]| - |f|..];
    } else { assert q[0..] == q; }
  }

  /** The thread map with each thread of `ts` running, in no tree, with a success. */
  function WokenAll(th: Threads, ts: seq<Tid>): Threads
    decreases ts
  {
    if ts == [] then th
    else if ts[0] in th then WokenAll(th[ts[0] := Woken(OutOfTree(th[ts[0]]), Success)], ts[1..])
    else WokenAll(th, ts[1..])
  }

  lemma {:induction false} WokenKeys(th: Threads, ts: seq<Tid>)
    ensures WokenAll(th, ts).Keys == th.Keys
    decreases ts
  {
    if ts != [] {
      WokenKeys(if ts[0] in th then th[ts[0] := Woken(OutOfTree(th[ts[0]]), Success)] else th, ts[1..]);
    }
  }

  function Without(q: seq<Tid>, ts: seq<Tid>): seq<Tid>
    decreases ts
  {
    if ts == [] then q else Without(if ts[0] in q then Remove(q, ts[0]) else q, ts[1..])
  }

  function WakeUp(s: State, ts: seq<Tid>): State {
    s.(threads := WokenAll(s.threads, ts), arb := Without(s.arb, ts))
  }

  /** Waking exactly the threads of `ts` touches no other thread. */
  lemma {:induction false} WokenAllAt(th: Threads, ts: seq<Tid>, t: Tid)
    requires t in th
    ensures t in WokenAll(th, ts)
    ensures WokenAll(th, ts)[t] == if t in ts then Woken(OutOfTree(th[t]), Success) else th[t]
  {
    if ts != [] {
      var th1 := if ts[0] in th then th[ts[0] := Woken(OutOfTree(th[ts[0]]), Success)] else th;
      WokenAllAt(th1, ts[1..], t);
    }
  }

  /** The threads the loop wakes. */
  function Targets(th: Threads, rest: seq<Tid>, k: Addr, count: int, num: nat): seq<Tid> {
    if rest != [] && (count <= 0 || num < count) && rest[0] in th && th[rest[0]].cvKey == k
    then [rest[0]] + Targets(th, rest[1..], k, count, num + 1) else []
  }

  lemma {:induction false} TargetsAreBest(th: Threads, rest: seq<Tid>, k: Addr, count: int, num: nat)
    requires count <= 0 || num <= count
    ensures var r := Run(th, rest, k);
            Targets(th, rest, k, count, num) == r[..if count > 0 && count - num < |r| then count - num else |r|]
  {
    if rest != [] && (count <= 0 || num < count) && rest[0] in th && th[rest[0]].cvKey == k {
      TargetsAreBest(th, rest[1..], k, count, num + 1);
    }
  }

  lemma {:induction false} WakeLoopWakes(s: State, rest: seq<Tid>, k: Addr, count: int, num: nat)
    requires Inv(s) && Suffix(rest, s.arb) && Queued(ByKeyThenPriority, s.threads, rest)
    ensures WakeLoop(s, rest, k, count, num) == WakeUp(s, Targets(s.threads, rest, k, count, num))
    decreases |rest|
  {
    var ts := Targets(s.threads, rest, k, count, num);
    if ts != [] {
      WakeFirst(s, rest, k, count, num);
      var s1 := WakeOne(s, rest[0]);
      WakeLoopWakes(s1, rest[1..], k, count, num + 1);
      WakeUpCons(s, s1, rest[0], ts[1..]);
      assert ts == [rest[0]] + ts[1..];
    } else {
      assert WakeUp(s, []) == s;
    }
  }

  lemma WakeFirst(s: State, rest: seq<Tid>, k: Addr, count: int, num: nat)
    requires Inv(s) && Suffix(rest, s.arb) && Queued(ByKeyThenPriority, s.threads, rest)
    requires Targets(s.threads, rest, k, count, num) != []
    ensures var t := rest[0];
            && s.threads[t].tree == InArb && t in s.arb
            && var s1 := WakeOne(s, t);
            && Inv(s1) && s1 == s.(threads := s.threads[t := Woken(OutOfTree(s.threads[t]), Success)], arb := Remove(s.arb, t))
            && Suffix(rest[1..], s1.arb) && Queued(ByKeyThenPriority, s1.threads, rest[1..])
            && Targets(s1.threads, rest[1..], k, count, num + 1) == Targets(s.threads, rest, k, count, num)[1..]
            && WakeLoop(s, rest, k, count, num) == WakeLoop(s1, rest[1..], k, count, num + 1)
  {
    SuffixHead(s, rest);
    WakeOneKeepsInv(s, rest[0]);
    SuffixAfter(s, rest);
    QueuedAfterWake(s, WakeOne(s, rest[0]), rest, k, count, num + 1);
  }

  lemma WakeUpCons(s: State, s1: State, t: Tid, ts: seq<Tid>)
    requires t in s.threads && t in s.arb
    requires s1 == s.(threads := s.threads[t := Woken(OutOfTree(s.threads[t]), Success)], arb := Remove(s.arb, t))
    ensures WakeUp(s1, ts) == WakeUp(s, [t] + ts)
  {
    assert ([t] + ts)[1..] == ts;
  }

  lemma QueuedAfterWake(s: State, s1: State, rest: seq<Tid>, k: Addr, count: int, num: nat)
    requires rest != [] && Queued(ByKeyThenPriority, s.threads, rest) && rest[0] in s.threads
    requires s1.threads == s.threads[rest[0] := Woken(OutOfTree(s.threads[rest[0]]), Success)]
    ensures Queued(ByKeyThenPriority, s1.threads, rest[1..])
    ensures Targets(s1.threads, rest[1..], k, count, num) == Targets(s.threads, rest[1..], k, count, num)
  {
    forall x | x in rest[1..] ensures SameRank(s.threads, s1.threads, x) {
      QueuedIn(ByKeyThenPriority, s.threads, rest[1..], x);
    }
    QueuedFrame(ByKeyThenPriority, s.threads, s1.threads, rest[1..]);
    TargetsFrame(s.threads, s1.threads, rest[1..], k, count, num);
  }

  lemma {:induction false} TargetsFrame(th: Threads, th': Threads, q: seq<Tid>, k: Addr, count: int, num: nat)
    requires forall x {:trigger SameRank(th, th', x)} :: x in q ==> SameRank(th, th', x)
    ensures Targets(th', q, k, count, num) == Targets(th, q, k, count, num)
  {
    if q != [] {
      assert SameRank(th, th', q[0]);
      TargetsFrame(th, th', q[1..], k, count, num + 1);
    }
  }

  /** Waking at an address wakes exactly the best waiters of that address, as many as the count
      allows. */
  lemma WakeLoopCorrect(s: State, k: Addr, count: int)
    requires Inv(s)
    ensures Suffix(From(s.threads, s.arb, k), s.arb)
    ensures var ws := Waiters(s, k);
            WakeLoop(s, From(s.threads, s.arb, k), k, count, 0) == WakeUp(s, ws[..Quota(|ws|, count)])
  {
    FromSuffix(s.threads, s.arb, k);
    WakeLoopWakes(s, From(s.threads, s.arb, k), k, count, 0);
    TargetsAreBest(s.threads, From(s.threads, s.arb, k), k, count, 0);
  }

  // ----- Signalling -----

  ghost function WakeAt(s: State, addr: Addr, count: int): State
    requires Inv(s)
  {
    FromSuffix(s.threads, s.arb, addr);
    WakeLoop(s, From(s.threads, s.arb, addr), addr, count, 0)
  }

  ghost function SignalOnly(s: State, addr: Addr, count: int): Outcome
    requires Inv(s)
  {
    Outcome(WakeAt(s, addr, count), Some(Success))
  }

  ghost function SignalAndIncrement(s: State, addr: Addr, value: int, count: int): Outcome
    requires Inv(s)
  {
    if addr !in s.mem then Outcome(s, Some(InvalidCurrentMemory))
    else if S32(s.mem[addr]) != value then Outcome(s, Some(InvalidState))
    else
      MemInv(s, s.mem[addr := U32(value + 1)]);
      Outcome(WakeAt(WithMem(s, s.mem[addr := U32(value + 1)]), addr, count), Some(Success))
  }

  /** The value a signal by waiting count stores, from the number of waiters. */
  function ModifiedValue(value: int, count: int, n: nat): int {
    if n == 0 then value + 1 else if count <= 0 || n <= count then value - 1 else value
  }

  /** The store happens only if the value changes. */
  function Modified(m: map<Addr, Word>, addr: Addr, value: int, v: int): map<Addr, Word> {
    if v == value then m else m[addr := U32(v)]
  }

  ghost function SignalAndModify(s: State, addr: Addr, value: int, count: int): Outcome
    requires Inv(s)
  {
    if addr !in s.mem then Outcome(s, Some(InvalidCurrentMemory))
    else if S32(s.mem[addr]) != value then Outcome(s, Some(InvalidState))
    else
      var m := Modified(s.mem, addr, value, ModifiedValue(value, count, |Waiters(s, addr)|));
      MemInv(s, m);
      Outcome(WakeAt(WithMem(s, m), addr, count), Some(Success))
  }

  /** A signal by waiting count that fails changes nothing; one that succeeds stores the value its
      waiting count asks for and wakes exactly the best waiters of the address. */
  lemma SignalAndModifyCorrect(s: State, addr: Addr, value: int, count: int)
    requires Inv(s)
    ensures var r := SignalAndModify(s, addr, value, count);
            var ws := Waiters(s, addr);
            && (r.returned != Some(Success) ==> r.s == s)
            && (r.returned == Some(Success) <==> addr in s.mem && S32(s.mem[addr]) == value)
            && (r.returned == Some(Success) ==>
                  r.s == WakeUp(WithMem(s, Modified(s.mem, addr, value, ModifiedValue(value, count, |ws|))), ws[..Quota(|ws|, count)]))
            && (forall t :: t in ws <==> t in s.threads && s.threads[t].tree == InArb && s.threads[t].cvKey == addr)
            && Queued(ByPriority, s.threads, ws)
  {
    var r := SignalAndModify(s, addr, value, count);
    if r.returned == Some(Success) {
      var m := Modified(s.mem, addr, value, ModifiedValue(value, count, |Waiters(s, addr)|));
      MemInv(s, m);
      WakeLoopCorrect(WithMem(s, m), addr, count);
    }
    WaitersAre(s, addr);
  }

  /** The waiters are all threads that wait at the address, best priority first. */
  lemma WaitersAre(s: State, addr: Addr)
    requires Inv(s)
    ensures forall t :: t in Waiters(s, addr) <==> t in s.threads && s.threads[t].tree == InArb && s.threads[t].cvKey == addr
    ensures Queued(ByPriority, s.threads, Waiters(s, addr))
  {
    forall t ensures t in Waiters(s, addr) <==> t in s.threads && s.threads[t].tree == InArb && s.threads[t].cvKey == addr {
      WaitersComplete(s.threads, s.arb, addr, t);
      if t in s.threads { assert ThreadLinks(s, t); }
      if t in s.arb { QueuedIn(ByKeyThenPriority, s.threads, s.arb, t); }
    }
    FromSuffix(s.threads, s.arb, addr);
    RunOrdered(s.threads, From(s.threads, s.arb, addr), addr);
  }

  // ----- Waiting -----

  ghost function SleepAt(s: State, cur: Tid, addr: Addr): State
    requires Detached(s, cur)
  {
    BeginWait(EnterArb(s, cur, addr), cur, ArbQueue)
  }

  ghost function WaitIfLessThan(s: State, cur: Tid, addr: Addr, value: int, decrement: bool, timeout: int): Outcome
    requires Inv(s) && Running(s, cur)
  {
    if s.threads[cur].dying then Outcome(s, Some(TerminationRequested))
    else if addr !in s.mem then Outcome(s, Some(InvalidCurrentMemory))
    else if S32(s.mem[addr]) >= value then Outcome(s, Some(InvalidState))
    else
      var m := if decrement then s.mem[addr := U32(S32(s.mem[addr]) - 1)] else s.mem;
      RunningUnlinked(s, cur);
      MemKeepsDetached(s, cur, m);
      if timeout == 0 then Outcome(WithMem(s, m), Some(TimedOut))
      else Outcome(SleepAt(WithMem(s, m), cur, addr), None)
  }

  ghost function WaitIfEqual(s: State, cur: Tid, addr: Addr, value: int, timeout: int): Outcome
    requires Inv(s) && Running(s, cur)
  {
    if s.threads[cur].dying then Outcome(s, Some(TerminationRequested))
    else if addr !in s.mem then Outcome(s, Some(InvalidCurrentMemory))
    else if S32(s.mem[addr]) != value then Outcome(s, Some(InvalidState))
    else if timeout == 0 then Outcome(s, Some(TimedOut))
    else
      RunningUnlinked(s, cur);
      Outcome(SleepAt(s, cur, addr), None)
  }

  lemma SleepAtSettles(s: State, cur: Tid, addr: Addr)
    requires Detached(s, cur)
    ensures var s' := SleepAt(s, cur, addr);
            && Inv(s') && (UniqueKeys(s) ==> UniqueKeys(s'))
            && (forall w {:trigger OwnerOf(s', w)} :: OwnerOf(s', w) == OwnerOf(s, w))
  {
    EnterArbMoves(s, cur, addr);
    var s2 := EnterArb(s, cur, addr);
    MoveKeepsSound(s, s2, cur);
    forall x | x in s2.threads && x != cur ensures Settled(s2, x) {
      assert Settled(s, x);
      assert OwnerOf(s2, x) == OwnerOf(s, x);
    }
    assert OwnerOf(s2, cur) == None;
    BeginWaitSettles(s2, cur, ArbQueue);
  }

  lemma ArbiterSignalKeepsInv(s: State, addr: Addr, value: int, count: int)
    requires Inv(s)
    ensures Inv(SignalOnly(s, addr, count).s)
    ensures Inv(SignalAndIncrement(s, addr, value, count).s)
    ensures Inv(SignalAndModify(s, addr, value, count).s)
  {
    WakeLoopCorrect(s, addr, count);
    if addr in s.mem {
      MemInv(s, s.mem[addr := U32(value + 1)]);
      WakeLoopCorrect(WithMem(s, s.mem[addr := U32(value + 1)]), addr, count);
      SignalAndModifyCorrect(s, addr, value, count);
    }
  }

  lemma ArbiterWaitKeepsInv(s: State, cur: Tid, addr: Addr, value: int, decrement: bool, timeout: int)
    requires Inv(s) && Running(s, cur)
    ensures Inv(WaitIfLessThan(s, cur, addr, value, decrement, timeout).s)
    ensures Inv(WaitIfEqual(s, cur, addr, value, timeout).s)
  {
    RunningUnlinked(s, cur);
    SleepAtSettles(s, cur, addr);
    if addr in s.mem {
      var m := if decrement then s.mem[addr := U32(S32(s.mem[addr]) - 1)] else s.mem;
      MemKeepsDetached(s, cur, m);
      MemInv(s, m);
      SleepAtSettles(WithMem(s, m), cur, addr);
    }
  }
}
