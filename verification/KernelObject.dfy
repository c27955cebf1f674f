/** The kernel object: the wait operations update the threads, lock lists, trees and user words in
    place, and each does what its specification on states says. */
module KernelObject {
  import opened Basics
  import opened WaitTrees
  import KS = KernelState
  import PI = PriorityInheritance
  import WL = WaiterLists
  import WS = WaitSteps
  import CV = ConditionVariable
  import AA = AddressArbiter
  import KR = KernelRuns

  class Kernel {
    var threads: Threads
    var locks: map<Lid, KS.Lock>
    var cond: seq<Tid>
    var arb: seq<Tid>
    var mem: map<Addr, Word>
    var nextLock: Lid
    const handles: map<Word, Tid>

    constructor (threads: Threads, mem: map<Addr, Word>, handles: map<Word, Tid>)
      ensures View() == KS.State(threads, map[], [], [], mem, handles, 0)
    {
      this.threads, this.locks, this.cond, this.arb := threads, map[], [], [];
      this.mem, this.nextLock, this.handles := mem, 0, handles;
    }

    function View(): KS.State
      reads this
    {
      KS.State(threads, locks, cond, arb, mem, handles, nextLock)
    }

    // ----- Waiter lists -----

    method FindHeldLock(o: Tid, key: Addr) returns (r: Option<Lid>)
      requires o in threads && forall l :: l in threads[o].held ==> l in locks
      ensures r == KS.FindHeld(locks, threads[o].held, key)
    {
      var held, i := threads[o].held, 0;
      while i < |held|
        invariant 0 <= i <= |held| && KS.FindHeld(locks, held[i..], key) == KS.FindHeld(locks, held, key)
      {
        assert held[i..][1..] == held[i + 1..];
        if locks[held[i]].key == key { return Some(held[i]); }
        i := i + 1;
      }
      return None;
    }

    method AddWaiterImpl(o: Tid, t: Tid)
      requires KS.Links(View()) && o in threads && t in threads
      modifies this
      ensures View() == KS.AddWaiterImpl(old(View()), o, t)
    {
      assert KS.ThreadLinks(View(), o);
      var key := threads[t].key;
      var r := FindHeldLock(o, key);
      if r.Some? {
        var l := r.value;
        assert KS.LockLinks(View(), l);
        locks := locks[l := KS.Lock(locks[l].key, locks[l].owner, Insert(ByPriority, threads, locks[l].waiters, t))];
        threads := threads[t := KS.SetLock(threads[t], Some(l))];
      } else {
        var l := nextLock;
        nextLock := nextLock + 1;
        threads := threads[o := KS.SetHeld(threads[o], [l] + threads[o].held)];
        locks := locks[l := KS.Lock(key, o, [t])];
        threads := threads[t := KS.SetLock(threads[t], Some(l))];
      }
    }

    method RemoveWaiterImpl(t: Tid)
      requires KS.Links(View()) && t in threads && threads[t].lock.Some?
      modifies this
      ensures View() == KS.RemoveWaiterImpl(old(View()), t)
    {
      assert KS.ThreadLinks(View(), t);
      var l := threads[t].lock.value;
      assert KS.LockLinks(View(), l);
      var o, rest := locks[l].owner, Remove(locks[l].waiters, t);
      if rest == [] {
        threads := threads[o := KS.SetHeld(threads[o], Remove(threads[o].held, l))];
        threads := threads[t := KS.SetLock(threads[t], None)];
        locks := locks - {l};
      } else {
        locks := locks[l := KS.Lock(locks[l].key, o, rest)];
        threads := threads[t := KS.SetLock(threads[t], None)];
      }
    }

    // ----- Priorities -----

    /** The best of the base priority and the front waiters' priorities. */
    method InheritedPriority(t: Tid) returns (p: int)
      requires KS.Links(View()) && t in threads
      ensures p == PI.Wanted(View(), t)
    {
      assert KS.ThreadLinks(View(), t);
      var held, i := threads[t].held, 0;
      p := threads[t].base;
      while i < |held|
        invariant 0 <= i <= |held| && p <= threads[t].base
        invariant forall j {:trigger held[j]} :: 0 <= j < i ==> held[j] in locks && FrontAtLeast(View(), held[j], p)
        invariant p == threads[t].base || exists j {:trigger held[j]} :: 0 <= j < i && FrontIs(View(), held[j], p)
      {
        var l := held[i];
        assert KS.LockLinks(View(), l) && KS.WaitsIn(View(), locks[l].waiters[0], l);
        var q := threads[locks[l].waiters[0]].prio;
        if q < p { p := q; assert FrontIs(View(), held[i], p); }
        i := i + 1;
      }
      FrontsWanted(View(), t, p);
    }

    /** Change a thread's priority, re-inserting it into the tree it is in. */
    method SetPriority(t: Tid, p: int)
      requires KS.Links(View()) && t in threads && threads[t].lock == None
      modifies this
      ensures View() == PI.Reprioritise(old(View()), t, p)
    {
      assert KS.ThreadLinks(View(), t);
      ghost var s := View();
      var tree := threads[t].tree;
      if tree == InCond { PI.RequeueFrame(s, t, p, cond); cond := Remove(cond, t); }
      if tree == InArb { PI.RequeueFrame(s, t, p, arb); arb := Remove(arb, t); }
      threads := threads[t := PI.SetPrio(threads[t], p)];
      if tree == InCond { cond := Insert(ByKeyThenPriority, threads, cond, t); }
      if tree == InArb { arb := Insert(ByKeyThenPriority, threads, arb, t); }
    }

    method ChangePriority(t: Tid, p: int)
      requires KS.Links(View()) && t in threads
      modifies this
      ensures View() == PI.ChangePriority(old(View()), t, p)
    {
      ghost var s := View();
      var o := KS.OwnerOf(View(), t);
      assert KS.ThreadLinks(s, t);
      if o.Some? {
        assert KS.LockLinks(s, threads[t].lock.value);
        KS.RemoveKeepsLinks(s, t);
        RemoveWaiterImpl(t);
        PI.ReprioritiseKeepsLinks(View(), t, p);
        SetPriority(t, p);
        AddWaiterImpl(o.value, t);
      } else {
        SetPriority(t, p);
      }
    }

    /** `RestorePriority`: walk from owner to owner while priorities change. */
    method RestorePriority(t: Tid)
      requires KS.Links(View()) && t in threads && PI.OthersInherit(View(), t)
      modifies this
      ensures View() == PI.Restore(old(View()), t)
    {
      var cur := Some(t);
      while cur.Some?
        invariant cur.Some? ==> KS.Links(View()) && cur.value in threads && PI.OthersInherit(View(), cur.value)
        invariant PI.Restore(old(View()), t) == if cur.Some? then PI.Restore(View(), cur.value) else View()
        decreases if cur.Some? then PI.Rounds(View(), cur.value) + 1 else 0
      {
        var x := cur.value;
        ghost var s := View();
        var p := InheritedPriority(x);
        if p == threads[x].prio { return; }
        cur := KS.OwnerOf(View(), x);
        PI.ChangePriorityKeepsLinks(s, x, p);
        if cur.Some? { PI.RoundProgress(s, PI.ChangePriority(s, x, p), x, cur.value); }
        ChangePriority(x, p);
      }
    }

    method AddWaiter(o: Tid, t: Tid)
      requires WL.Sound(View()) && o in threads && t in threads && threads[t].lock == None && threads[t].tree == NoTree
      modifies this
      ensures View() == WL.AddWaiter(old(View()), o, t)
    {
      ghost var s := View();
      KS.AddKeepsLinks(s, o, t);
      AddWaiterImpl(o, t);
      WL.LinkInherits(s, View(), o, t);
      if threads[t].prio < threads[o].prio { RestorePriority(o); }
    }

    method RemoveWaiter(o: Tid, t: Tid)
      requires WL.Sound(View()) && t in threads && KS.OwnerOf(View(), t) == Some(o)
      modifies this
      ensures View() == WL.RemoveWaiter(old(View()), o, t)
    {
      ghost var s := View();
      KS.RemoveKeepsLinks(s, t);
      RemoveWaiterImpl(t);
      WL.UnlinkInherits(s, View(), o, t);
      if threads[o].prio == threads[t].prio && threads[o].prio < threads[o].base { RestorePriority(o); }
    }

    /** Give the lock with this key to its best waiter, and the other waiters with it. */
    method RemoveWaiterByKey(o: Tid, key: Addr) returns (next: Option<Tid>, more: bool)
      requires WL.Sound(View()) && o in threads && threads[o].lock == None
      modifies this
      ensures WL.Handed(View(), next, more) == WL.RemoveWaiterByKey(old(View()), o, key)
    {
      ghost var s := View();
      assert KS.ThreadLinks(s, o);
      var r := FindHeldLock(o, key);
      if r.None? { return None, false; }
      var l := r.value;
      WL.HandableLock(s, l);
      WL.HandOverCorrect(s, l);
      var n := locks[l].waiters[0];
      next := Some(n);
      threads := threads[o := KS.SetHeld(threads[o], Remove(threads[o].held, l))];
      threads := threads[n := KS.SetLock(threads[n], None)];
      if |locks[l].waiters| == 1 {
        more := false;
        locks := locks - {l};
      } else {
        more := true;
        locks := locks[l := KS.Lock(locks[l].key, n, locks[l].waiters[1..])];
        threads := threads[n := KS.SetHeld(threads[n], [l] + threads[n].held)];
      }
      assert View() == WL.HandOver(s, l);
      if threads[o].prio == threads[n].prio && threads[o].prio < threads[o].base { RestorePriority(o); }
    }

    // ----- Waiting and waking -----

    /** Afterwards `t` runs, with the result if it was waiting; everybody else and all queues stay. */
    method EndWait(t: Tid, r: Result)
      requires t in threads
      modifies this
      ensures View() == WS.EndWait(old(View()), t, r)
      ensures t in threads && threads[t].queue == NoQueue && (old(threads[t].queue) != NoQueue ==> threads[t].result == r)
      ensures View() == old(View()).(threads := threads) && forall x :: x in old(threads) && x != t ==> x in threads && threads[x] == old(threads)[x]
    {
      if threads[t].queue != NoQueue { threads := threads[t := WS.Woken(threads[t], r)]; }
    }

    method BeginWait(t: Tid, q: Queue)
      requires t in threads
      modifies this
      ensures View() == WS.BeginWait(old(View()), t, q)
    {
      threads := threads[t := WS.Blocked(threads[t], q)];
    }

    method WriteToUser(a: Addr, w: Word) returns (ok: bool)
      modifies this
      ensures ok == (a in old(mem)) && View() == WS.WithMem(old(View()), CV.Store(old(mem), a, w))
    {
      ok := a in mem;
      if ok { mem := mem[a := w]; }
    }

    // ----- KConditionVariable -----

    /** The word for the next owner. */
    method NextValue(next: Option<Tid>, more: bool) returns (v: Word)
      requires next.Some? ==> next.value in threads
      ensures v == CV.NextValue(WL.Handed(View(), next, more))
    {
      v := 0;
      if next.Some? {
        v := threads[next.value].val;
        if more { v := CV.OrMask(v); }
      }
    }

    method SignalToAddress(cur: Tid, addr: Addr) returns (r: Result)
      requires WS.Inv(View()) && WS.Running(View(), cur)
      modifies this
      ensures CV.Outcome(View(), Some(r)) == CV.SignalToAddress(old(View()), cur, addr)
    {
      ghost var s := View();
      WS.RunningUnlinked(s, cur);
      CV.HandedDetached(s, cur, addr);
      var next, more := RemoveWaiterByKey(cur, addr);
      var v := NextValue(next, more);
      var ok := WriteToUser(addr, v);
      r := if ok then Success else InvalidCurrentMemory;
      if next.Some? { EndWait(next.value, r); }
    }

    method WaitForAddress(cur: Tid, handle: Word, addr: Addr, value: Word) returns (r: Option<Result>)
      requires WS.Inv(View()) && WS.Running(View(), cur)
      modifies this
      ensures CV.Outcome(View(), r) == CV.WaitForAddress(old(View()), cur, handle, addr, value)
    {
      ghost var s := View();
      if threads[cur].dying { return Some(TerminationRequested); }
      if addr !in mem { return Some(InvalidCurrentMemory); }
      if mem[addr] != CV.OrMask(handle) { return Some(Success); }
      if handle !in handles { return Some(InvalidHandle); }
      var o := handles[handle];
      WS.RunningUnlinked(s, cur);
      CV.KeyKeepsDetached(s, cur, addr, value);
      threads := threads[cur := CV.SetKey(threads[cur], addr, value)];
      CV.AddWaiterDetached(View(), o, cur);
      AddWaiter(o, cur);
      BeginWait(cur, LockQueue);
      return None;
    }

    method SignalImpl(t: Tid)
      requires WS.Detached(View(), t)
      modifies this
      ensures View() == CV.SignalImpl(old(View()), t)
    {
      var a := threads[t].key;
      if a in mem {
        var prev := mem[a];
        ghost var s := View();
        mem := mem[a := if prev == 0 then threads[t].val else CV.OrMask(prev)];
        if prev == 0 {
          EndWait(t, Success);
        } else if CV.ClearMask(prev) in handles {
          WS.MemKeepsDetached(s, t, mem);
          AddWaiter(handles[CV.ClearMask(prev)], t);
        } else {
          EndWait(t, InvalidState);
        }
      } else {
        EndWait(t, InvalidCurrentMemory);
      }
    }

    /** Erase `t` from the tree and signal it; the iterator has moved on before that. */
    method SignalTarget(t: Tid) returns (next: Option<Tid>)
      requires WS.Inv(View()) && t in threads && threads[t].tree == InCond
      modifies this
      ensures View() == CV.SignalTarget(old(View()), t) && next == CV.Next(old(cond), t)
    {
      assert KS.ThreadLinks(View(), t);
      CV.LeaveDetaches(View(), t);
      next := CV.Next(cond, t);
      cond := Remove(cond, t);
      threads := threads[t := WS.OutOfTree(threads[t])];
      SignalImpl(t);
    }

    /** One turn of the loop of `Signal`. */
    method SignalNext(k: Addr, ghost count: int, ghost num: nat, it: Option<Tid>) returns (next: Option<Tid>)
      requires WS.Inv(View()) && CV.ValidCursor(View(), it) && it.Some? && (count <= 0 || num < count) && threads[it.value].cvKey == k
      modifies this
      ensures WS.Inv(View()) && CV.ValidCursor(View(), next) && |CV.CondMembers(View())| < |old(CV.CondMembers(View()))|
      ensures CV.SignalLoop(View(), k, count, num + 1, next) == old(CV.SignalLoop(View(), k, count, num, it))
    {
      ghost var s := View();
      CV.SignalTargetKeepsInv(s, it.value);
      CV.CursorSurvives(s, it.value);
      CV.MembersShrink(s, CV.SignalTarget(s, it.value), it.value);
      next := SignalTarget(it.value);
    }

    /** The loop of `Signal`; returns where it stops. */
    method SignalLoop(k: Addr, count: int, first: Option<Tid>) returns (it: Option<Tid>)
      requires WS.Inv(View()) && CV.ValidCursor(View(), first)
      modifies this
      ensures WS.Inv(View()) && CV.ValidCursor(View(), it) && CV.Loop(View(), it) == old(CV.SignalLoop(View(), k, count, 0, first))
    {
      var num := 0;
      it := first;
      while it.Some? && (count <= 0 || num < count) && threads[it.value].cvKey == k
        invariant WS.Inv(View()) && CV.ValidCursor(View(), it) && 0 <= num
        invariant CV.SignalLoop(View(), k, count, num, it) == old(CV.SignalLoop(View(), k, count, 0, first))
        decreases |CV.CondMembers(View())|
      {
        it := SignalNext(k, count, num, it);
        num := num + 1;
      }
    }

    method Signal(k: Addr, count: int)
      requires WS.Inv(View())
      modifies this
      ensures View() == CV.Signal(old(View()), k, count)
    {
      CV.FirstValid(View(), k);
      var it := SignalLoop(k, count, CV.FirstFrom(threads, cond, k));
      if it.None? || threads[it.value].cvKey != k {
        var _ := WriteToUser(k, 0);
      }
    }

    method Wait(cur: Tid, addr: Addr, key: Addr, value: Word, timeout: int) returns (r: Option<Result>)
      requires WS.Inv(View()) && WS.Running(View(), cur)
      modifies this
      ensures CV.Outcome(View(), r) == CV.Wait(old(View()), cur, addr, key, value, timeout)
    {
      if threads[cur].dying { return Some(TerminationRequested); }
      var ok := GiveUp(cur, addr, key);
      if !ok { return Some(InvalidCurrentMemory); }
      if timeout == 0 { return Some(TimedOut); }
      WS.RunningUnlinked(View(), cur);
      SleepOn(cur, addr, key, value);
      return None;
    }

    /** The second half of `Wait`: enter the tree and block. */
    method SleepOn(cur: Tid, addr: Addr, key: Addr, value: Word)
      requires WS.Detached(View(), cur)
      modifies this
      ensures View() == CV.SleepOn(old(View()), cur, addr, key, value)
    {
      CV.KeyKeepsDetached(View(), cur, addr, value);
      threads := threads[cur := CV.SetKey(threads[cur], addr, value)];
      WS.EnterQueued(View(), cur, WS.InTree(threads[cur], InCond, key), cond);
      threads := threads[cur := WS.InTree(threads[cur], InCond, key)];
      cond := Insert(ByKeyThenPriority, threads, cond, cur);
      BeginWait(cur, CondQueue);
    }

    /** The first half of `Wait`: hand the lock over, raise the key's flag and store the next tag. */
    method GiveUp(cur: Tid, addr: Addr, key: Addr) returns (ok: bool)
      requires WS.Inv(View()) && WS.Running(View(), cur)
      modifies this
      ensures View() == CV.GiveUp(old(View()), cur, addr, Success, CV.Store(old(mem), key, 1))
      ensures ok == (addr in old(mem)) && WS.Inv(View()) && WS.Running(View(), cur)
    {
      ghost var s := View();
      WS.RunningUnlinked(s, cur);
      CV.HandedDetached(s, cur, addr);
      CV.GiveUpKeepsInv(s, cur, addr, Success, CV.Store(mem, key, 1));
      var next, more := RemoveWaiterByKey(cur, addr);
      var v := NextValue(next, more);
      if next.Some? { EndWait(next.value, Success); }
      var _ := WriteToUser(key, 1);
      ok := WriteToUser(addr, v);
    }

    /** `CancelWait` of whichever queue the thread sleeps in. */
    method CancelWait(t: Tid, r: Result)
      requires WS.Inv(View()) && t in threads
      modifies this
      ensures View() == CV.Cancel(old(View()), t, r)
    {
      ghost var s := View();
      if threads[t].queue == NoQueue { return; }
      CV.UnlinkDetaches(s, t);
      assert KS.ThreadLinks(s, t);
      var o := KS.OwnerOf(View(), t);
      if o.Some? {
        RemoveWaiter(o.value, t);
      }
      if threads[t].tree != NoTree {
        if threads[t].tree == InCond { cond := Remove(cond, t); } else { arb := Remove(arb, t); }
        threads := threads[t := WS.OutOfTree(threads[t])];
      }
      EndWait(t, r);
    }

    // ----- Priority changes and termination -----

    method Rebase(t: Tid, p: int)
      requires WS.Inv(View()) && t in threads
      modifies this
      ensures View() == KR.Rebase(old(View()), t, p)
    {
      KR.RebaseReady(View(), t, p);
      threads := threads[t := KR.SetBase(threads[t], p)];
      RestorePriority(t);
    }

    method SetBasePriority(t: Tid, priority: int)
      requires WS.Inv(View()) && t in threads
      modifies this
      ensures View() == KR.ChangeBase(old(View()), t, priority)
    {
      Rebase(t, if threads[t].dying && priority >= KR.TERMINATING then KR.TERMINATING else priority);
    }

    method RequestTerminate(t: Tid)
      requires WS.Inv(View()) && t in threads
      modifies this
      ensures View() == KR.Terminate(old(View()), t)
    {
      if threads[t].dying { return; }
      KR.DyingKeepsInv(View(), t);
      KR.DoomKeepsInv(View(), t);
      threads := threads[t := KR.SetDying(threads[t])];
      if threads[t].base > KR.TERMINATING { Rebase(t, KR.TERMINATING); }
      CancelWait(t, TerminationRequested);
    }

    // ----- KAddressArbiter -----

    /** The position of the first thread whose address is not below `addr`. */
    method FirstAt(addr: Addr) returns (i: nat)
      requires Queued(ByKeyThenPriority, threads, arb)
      ensures i <= |arb| && arb[i..] == AA.From(threads, arb, addr)
    {
      i := 0;
      while i < |arb| && threads[arb[i]].cvKey < addr
        invariant i <= |arb| && AA.From(threads, arb[i..], addr) == AA.From(threads, arb, addr)
        invariant Queued(ByKeyThenPriority, threads, arb[i..])
      {
        assert arb[i..][1..] == arb[i + 1..];
        i := i + 1;
      }
    }

    /** Wake the threads that wait at `addr`, from position `i` on, as many as the count allows. */
    method WakeWaiters(i: nat, addr: Addr, count: int)
      requires WS.Inv(View()) && i <= |arb|
      modifies this
      ensures AA.Suffix(old(arb)[i..], old(arb))
      ensures View() == AA.WakeLoop(old(View()), old(arb)[i..], addr, count, 0)
    {
      var num := 0;
      if i < |arb| { QueuedIn(ByKeyThenPriority, threads, arb, arb[i]); }
      ghost var end := AA.WakeLoop(View(), arb[i..], addr, count, 0);
      while i < |arb| && (count <= 0 || num < count) && threads[arb[i]].cvKey == addr
        invariant WS.Inv(View()) && i <= |arb| && 0 <= num
        invariant AA.WakeLoop(View(), arb[i..], addr, count, num) == end
        invariant i < |arb| ==> arb[i] in threads
        decreases |arb|
      {
        WakeOne(i);
        num := num + 1;
      }
    }

    method WakeOne(i: nat)
      requires WS.Inv(View()) && i < |arb|
      modifies this
      ensures old(arb)[i] in old(threads) && old(threads)[old(arb)[i]].tree == InArb
      ensures View() == AA.WakeOne(old(View()), old(arb)[i]) && WS.Inv(View())
      ensures arb == old(arb)[..i] + old(arb)[i + 1..] && (i < |arb| ==> arb[i] in threads)
    {
      ghost var s := View();
      var t := arb[i];
      AA.SuffixHead(s, arb[i..]);
      AA.WakeOneKeepsInv(s, t);
      AA.RemoveAt(ByKeyThenPriority, threads, arb, i);
      EndWait(t, Success);
      threads := threads[t := WS.OutOfTree(threads[t])];
      arb := Remove(arb, t);
      assert View() == AA.WakeOne(s, t);
      if i < |arb| { QueuedIn(ByKeyThenPriority, threads, arb, arb[i]); }
    }

    method ArbiterSignal(addr: Addr, count: int) returns (r: Result)
      requires WS.Inv(View())
      modifies this
      ensures CV.Outcome(View(), Some(r)) == AA.SignalOnly(old(View()), addr, count)
    {
      var i := FirstAt(addr);
      WakeWaiters(i, addr, count);
      return Success;
    }

    method SignalAndIncrement(addr: Addr, value: int, count: int) returns (r: Result)
      requires WS.Inv(View())
      modifies this
      ensures CV.Outcome(View(), Some(r)) == AA.SignalAndIncrement(old(View()), addr, value, count)
    {
      if addr !in mem { return InvalidCurrentMemory; }
      if AA.S32(mem[addr]) != value { return InvalidState; }
      CV.MemInv(View(), mem[addr := AA.U32(value + 1)]);
      mem := mem[addr := AA.U32(value + 1)];
      var i := FirstAt(addr);
      WakeWaiters(i, addr, count);
      return Success;
    }

    /** The value to store, with a count of the waiters that stops at `count`. */
    method NewValue(i: nat, addr: Addr, value: int, count: int) returns (v: int)
      requires WS.Inv(View()) && i <= |arb| && arb[i..] == AA.From(threads, arb, addr)
      ensures v == AA.ModifiedValue(value, count, |AA.Waiters(View(), addr)|)
    {
      ghost var n := |AA.Waiters(View(), addr)|;
      AA.FromSuffix(threads, arb, addr);
      AA.RunLength(threads, arb[i..], addr);
      if i == |arb| || threads[arb[i]].cvKey != addr { return value + 1; }
      if count <= 0 { return value - 1; }
      var j, extra := i + 1, 0;
      while j < |arb| && threads[arb[j]].cvKey == addr
        invariant i < j <= |arb| && j - i <= n && j - i == extra + 1 && extra < count
        invariant j < |arb| ==> arb[j] in threads
      {
        extra := extra + 1;
        if extra >= count { break; }
        j := j + 1;
        if j < |arb| { QueuedIn(ByKeyThenPriority, threads, arb, arb[j]); }
      }
      return if extra < count then value - 1 else value;
    }

    method SignalAndModify(addr: Addr, value: int, count: int) returns (r: Result)
      requires WS.Inv(View())
      modifies this
      ensures CV.Outcome(View(), Some(r)) == AA.SignalAndModify(old(View()), addr, value, count)
    {
      var i := FirstAt(addr);
      var v := NewValue(i, addr, value, count);
      if addr !in mem { return InvalidCurrentMemory; }
      if AA.S32(mem[addr]) != value { return InvalidState; }
      CV.MemInv(View(), AA.Modified(mem, addr, value, v));
      if v != value { mem := mem[addr := AA.U32(v)]; }
      WakeWaiters(i, addr, count);
      return Success;
    }

    method SleepAt(cur: Tid, addr: Addr)
      requires WS.Detached(View(), cur)
      modifies this
      ensures View() == AA.SleepAt(old(View()), cur, addr)
    {
      WS.EnterQueued(View(), cur, WS.InTree(threads[cur], InArb, addr), arb);
      threads := threads[cur := WS.InTree(threads[cur], InArb, addr)];
      arb := Insert(ByKeyThenPriority, threads, arb, cur);
      BeginWait(cur, ArbQueue);
    }

    method WaitIfLessThan(cur: Tid, addr: Addr, value: int, decrement: bool, timeout: int) returns (r: Option<Result>)
      requires WS.Inv(View()) && WS.Running(View(), cur)
      modifies this
      ensures CV.Outcome(View(), r) == AA.WaitIfLessThan(old(View()), cur, addr, value, decrement, timeout)
    {
      if threads[cur].dying { return Some(TerminationRequested); }
      if addr !in mem { return Some(InvalidCurrentMemory); }
      var user := AA.S32(mem[addr]);
      if user >= value { return Some(InvalidState); }
      WS.RunningUnlinked(View(), cur);
      WS.MemKeepsDetached(View(), cur, mem[addr := AA.U32(user - 1)]);
      if decrement { mem := mem[addr := AA.U32(user - 1)]; }
      if timeout == 0 { return Some(TimedOut); }
      SleepAt(cur, addr);
      return None;
    }

    method WaitIfEqual(cur: Tid, addr: Addr, value: int, timeout: int) returns (r: Option<Result>)
      requires WS.Inv(View()) && WS.Running(View(), cur)
      modifies this
      ensures CV.Outcome(View(), r) == AA.WaitIfEqual(old(View()), cur, addr, value, timeout)
    {
      if threads[cur].dying { return Some(TerminationRequested); }
      if addr !in mem { return Some(InvalidCurrentMemory); }
      if AA.S32(mem[addr]) != value { return Some(InvalidState); }
      if timeout == 0 { return Some(TimedOut); }
      WS.RunningUnlinked(View(), cur);
      SleepAt(cur, addr);
      return None;
    }
  }

  ghost predicate FrontAtLeast(s: KS.State, l: Lid, p: int)
    requires l in s.locks
  {
    s.locks[l].waiters != [] && s.locks[l].waiters[0] in s.threads && p <= s.threads[s.locks[l].waiters[0]].prio
  }

  ghost predicate FrontIs(s: KS.State, l: Lid, p: int) {
    l in s.locks && s.locks[l].waiters != [] && s.locks[l].waiters[0] in s.threads && p == s.threads[s.locks[l].waiters[0]].prio
  }

  /** The front waiters' priorities decide the inherited priority. */
  lemma FrontsWanted(s: KS.State, t: Tid, p: int)
    requires KS.Links(s) && t in s.threads && p <= s.threads[t].base
    requires forall l :: l in s.threads[t].held ==> l in s.locks && FrontAtLeast(s, l, p)
    requires p == s.threads[t].base || exists l :: l in s.threads[t].held && FrontIs(s, l, p)
    ensures p == PI.Wanted(s, t)
  {
    assert KS.ThreadLinks(s, t);
    forall w | w in s.threads && KS.OwnerOf(s, w) == Some(t) ensures p <= s.threads[w].prio {
      assert KS.ThreadLinks(s, w);
      var l := s.threads[w].lock.value;
      assert KS.LockLinks(s, l) && FrontAtLeast(s, l, p);
      WL.HeadBest(s.threads, s.locks[l].waiters, w);
    }
    if p != s.threads[t].base {
      var l :| l in s.threads[t].held && FrontIs(s, l, p);
      assert KS.LockLinks(s, l) && KS.WaitsIn(s, s.locks[l].waiters[0], l);
      assert KS.OwnerOf(s, s.locks[l].waiters[0]) == Some(t);
    }
    PI.WantedUnique(s, t, p);
  }
}
