/** A disciplined run that ends with a broadcast that skips a waiter and clears the flag.

    Threads 1, 2 and 3 wait on key 100.  Thread 3 still holds the lock at 300, for which thread 4
    waits, and thread 4 holds the lock at 200, which thread 1 will want: signalling thread 1 raises
    thread 3 and moves it in front of the loop's iterator. */
module SkippedWaiter {
  import opened Basics
  import opened WaitTrees
  import opened KernelState
  import opened PriorityInheritance
  import opened WaiterLists
  import opened WaitSteps
  import opened ConditionVariable
  import opened KernelRuns
  import opened TreeOrder
  import opened SignalFlag
  import opened LockWords
  import opened LockProtocol
  import opened CondFlags

  function Users(): Setup { Setup(map[1 := 1, 2 := 2, 3 := 3, 4 := 4], {200, 300, 400}, {100}) }

  function Idle(p: int, held: seq<Lid>): Thread { Thread(p, p, false, NoQueue, Success, NoTree, 0, None, 0, 0, held) }

  function OnKey(p: int, a: Addr, tag: Word, held: seq<Lid>): Thread {
    Thread(p, p, false, CondQueue, Success, InCond, 100, None, a, tag, held)
  }

  /** The state when `n` of the threads 1, 2, 3 wait on the key and, if `locked`, thread 4 for the lock. */
  function Stage(n: nat, locked: bool, m: map<Addr, Word>): State {
    var held := if locked then [0] else [];
    State(map[1 := if n >= 1 then OnKey(10, 200, 1, []) else Idle(10, []),
              2 := if n >= 2 then OnKey(15, 400, 2, []) else Idle(15, []),
              3 := if n >= 3 then OnKey(20, 400, 3, held) else Idle(20, held),
              4 := if locked then Thread(30, 30, false, LockQueue, Success, NoTree, 0, Some(0), 300, 4, []) else Idle(30, [])],
          if locked then map[0 := Lock(300, 3, [4])] else map[],
          if n == 0 then [] else if n == 1 then [1] else if n == 2 then [1, 2] else [1, 2, 3], [],
          m, map[1 := 1, 2 := 2, 3 := 3, 4 := 4], if locked then 1 else 0)
  }

  function Words4(key: Word, a: Word, b: Word, c: Word): map<Addr, Word> { map[100 := key, 200 := a, 300 := b, 400 := c] }

  // ----- Steps -----

  /** The run leads from `s` to `s'` and obeys the protocol. */
  ghost predicate Leads(s: State, run: seq<Action>, s': State) {
    Inv(s) && ObeysRun(Users(), s, run) && Exec(s, run) == s'
  }

  lemma Then(s: State, a: Action, s1: State, run: seq<Action>, s': State)
    requires Inv(s) && Enabled(s, a) && Obeys(Users(), s, a) && Apply(s, a) == s1
    requires Inv(s1) ==> Leads(s1, run, s')
    ensures Leads(s, [a] + run, s')
  {
    StepKeepsInv(s, a);
    assert ([a] + run)[1..] == run;
  }

  lemma WaitStep(s: State, cur: Tid, addr: Addr, tag: Word)
    requires Inv(s) && Running(s, cur) && !s.threads[cur].dying && addr in s.mem && 100 in s.mem
    requires LockFor(s, cur, addr) == None
    ensures var s1 := WithMem(s, s.mem[100 := 1][addr := 0]);
            Detached(s1, cur) && Apply(s, WaitProcessWideKey(cur, addr, 100, tag, -1)) == SleepOn(s1, cur, addr, 100, tag)
  {
    RunningUnlinked(s, cur);
    MemKeepsDetached(s, cur, s.mem[100 := 1][addr := 0]);
  }

  function Sleeper(x: Thread, a: Addr, tag: Word): Thread { x.(queue := CondQueue, tree := InCond, cvKey := 100, key := a, val := tag) }

  ghost predicate BelongsLast(s: State, t: Tid, a: Addr, tag: Word) {
    && t in s.threads && t !in s.cond
    && forall x :: x in s.cond ==> x in s.threads && Le(ByKeyThenPriority, s.threads[x], Sleeper(s.threads[t], a, tag))
  }

  lemma Behind(n: nat, locked: bool, m: map<Addr, Word>)
    requires n < 3
    ensures BelongsLast(Stage(n, locked, m), n + 1, if n == 0 then 200 else 400, n + 1)
  {
  }

  /** A thread behind which nobody belongs waits as the last one. */
  lemma SleepLast(s: State, t: Tid, a: Addr, tag: Word)
    requires Detached(s, t) && BelongsLast(s, t, a, tag)
    ensures SleepOn(s, t, a, 100, tag) == s.(threads := s.threads[t := Sleeper(s.threads[t], a, tag)], cond := s.cond + [t])
  {
    var s1 := PutThread(s, t, SetKey(s.threads[t], a, tag));
    KeyKeepsDetached(s, t, a, tag);
    EnterQueued(s1, t, InTree(s1.threads[t], InCond, 100), s.cond);
    InsertLast(PutThread(s1, t, InTree(s1.threads[t], InCond, 100)).threads, s.cond, t);
  }

  /** The next thread waits behind the others. */
  lemma NextWaits(n: nat, locked: bool, m: map<Addr, Word>)
    requires n < 3 && Inv(Stage(n, locked, m)) && 100 in m && 200 in m && 400 in m
    ensures var addr := if n == 0 then 200 else 400;
            Apply(Stage(n, locked, m), WaitProcessWideKey(n + 1, addr, 100, n + 1, -1)) == Stage(n + 1, locked, m[100 := 1][addr := 0])
  {
    var s, t, addr := Stage(n, locked, m), n + 1, if n == 0 then 200 else 400;
    NoLockFor(n, locked, m);
    Behind(n, locked, m[100 := 1][addr := 0]);
    WaitStep(s, t, addr, t);
    SleepLast(WithMem(s, m[100 := 1][addr := 0]), t, addr, t);
    StageNext(n, locked, m[100 := 1][addr := 0]);
  }

  lemma StageNext(n: nat, locked: bool, m: map<Addr, Word>)
    requires n < 3
    ensures var s, t := Stage(n, locked, m), n + 1;
            s.(threads := s.threads[t := Sleeper(s.threads[t], if n == 0 then 200 else 400, t)], cond := s.cond + [t]) == Stage(n + 1, locked, m)
  {
  }

  lemma NoLockFor(n: nat, locked: bool, m: map<Addr, Word>)
    requires n < 3 && Inv(Stage(n, locked, m))
    ensures LockFor(Stage(n, locked, m), n + 1, if n == 0 then 200 else 400) == None
  {
  }

  lemma {:induction false} InsertLast(th: Threads, q: seq<Tid>, t: Tid)
    requires Queued(ByKeyThenPriority, th, q) && t in th && forall x :: x in q ==> x in th && Le(ByKeyThenPriority, th[x], th[t])
    ensures Insert(ByKeyThenPriority, th, q, t) == q + [t]
  {
    if q != [] {
      InsertLast(th, q[1..], t);
      assert [q[0]] + (q[1..] + [t]) == q + [t];
    }
  }

  /** Thread 4 waits for the lock that thread 3 holds. */
  lemma FourthLocks(m: map<Addr, Word>)
    requires Inv(Stage(2, false, m)) && 300 in m && m[300] == 3 + WAIT_MASK
    ensures Apply(Stage(2, false, m), ArbitrateLock(4, 3, 300, 4)) == Stage(2, true, m)
  {
    var s := Stage(2, false, m);
    MaskFacts(3);
    RunningUnlinked(s, 4);
    var s1 := PutThread(s, 4, SetKey(s.threads[4], 300, 4));
    KeyKeepsDetached(s, 4, 300, 4);
    AddWaiterDetached(s1, 3, 4);
    assert AddWaiter(s1, 3, 4) == OpenLock(s1, 3, 4);
    assert [0] + s.threads[3].held == [0];
    assert WaitForOwner(s, 4, 3, 300, 4).threads == Stage(2, true, m).threads;
  }

  lemma Stores(n: nat, locked: bool, m: map<Addr, Word>, cur: Tid, a: Addr, w: Word)
    requires Inv(Stage(n, locked, m)) && a in m && Running(Stage(n, locked, m), cur)
    ensures Apply(Stage(n, locked, m), UserStore(cur, a, w)) == Stage(n, locked, m[a := w])
  {
  }

  // ----- The run -----

  function Start(): State { Stage(0, false, Words4(0, 0, 0, 0)) }

  function End(): State { Stage(3, true, Words4(1, 4, 3 + WAIT_MASK, 0)) }

  function Run(): seq<Action> {
    [UserStore(1, 200, 1)] + ([WaitProcessWideKey(1, 200, 100, 1, -1)]
    + ([UserStore(2, 400, 2)] + ([WaitProcessWideKey(2, 400, 100, 2, -1)] + Contend())))
  }

  function Contend(): seq<Action> {
    [UserStore(3, 300, 3)] + ([UserStore(4, 200, 4)] + ([UserStore(4, 300, 3 + WAIT_MASK)] + ([ArbitrateLock(4, 3, 300, 4)] + LastWait())))
  }

  function LastWait(): seq<Action> { [UserStore(3, 400, 3)] + ([WaitProcessWideKey(3, 400, 100, 3, -1)] + []) }

  lemma ThenStores(n: nat, locked: bool, m: map<Addr, Word>, cur: Tid, a: Addr, w: Word, m': map<Addr, Word>, run: seq<Action>)
    requires Inv(Stage(n, locked, m)) && Running(Stage(n, locked, m), cur)
    requires a in m && a in Users().locks && UserMove(Users(), cur, m[a], w) && m' == m[a := w]
    requires Inv(Stage(n, locked, m')) ==> Leads(Stage(n, locked, m'), run, End())
    ensures Leads(Stage(n, locked, m), [UserStore(cur, a, w)] + run, End())
  {
    Stores(n, locked, m, cur, a, w);
    Then(Stage(n, locked, m), UserStore(cur, a, w), Stage(n, locked, m'), run, End());
  }

  lemma MayWait(n: nat, locked: bool, m: map<Addr, Word>, addr: Addr)
    requires n < 3 && addr == (if n == 0 then 200 else 400) && addr in m && m[addr] == n + 1
    ensures var s, a := Stage(n, locked, m), WaitProcessWideKey(n + 1, addr, 100, n + 1, -1);
            Enabled(s, a) && Obeys(Users(), s, a)
  {
    MaskFacts(n + 1);
  }

  lemma ThenWaits(n: nat, locked: bool, m: map<Addr, Word>, addr: Addr, m': map<Addr, Word>, run: seq<Action>)
    requires n < 3 && addr == (if n == 0 then 200 else 400) && Inv(Stage(n, locked, m))
    requires 100 in m && 200 in m && 400 in m && m[addr] == n + 1 && m' == m[100 := 1][addr := 0]
    requires Inv(Stage(n + 1, locked, m')) ==> Leads(Stage(n + 1, locked, m'), run, End())
    ensures Leads(Stage(n, locked, m), [WaitProcessWideKey(n + 1, addr, 100, n + 1, -1)] + run, End())
  {
    MayWait(n, locked, m, addr);
    NextWaits(n, locked, m);
    Then(Stage(n, locked, m), WaitProcessWideKey(n + 1, addr, 100, n + 1, -1), Stage(n + 1, locked, m'), run, End());
  }

  // The run's suffixes, each from its stage on.

  lemma From9()
    requires Inv(Stage(2, true, Words4(1, 4, 3 + WAIT_MASK, 3)))
    ensures Leads(Stage(2, true, Words4(1, 4, 3 + WAIT_MASK, 3)), [WaitProcessWideKey(3, 400, 100, 3, -1)] + [], End())
  {
    ThenWaits(2, true, Words4(1, 4, 3 + WAIT_MASK, 3), 400, Words4(1, 4, 3 + WAIT_MASK, 0), []);
  }

  lemma From8()
    requires Inv(Stage(2, true, Words4(1, 4, 3 + WAIT_MASK, 0)))
    ensures Leads(Stage(2, true, Words4(1, 4, 3 + WAIT_MASK, 0)), LastWait(), End())
  {
    if Inv(Stage(2, true, Words4(1, 4, 3 + WAIT_MASK, 3))) { From9(); }
    ThenStores(2, true, Words4(1, 4, 3 + WAIT_MASK, 0), 3, 400, 3, Words4(1, 4, 3 + WAIT_MASK, 3), [WaitProcessWideKey(3, 400, 100, 3, -1)] + []);
  }

  lemma From7()
    requires Inv(Stage(2, false, Words4(1, 4, 3 + WAIT_MASK, 0)))
    ensures Leads(Stage(2, false, Words4(1, 4, 3 + WAIT_MASK, 0)), [ArbitrateLock(4, 3, 300, 4)] + LastWait(), End())
  {
    var m := Words4(1, 4, 3 + WAIT_MASK, 0);
    FourthLocks(m);
    MaskFacts(3);
    if Inv(Stage(2, true, m)) { From8(); }
    Then(Stage(2, false, m), ArbitrateLock(4, 3, 300, 4), Stage(2, true, m), LastWait(), End());
  }

  lemma From6(run: seq<Action>)
    requires Inv(Stage(2, false, Words4(1, 4, 3, 0))) && run == [ArbitrateLock(4, 3, 300, 4)] + LastWait()
    ensures Leads(Stage(2, false, Words4(1, 4, 3, 0)), [UserStore(4, 300, 3 + WAIT_MASK)] + run, End())
  {
    MaskFacts(3);
    if Inv(Stage(2, false, Words4(1, 4, 3 + WAIT_MASK, 0))) { From7(); }
    ThenStores(2, false, Words4(1, 4, 3, 0), 4, 300, 3 + WAIT_MASK, Words4(1, 4, 3 + WAIT_MASK, 0), run);
  }

  lemma From5(run: seq<Action>)
    requires Inv(Stage(2, false, Words4(1, 0, 3, 0)))
    requires run == [UserStore(4, 300, 3 + WAIT_MASK)] + ([ArbitrateLock(4, 3, 300, 4)] + LastWait())
    ensures Leads(Stage(2, false, Words4(1, 0, 3, 0)), [UserStore(4, 200, 4)] + run, End())
  {
    if Inv(Stage(2, false, Words4(1, 4, 3, 0))) { From6([ArbitrateLock(4, 3, 300, 4)] + LastWait()); }
    ThenStores(2, false, Words4(1, 0, 3, 0), 4, 200, 4, Words4(1, 4, 3, 0), run);
  }

  lemma From4()
    requires Inv(Stage(2, false, Words4(1, 0, 0, 0)))
    ensures Leads(Stage(2, false, Words4(1, 0, 0, 0)), Contend(), End())
  {
    var run := [UserStore(4, 300, 3 + WAIT_MASK)] + ([ArbitrateLock(4, 3, 300, 4)] + LastWait());
    if Inv(Stage(2, false, Words4(1, 0, 3, 0))) { From5(run); }
    ThenStores(2, false, Words4(1, 0, 0, 0), 3, 300, 3, Words4(1, 0, 3, 0), [UserStore(4, 200, 4)] + run);
  }

  lemma From3()
    requires Inv(Stage(1, false, Words4(1, 0, 0, 2)))
    ensures Leads(Stage(1, false, Words4(1, 0, 0, 2)), [WaitProcessWideKey(2, 400, 100, 2, -1)] + Contend(), End())
  {
    if Inv(Stage(2, false, Words4(1, 0, 0, 0))) { From4(); }
    ThenWaits(1, false, Words4(1, 0, 0, 2), 400, Words4(1, 0, 0, 0), Contend());
  }

  lemma From2(run: seq<Action>)
    requires Inv(Stage(1, false, Words4(1, 0, 0, 0))) && run == [WaitProcessWideKey(2, 400, 100, 2, -1)] + Contend()
    ensures Leads(Stage(1, false, Words4(1, 0, 0, 0)), [UserStore(2, 400, 2)] + run, End())
  {
    if Inv(Stage(1, false, Words4(1, 0, 0, 2))) { From3(); }
    ThenStores(1, false, Words4(1, 0, 0, 0), 2, 400, 2, Words4(1, 0, 0, 2), run);
  }

  lemma From1(run: seq<Action>)
    requires Inv(Stage(0, false, Words4(0, 1, 0, 0)))
    requires run == [UserStore(2, 400, 2)] + ([WaitProcessWideKey(2, 400, 100, 2, -1)] + Contend())
    ensures Leads(Stage(0, false, Words4(0, 1, 0, 0)), [WaitProcessWideKey(1, 200, 100, 1, -1)] + run, End())
  {
    if Inv(Stage(1, false, Words4(1, 0, 0, 0))) { From2([WaitProcessWideKey(2, 400, 100, 2, -1)] + Contend()); }
    ThenWaits(0, false, Words4(0, 1, 0, 0), 200, Words4(1, 0, 0, 0), run);
  }

  lemma UsersOk()
    ensures SetupOk(Users(), Start())
  {
  }

  lemma StartStarted()
    ensures Started(Users(), Start())
  {
    UsersOk();
  }

  lemma RunLeads()
    requires Inv(Start())
    ensures Leads(Start(), Run(), End())
  {
    var run := [UserStore(2, 400, 2)] + ([WaitProcessWideKey(2, 400, 100, 2, -1)] + Contend());
    if Inv(Stage(0, false, Words4(0, 1, 0, 0))) { From1(run); }
    ThenStores(0, false, Words4(0, 0, 0, 0), 1, 200, 1, Words4(0, 1, 0, 0), [WaitProcessWideKey(1, 200, 100, 1, -1)] + run);
  }

  lemma EndSkips()
    ensures SkipsOne(End(), 100, 1) && FlagsSet(End()) && FirstFrom(End().threads, End().cond, 100) == Some(1)
  {
    var s := End();
    MaskFacts(4);
    assert EndFrom(s, 3, {1} + {4}) == Some(3);
    assert EndFrom(s, 4, {1}) == Some(3);
    assert RaisedBy(s, 1) == Some(3);
  }

  /** User code obeys the protocol in every step, the flag is set at the end of the run, and yet the
      broadcast then clears it although a thread still waits. */
  lemma BroadcastSkips()
    ensures Started(Users(), Start()) && Leads(Start(), Run(), End())
    ensures var s := Exec(Start(), Run());
            FlagsSet(s) && Clears(s, 100, 0) && Waiting(Signal(s, 100, 0), 100)
  {
    StartStarted();
    StartedFlagged(Users(), Start());
    RunLeads();
    EndSkips();
    FirstValid(End(), 100);
    BroadcastExact(End(), 100, 0);
  }
}
