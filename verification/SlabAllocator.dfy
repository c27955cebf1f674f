/** The lock-free slab allocator, one load, store or compare-and-swap at a time.

    A compare-and-swap may fail spuriously.  Between them, other threads may do anything; clients
    may overwrite the link word of an object they own. */
module SlabAllocator {
  import opened Basics

  type Node = nat
  type Thread = nat

  /** Where a thread is in `Allocate` or `Free`. */
  datatype Place =
    | Idle
    | Loaded(ret: Node)                          // Allocate has loaded the head
    | Read(ret: Node, next: Option<Node>)        // ... and the link of that node
    | Freeing(node: Node, cur: Option<Node>)     // Free has loaded the head
    | Stored(node: Node, cur: Option<Node>)      // ... and stored it as the link

  datatype State = State(head: Option<Node>, next: map<Node, Option<Node>>, places: map<Thread, Place>, out: set<Node>)

  datatype Action =
    | AllocLoad(t: Thread)
    | AllocRead(t: Thread)
    | AllocSwap(t: Thread, spurious: bool)
    | FreeLoad(t: Thread, node: Node)
    | FreeStore(t: Thread)
    | FreeSwap(t: Thread, spurious: bool)
    | Scribble(node: Node, w: Option<Node>)

  function At(s: State, t: Thread): Place { if t in s.places then s.places[t] else Idle }

  predicate Enabled(s: State, a: Action) {
    match a
    case AllocLoad(t) => At(s, t).Idle?
    case AllocRead(t) => At(s, t).Loaded?
    case AllocSwap(t, _) => At(s, t).Read?
    case FreeLoad(t, n) => At(s, t).Idle? && n in s.out
    case FreeStore(t) => At(s, t).Freeing?
    case FreeSwap(t, _) => At(s, t).Stored?
    case Scribble(n, _) => n in s.out
  }

  function Put(s: State, t: Thread, p: Place): State { s.(places := s.places[t := p]) }

  /** After `Allocate` has seen the head: nothing left, or a node to try. */
  function Try(h: Option<Node>): Place { if h.None? then Idle else Loaded(h.value) }

  function Link(s: State, n: Node): Option<Node> { if n in s.next then s.next[n] else None }

  function Apply(s: State, a: Action): State
    requires Enabled(s, a)
  {
    match a
    case AllocLoad(t) => Put(s, t, Try(s.head))
    case AllocRead(t) => Put(s, t, Read(At(s, t).ret, Link(s, At(s, t).ret)))
    case AllocSwap(t, spurious) =>
      var p := At(s, t);
      if s.head == Some(p.ret) && !spurious then Put(s.(head := p.next, out := s.out + {p.ret}), t, Idle)
      else Put(s, t, Try(s.head))
    case FreeLoad(t, n) => Put(s.(out := s.out - {n}), t, Freeing(n, s.head))
    case FreeStore(t) => var p := At(s, t); Put(s.(next := s.next[p.node := p.cur]), t, Stored(p.node, p.cur))
    case FreeSwap(t, spurious) =>
      var p := At(s, t);
      if s.head == p.cur && !spurious then Put(s.(head := Some(p.node)), t, Idle)
      else Put(s, t, Freeing(p.node, s.head))
    case Scribble(n, w) => s.(next := s.next[n := w])
  }

  // ----- The free list and the partition -----

  ghost predicate Chain(s: State, first: Option<Node>, l: seq<Node>)
    decreases l
  {
    if l == [] then first == None else first == Some(l[0]) && Chain(s, Link(s, l[0]), l[1..])
  }

  /** The node a thread is freeing. */
  function InFlight(p: Place): Option<Node> {
    match p
    case Freeing(n, _) => Some(n)
    case Stored(n, _) => Some(n)
    case _ => None
  }

  /** The node a pending `Allocate` holds as its snapshot. */
  function Snapshot(p: Place): Option<Node> {
    match p
    case Loaded(n) => Some(n)
    case Read(n, _) => Some(n)
    case _ => None
  }

  ghost function Flying(s: State): set<Node> { set t | t in s.places && InFlight(s.places[t]).Some? :: InFlight(s.places[t]).value }

  /** Free, handed out and in-flight nodes are the objects, each in exactly one of the three. */
  ghost predicate Partition(s: State, l: seq<Node>, objects: set<Node>) {
    && Chain(s, s.head, l) && NoDup(l)
    && (forall n :: n in l ==> n !in s.out && n !in Flying(s))
    && s.out !! Flying(s)
    && objects == (set n | n in l) + s.out + Flying(s)
    && (forall t, u :: t in s.places && u in s.places && t != u && InFlight(s.places[t]).Some? ==> InFlight(s.places[t]) != InFlight(s.places[u]))
  }

  /** `Free` has stored the link it will publish. */
  ghost predicate StoreOk(s: State, t: Thread)
    requires t in s.places
  {
    s.places[t].Stored? ==> Link(s, s.places[t].node) == s.places[t].cur
  }

  /** What every step keeps that is not a stale swap. */
  ghost predicate Sound(s: State, l: seq<Node>, objects: set<Node>) {
    Partition(s, l, objects) && forall t {:trigger StoreOk(s, t)} :: t in s.places ==> StoreOk(s, t)
  }

  /** Snapshots are never in flight, and a snapshot that is free has been read correctly. */
  ghost predicate SnapshotOk(s: State, l: seq<Node>, t: Thread)
    requires t in s.places
  {
    var p := s.places[t];
    && (Snapshot(p).Some? ==> Snapshot(p).value !in Flying(s))
    && (p.Read? && p.ret in l ==> p.next == Link(s, p.ret))
  }

  ghost predicate Inv(s: State, l: seq<Node>, objects: set<Node>) {
    Sound(s, l, objects) && forall t {:trigger SnapshotOk(s, l, t)} :: t in s.places ==> SnapshotOk(s, l, t)
  }

  /** A swap of `Allocate` that will succeed although the link it installs is out of date. */
  predicate Stale(s: State, a: Action) {
    && a.AllocSwap? && !a.spurious && At(s, a.t).Read?
    && s.head == Some(At(s, a.t).ret) && At(s, a.t).next != Link(s, At(s, a.t).ret)
  }

  /** No node is freed while another thread's pending `Allocate` holds it. */
  predicate Obeys(s: State, a: Action) {
    a.FreeLoad? ==> forall t :: t in s.places ==> Snapshot(s.places[t]) != Some(a.node)
  }

  /** What an action does to the free list. */
  ghost function ListAfter(s: State, l: seq<Node>, a: Action): seq<Node>
    requires Enabled(s, a)
  {
    match a
    case AllocSwap(t, spurious) => if s.head == Some(At(s, t).ret) && !spurious && l != [] then l[1..] else l
    case FreeSwap(t, spurious) => if s.head == At(s, t).cur && !spurious then [At(s, t).node] + l else l
    case _ => l
  }

  lemma {:induction false} ChainFrame(s: State, s': State, first: Option<Node>, l: seq<Node>)
    requires Chain(s, first, l) && forall n :: n in l ==> Link(s', n) == Link(s, n)
    ensures Chain(s', first, l)
    decreases l
  {
    if l != [] { ChainFrame(s, s', Link(s, l[0]), l[1..]); }
  }

  // ----- Steps -----

  ghost predicate PlaceSet(s: State, s': State, t: Thread, p: Place) { s'.places == s.places[t := p] }

  lemma FlyingSame(s: State, s': State, t: Thread, p: Place)
    requires PlaceSet(s, s', t, p) && InFlight(p) == InFlight(At(s, t))
    ensures Flying(s') == Flying(s)
  {
    forall n ensures n in Flying(s') <==> n in Flying(s) {
      if n in Flying(s) { var u :| u in s.places && InFlight(s.places[u]) == Some(n); assert InFlight(s'.places[u]) == Some(n); }
      if n in Flying(s') { var u :| u in s'.places && InFlight(s'.places[u]) == Some(n); assert InFlight(At(s, u)) == Some(n); }
    }
  }

  lemma FlyingMore(s: State, s': State, t: Thread, p: Place, n: Node)
    requires PlaceSet(s, s', t, p) && InFlight(p) == Some(n) && InFlight(At(s, t)) == None
    ensures Flying(s') == Flying(s) + {n}
  {
    forall m ensures m in Flying(s') <==> m in Flying(s) + {n} {
      if m in Flying(s) { var u :| u in s.places && InFlight(s.places[u]) == Some(m); assert InFlight(s'.places[u]) == Some(m); }
      if m in Flying(s') { var u :| u in s'.places && InFlight(s'.places[u]) == Some(m); assert u != t ==> InFlight(At(s, u)) == Some(m); }
      assert t in s'.places && InFlight(s'.places[t]) == Some(n);
    }
  }

  lemma FlyingLess(s: State, s': State, t: Thread, n: Node)
    requires PlaceSet(s, s', t, Idle) && InFlight(At(s, t)) == Some(n)
    requires forall u :: u in s.places && u != t ==> InFlight(s.places[u]) != Some(n)
    ensures Flying(s') == Flying(s) - {n} && n in Flying(s)
  {
    forall m ensures m in Flying(s') <==> m in Flying(s) - {n} {
      if m in Flying(s) && m != n { var u :| u in s.places && InFlight(s.places[u]) == Some(m); assert InFlight(s'.places[u]) == Some(m); }
      if m in Flying(s') { var u :| u in s'.places && InFlight(s'.places[u]) == Some(m); assert InFlight(At(s, u)) == Some(m); }
    }
  }

  /** A thread moves on without touching the list. */
  lemma MoveKeepsSound(s: State, l: seq<Node>, objects: set<Node>, t: Thread, p: Place)
    requires Sound(s, l, objects) && InFlight(p) == InFlight(At(s, t)) && !p.Stored?
    ensures Sound(Put(s, t, p), l, objects)
  {
    var s' := Put(s, t, p);
    FlyingSame(s, s', t, p);
    ChainFrame(s, s', s.head, l);
    forall u | u in s'.places ensures StoreOk(s', u) { if u != t { assert StoreOk(s, u); } }
  }

  lemma FreeStoreKeepsSound(s: State, l: seq<Node>, objects: set<Node>, t: Thread)
    requires Sound(s, l, objects) && At(s, t).Freeing?
    ensures Sound(Apply(s, FreeStore(t)), l, objects)
  {
    var s', n := Apply(s, FreeStore(t)), At(s, t).node;
    FlyingSame(s, s', t, Stored(n, At(s, t).cur));
    assert n in Flying(s) by { assert InFlight(s.places[t]) == Some(n); }
    ChainFrame(s, s', s.head, l);
    forall u | u in s'.places ensures StoreOk(s', u) {
      assert StoreOk(s, u);
      assert u != t ==> InFlight(s.places[u]) != InFlight(s.places[t]);
    }
  }

  lemma FreeLoadKeepsSound(s: State, l: seq<Node>, objects: set<Node>, t: Thread, n: Node)
    requires Sound(s, l, objects) && At(s, t).Idle? && n in s.out
    ensures Sound(Apply(s, FreeLoad(t, n)), l, objects)
  {
    var s' := Apply(s, FreeLoad(t, n));
    FlyingMore(s, s', t, Freeing(n, s.head), n);
    ChainFrame(s, s', s.head, l);
    forall u | u in s.places ensures InFlight(s.places[u]) != Some(n) {
      assert InFlight(s.places[u]).Some? ==> InFlight(s.places[u]).value in Flying(s);
    }
    forall u | u in s'.places ensures StoreOk(s', u) { if u != t { assert StoreOk(s, u); } }
  }

  /** A successful compare-and-swap of `Allocate` that is not stale pops the first free node. */
  lemma PopKeepsSound(s: State, l: seq<Node>, objects: set<Node>, t: Thread)
    requires Sound(s, l, objects) && At(s, t).Read? && s.head == Some(At(s, t).ret) && !Stale(s, AllocSwap(t, false))
    ensures l != [] && l[0] == At(s, t).ret && Sound(Apply(s, AllocSwap(t, false)), l[1..], objects)
  {
    var s', r := Apply(s, AllocSwap(t, false)), At(s, t).ret;
    FlyingSame(s, s', t, Idle);
    assert l == [l[0]] + l[1..];
    ChainFrame(s, s', Link(s, r), l[1..]);
    forall u | u in s'.places ensures StoreOk(s', u) { if u != t { assert StoreOk(s, u); } }
  }

  /** A successful compare-and-swap of `Free` pushes the node. */
  lemma PushKeepsSound(s: State, l: seq<Node>, objects: set<Node>, t: Thread)
    requires Sound(s, l, objects) && At(s, t).Stored? && s.head == At(s, t).cur
    ensures Sound(Apply(s, FreeSwap(t, false)), [At(s, t).node] + l, objects)
  {
    var s', n := Apply(s, FreeSwap(t, false)), At(s, t).node;
    assert StoreOk(s, t);
    assert n in Flying(s) by { assert InFlight(s.places[t]) == Some(n); }
    FlyingLess(s, s', t, n);
    assert ([n] + l)[1..] == l;
    ChainFrame(s, s', s.head, l);
    forall u | u in s'.places ensures StoreOk(s', u) { if u != t { assert StoreOk(s, u); } }
  }

  lemma ScribbleKeepsSound(s: State, l: seq<Node>, objects: set<Node>, n: Node, w: Option<Node>)
    requires Sound(s, l, objects) && n in s.out
    ensures Sound(Apply(s, Scribble(n, w)), l, objects)
  {
    var s' := Apply(s, Scribble(n, w));
    assert Flying(s') == Flying(s);
    ChainFrame(s, s', s.head, l);
    forall u | u in s'.places ensures StoreOk(s', u) {
      assert StoreOk(s, u);
      assert InFlight(s.places[u]).Some? ==> InFlight(s.places[u]).value in Flying(s);
    }
  }

  /** Every step but a stale swap keeps the partition, whoever frees what, and a successful swap is
      one pop or push. */
  lemma StepKeepsSound(s: State, l: seq<Node>, objects: set<Node>, a: Action)
    requires Sound(s, l, objects) && Enabled(s, a) && !Stale(s, a)
    ensures Sound(Apply(s, a), ListAfter(s, l, a), objects)
  {
    match a
    case AllocLoad(t) => MoveKeepsSound(s, l, objects, t, Try(s.head));
    case AllocRead(t) => MoveKeepsSound(s, l, objects, t, Read(At(s, t).ret, Link(s, At(s, t).ret)));
    case AllocSwap(t, spurious) =>
      if s.head == Some(At(s, t).ret) && !spurious { PopKeepsSound(s, l, objects, t); }
      else { MoveKeepsSound(s, l, objects, t, Try(s.head)); }
    case FreeLoad(t, n) => FreeLoadKeepsSound(s, l, objects, t, n);
    case FreeStore(t) => FreeStoreKeepsSound(s, l, objects, t);
    case FreeSwap(t, spurious) =>
      if s.head == At(s, t).cur && !spurious { PushKeepsSound(s, l, objects, t); }
      else { MoveKeepsSound(s, l, objects, t, Freeing(At(s, t).node, s.head)); }
    case Scribble(n, w) => ScribbleKeepsSound(s, l, objects, n, w);
  }

  /** `Allocate` gives up exactly if it sees an empty free list, and returns exactly the node that its swap
      takes from the front of the list. */
  lemma AllocateEnds(s: State, l: seq<Node>, objects: set<Node>, t: Thread, spurious: bool)
    requires Sound(s, l, objects)
    ensures At(s, t).Idle? ==> (At(Apply(s, AllocLoad(t)), t).Idle? <==> l == [])
    ensures At(s, t).Read? ==>
              var s' := Apply(s, AllocSwap(t, spurious));
              && (At(s', t).Idle? && s'.out == s.out <==> l == [])
              && (s'.out != s.out <==> !spurious && l != [] && l[0] == At(s, t).ret)
              && (s'.out != s.out ==> At(s', t).Idle? && s'.out == s.out + {l[0]})
              && (!At(s', t).Idle? ==> At(s', t) == Loaded(l[0]))
  {
    assert l != [] ==> l[0] in l;
  }

  // ----- With the discipline -----

  /** With the discipline no swap is stale. */
  lemma NeverStale(s: State, l: seq<Node>, objects: set<Node>, a: Action)
    requires Inv(s, l, objects)
    ensures !Stale(s, a)
  {
    if a.AllocSwap? && At(s, a.t).Read? { assert SnapshotOk(s, l, a.t); }
  }

  /** Only the node of a `Free` that begins comes into flight. */
  lemma FlyingAfter(s: State, a: Action, n: Node)
    requires Enabled(s, a) && n in Flying(Apply(s, a))
    ensures n in Flying(s) || (a.FreeLoad? && a.node == n)
  {
    var s' := Apply(s, a);
    var u :| u in s'.places && InFlight(s'.places[u]) == Some(n);
    assert InFlight(At(s, u)) == Some(n) || (a.FreeLoad? && a.node == n);
  }

  /** Links of free nodes stay. */
  lemma LinkKept(s: State, l: seq<Node>, objects: set<Node>, a: Action, n: Node)
    requires Partition(s, l, objects) && Enabled(s, a) && n in l
    ensures Link(Apply(s, a), n) == Link(s, n)
  {
    if a.FreeStore? { assert InFlight(s.places[a.t]).value in Flying(s); }
  }

  /** A node that becomes free was in flight. */
  lemma ListFrom(s: State, l: seq<Node>, a: Action, n: Node)
    requires Enabled(s, a) && n in ListAfter(s, l, a)
    ensures n in l || n in Flying(s)
  {
    if n !in l { assert InFlight(s.places[a.t]) == Some(n); }
  }

  lemma SnapshotKept(s: State, l: seq<Node>, objects: set<Node>, a: Action, u: Thread)
    requires Inv(s, l, objects) && Enabled(s, a) && Obeys(s, a) && u in Apply(s, a).places
    ensures SnapshotOk(Apply(s, a), ListAfter(s, l, a), u)
  {
    var s', l' := Apply(s, a), ListAfter(s, l, a);
    var p := s'.places[u];
    if u in s.places { assert SnapshotOk(s, l, u); }
    if Snapshot(p).Some? {
      var n := Snapshot(p).value;
      assert Snapshot(At(s, u)) == Some(n) || (s.head == Some(n) && n in l && !p.Read?);
      if n in Flying(s') { FlyingAfter(s, a, n); }
      if p.Read? && n in l' {
        ListFrom(s, l, a, n);
        LinkKept(s, l, objects, a, n);
      }
    }
  }

  /** One step: the partition is kept, and a successful swap is one pop or push. */
  lemma StepKeepsInv(s: State, l: seq<Node>, objects: set<Node>, a: Action)
    requires Inv(s, l, objects) && Enabled(s, a) && Obeys(s, a)
    ensures Inv(Apply(s, a), ListAfter(s, l, a), objects)
  {
    NeverStale(s, l, objects, a);
    StepKeepsSound(s, l, objects, a);
    forall u | u in Apply(s, a).places ensures SnapshotOk(Apply(s, a), ListAfter(s, l, a), u) { SnapshotKept(s, l, objects, a, u); }
  }

  // ----- Runs -----

  function Exec(s: State, run: seq<Action>): State
    decreases |run|
  {
    if run == [] then s else Exec(if Enabled(s, run[0]) then Apply(s, run[0]) else s, run[1..])
  }

  ghost predicate EnabledRun(s: State, run: seq<Action>)
    decreases |run|
  {
    run != [] ==> Enabled(s, run[0]) && EnabledRun(Apply(s, run[0]), run[1..])
  }

  ghost predicate ObeysRun(s: State, run: seq<Action>)
    decreases |run|
  {
    run != [] ==> Enabled(s, run[0]) && Obeys(s, run[0]) && ObeysRun(Apply(s, run[0]), run[1..])
  }

  /** No step of the run is a stale swap. */
  ghost predicate FreshRun(s: State, run: seq<Action>)
    requires EnabledRun(s, run)
    decreases |run|
  {
    run != [] ==> !Stale(s, run[0]) && FreshRun(Apply(s, run[0]), run[1..])
  }

  /** The free list that the pushes and pops of the run make. */
  ghost function ListRun(s: State, l: seq<Node>, run: seq<Action>): seq<Node>
    requires EnabledRun(s, run)
    decreases |run|
  {
    if run == [] then l else ListRun(Apply(s, run[0]), ListAfter(s, l, run[0]), run[1..])
  }

  ghost predicate Partitioned(s: State, objects: set<Node>) { exists l :: Partition(s, l, objects) }

  /** The objects are partitioned in every state of the run. */
  ghost predicate PartitionedRun(s: State, run: seq<Action>, objects: set<Node>)
    requires EnabledRun(s, run)
    decreases |run|
  {
    Partitioned(s, objects) && (run != [] ==> PartitionedRun(Apply(s, run[0]), run[1..], objects))
  }

  /** For every interleaving: the objects are partitioned in all its states if and only if no swap
      of it is stale, and then the free list is the one its pushes and pops describe. */
  lemma {:induction false} RunExact(s: State, l: seq<Node>, objects: set<Node>, run: seq<Action>)
    requires Sound(s, l, objects) && EnabledRun(s, run)
    ensures PartitionedRun(s, run, objects) <==> FreshRun(s, run)
    ensures FreshRun(s, run) ==> Sound(Exec(s, run), ListRun(s, l, run), objects)
    decreases |run|
  {
    assert Partitioned(s, objects);
    if run != [] {
      var a := run[0];
      if Stale(s, a) {
        PopExact(s, l, objects, a.t);
        assert !Partitioned(Apply(s, a), objects);
      } else {
        StepKeepsSound(s, l, objects, a);
        RunExact(Apply(s, a), ListAfter(s, l, a), objects, run[1..]);
      }
    }
  }

  /** In every interleaving that frees no node another pending `Allocate` holds, no swap is stale, the
      nodes stay partitioned, and the free list is the one its pushes and pops describe. */
  lemma {:induction false} RunKeepsInv(s: State, l: seq<Node>, objects: set<Node>, run: seq<Action>)
    requires Inv(s, l, objects) && ObeysRun(s, run)
    ensures EnabledRun(s, run) && FreshRun(s, run) && Inv(Exec(s, run), ListRun(s, l, run), objects)
    decreases |run|
  {
    if run != [] {
      NeverStale(s, l, objects, run[0]);
      StepKeepsInv(s, l, objects, run[0]);
      RunKeepsInv(Apply(s, run[0]), ListAfter(s, l, run[0]), objects, run[1..]);
    }
  }

  // ----- Without the discipline -----

  /** Two free nodes and nobody at work. */
  function Two(): State { State(Some(0), map[0 := Some(1), 1 := None], map[], {}) }

  /** Thread 1 reads the head and its link; thread 2 takes both nodes and gives the first one back. */
  function Overtaken(): State { State(Some(0), map[0 := None, 1 := None], map[1 := Read(0, Some(1)), 2 := Idle], {1}) }

  lemma OvertakenReachable()
    ensures Exec(Two(), [AllocLoad(1), AllocRead(1)] + [AllocLoad(2), AllocRead(2), AllocSwap(2, false)]
                        + [AllocLoad(2), AllocRead(2), AllocSwap(2, false)] + [FreeLoad(2, 0), FreeStore(2), FreeSwap(2, false)]) == Overtaken()
  {
    var s0 := Two();
    var s1 := Exec2(s0, AllocLoad(1), AllocRead(1));
    var s2 := Exec3(s1, AllocLoad(2), AllocRead(2), AllocSwap(2, false));
    var s3 := Exec3(s2, AllocLoad(2), AllocRead(2), AllocSwap(2, false));
    var s4 := Exec3(s3, FreeLoad(2, 0), FreeStore(2), FreeSwap(2, false));
    assert s1.places == map[1 := Read(0, Some(1))];
    assert s2 == State(Some(1), map[0 := Some(1), 1 := None], map[1 := Read(0, Some(1)), 2 := Idle], {0});
    assert s3 == State(None, map[0 := Some(1), 1 := None], map[1 := Read(0, Some(1)), 2 := Idle], {0, 1});
    assert s4 == Overtaken();
    ExecConcat(s0, [AllocLoad(1), AllocRead(1)], [AllocLoad(2), AllocRead(2), AllocSwap(2, false)]);
    ExecConcat(s0, [AllocLoad(1), AllocRead(1)] + [AllocLoad(2), AllocRead(2), AllocSwap(2, false)], [AllocLoad(2), AllocRead(2), AllocSwap(2, false)]);
    ExecConcat(s0, [AllocLoad(1), AllocRead(1)] + [AllocLoad(2), AllocRead(2), AllocSwap(2, false)] + [AllocLoad(2), AllocRead(2), AllocSwap(2, false)],
               [FreeLoad(2, 0), FreeStore(2), FreeSwap(2, false)]);
  }

  function Exec2(s: State, a: Action, b: Action): (r: State)
    ensures r == Exec(s, [a, b])
  {
    assert [a, b][1..] == [b] && [b][1..] == [];
    var s1 := if Enabled(s, a) then Apply(s, a) else s;
    var s2 := if Enabled(s1, b) then Apply(s1, b) else s1;
    assert Exec(s2, []) == s2 && Exec(s1, [b]) == s2;
    s2
  }

  function Exec3(s: State, a: Action, b: Action, c: Action): (r: State)
    ensures r == Exec(s, [a, b, c])
  {
    assert [a, b, c][1..] == [b, c];
    Exec2(if Enabled(s, a) then Apply(s, a) else s, b, c)
  }

  lemma {:induction false} ExecConcat(s: State, a: seq<Action>, b: seq<Action>)
    ensures Exec(s, a + b) == Exec(Exec(s, a), b)
    decreases |a|
  {
    if a == [] { assert a + b == b; }
    else {
      assert (a + b)[1..] == a[1..] + b;
      ExecConcat(if Enabled(s, a[0]) then Apply(s, a[0]) else s, a[1..], b);
    }
  }

  /** Then thread 1's swap succeeds and a node that is handed out becomes the head. */
  lemma SwapAfterOvertaking(l: seq<Node>)
    ensures !Partition(Apply(Overtaken(), AllocSwap(1, false)), l, {0, 1})
  {
    assert l != [] ==> l[0] in l;
  }

  /** A successful swap of `Allocate` keeps the partition exactly if the link it installs is the
      current link of the node it takes. */
  lemma PopExact(s: State, l: seq<Node>, objects: set<Node>, t: Thread)
    requires Partition(s, l, objects) && At(s, t).Read? && s.head == Some(At(s, t).ret)
    ensures (exists l' :: Partition(Apply(s, AllocSwap(t, false)), l', objects)) <==> At(s, t).next == Link(s, At(s, t).ret)
  {
    var s', r := Apply(s, AllocSwap(t, false)), At(s, t).ret;
    FlyingSame(s, s', t, Idle);
    assert l == [r] + l[1..];
    if At(s, t).next == Link(s, r) {
      ChainFrame(s, s', Link(s, r), l[1..]);
      assert Partition(s', l[1..], objects);
    }
    if l' :| Partition(s', l', objects) {
      forall n ensures n in l' <==> n in l[1..] {
        assert n in objects <==> n in l || n in s.out || n in Flying(s);
        assert n in objects <==> n in l' || n in s'.out || n in Flying(s');
      }
      SameNodes(s, s', l[1..], l', Link(s, r));
    }
  }

  /** Two chains with the same nodes and links start at the same node. */
  lemma SameNodes(s: State, s': State, l: seq<Node>, l': seq<Node>, first: Option<Node>)
    requires Chain(s, first, l) && NoDup(l) && Chain(s', s'.head, l') && NoDup(l')
    requires (forall n :: n in l' <==> n in l) && (forall n :: Link(s', n) == Link(s, n))
    ensures s'.head == first
  {
    SameEmpty(l, l');
    if l != [] {
      assert l[0] in l && l[0] in l';
      if l'[0] != l[0] {
        var n := LinkTo(s', s'.head, l', l[0]);
        NoLinkTo(s, first, l, n);
      }
    }
  }

  lemma SameEmpty(l: seq<Node>, l': seq<Node>)
    requires forall n :: n in l' <==> n in l
    ensures l == [] <==> l' == []
  {
    if l != [] { assert l[0] in l'; }
    if l' != [] { assert l'[0] in l; }
  }

  lemma {:induction false} LinkTo(s: State, first: Option<Node>, l: seq<Node>, x: Node) returns (n: Node)
    requires Chain(s, first, l) && x in l && l[0] != x
    ensures n in l && Link(s, n) == Some(x)
    decreases l
  {
    assert l == [l[0]] + l[1..];
    if l[1] == x { n := l[0]; } else { n := LinkTo(s, Link(s, l[0]), l[1..], x); }
  }

  lemma {:induction false} NoLinkTo(s: State, first: Option<Node>, l: seq<Node>, n: Node)
    requires Chain(s, first, l) && NoDup(l) && n in l
    ensures Link(s, n) != Some(l[0])
  {
    NoLinkFrom(s, first, l, n, l[0]);
  }

  /** Links lead to later elements only. */
  lemma {:induction false} NoLinkFrom(s: State, first: Option<Node>, l: seq<Node>, n: Node, x: Node)
    requires Chain(s, first, l) && NoDup(l) && n in l && x !in l[1..]
    ensures Link(s, n) != Some(x)
    decreases l
  {
    assert l == [l[0]] + l[1..];
    if n == l[0] {
      assert |l| > 1 ==> l[1] == l[1..][0] && l[1] in l[1..];
    } else {
      assert l[1..] == [l[1]] + l[1..][1..];
      NoLinkFrom(s, Link(s, l[0]), l[1..], n, x);
    }
  }

  // ----- SlabHeap -----

  /** The objects of a heap, in address order. */
  function Objects(start: nat, size: nat, k: nat, n: nat): (l: seq<Node>)
    requires k <= n
    ensures |l| == n - k
    decreases n - k
  {
    if k == n then [] else [start + k * size] + Objects(start, size, k + 1, n)
  }

  lemma {:induction false} ObjectsIn(start: nat, size: nat, k: nat, n: nat, x: Node)
    requires k <= n && x in Objects(start, size, k, n) && size > 0
    ensures start + k * size <= x < start + n * size
    decreases n - k
  {
    if x != start + k * size {
      ObjectsIn(start, size, k + 1, n, x);
    } else { assert k * size + size <= n * size by { assert (n - k) * size >= size; } }
  }

  /** `SlabHeap::Initialize`: thread the objects from the last to the first. */
  method Initialize(start: nat, memory: nat, size: nat) returns (s: State)
    requires size > 0
    ensures var n := memory / size; Inv(s, Objects(start, size, 0, n), set x | x in Objects(start, size, 0, n))
    ensures s.places == map[] && s.out == {}
  {
    var n := memory / size;
    var cur: nat, k: nat := start + n * size, n;
    var head: Option<Node>, next: map<Node, Option<Node>> := None, map[];
    while k > 0
      invariant 0 <= k <= n && cur == start + k * size && Threaded(head, next, Objects(start, size, k, n))
    {
      OneLess(k, size);
      cur := cur - size;
      k := k - 1;
      ghost var l := Objects(start, size, k + 1, n);
      forall x | x in l ensures x != cur { ObjectsIn(start, size, k + 1, n, x); }
      ThreadOne(head, next, l, cur);
      next := next[cur := head];
      head := Some(cur);
    }
    s := State(head, next, map[], {});
    ChainFrame(State(head, next, map[], {}), s, head, Objects(start, size, 0, n));
    assert Flying(s) == {};
  }

  lemma OneLess(k: nat, size: nat)
    requires k > 0
    ensures k * size == (k - 1) * size + size
  {
  }

  ghost predicate Threaded(head: Option<Node>, next: map<Node, Option<Node>>, l: seq<Node>) {
    Chain(State(head, next, map[], {}), head, l) && NoDup(l)
  }

  lemma ThreadOne(head: Option<Node>, next: map<Node, Option<Node>>, l: seq<Node>, n: Node)
    requires Threaded(head, next, l) && n !in l
    ensures Threaded(Some(n), next[n := head], [n] + l)
  {
    ChainFrame(State(head, next, map[], {}), State(Some(n), next[n := head], map[], {}), head, l);
    assert ([n] + l)[1..] == l;
  }
}
