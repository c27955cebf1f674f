/** The boot memory layout loops: the linear mapping, which merges runs of adjacent regions, and the
    auto-mapping of regions from the largest to the smallest. */
module BootLayout {

  /** A region of the physical memory tree, with the attributes the loops look at. */
  datatype Region = Region(lo: nat, size: nat, linear: bool, kernel: bool, shouldMap: bool, didMap: bool)

  /** The regions in address order, as the tree iterates over them. */
  predicate Ordered(rs: seq<Region>, from: nat) {
    rs == [] || (from <= rs[0].lo && 0 < rs[0].size && Ordered(rs[1..], rs[0].lo + rs[0].size))
  }

  // ----- The linear mapping -----

  /** A call of the page table's `Map`. */
  datatype Mapping = Mapping(virt: int, phys: nat, size: nat)

  predicate Covers(m: Mapping, x: nat) { m.phys <= x < m.phys + m.size }

  ghost predicate Covered(ms: seq<Mapping>, x: nat) { exists i :: 0 <= i < |ms| && Covers(ms[i], x) }

  /** Every linear region mapped on its own. */
  function Alone(rs: seq<Region>, diff: int): seq<Mapping> {
    if rs == [] then [] else
    var r := rs[|rs| - 1];
    Alone(rs[..|rs| - 1], diff) + if r.linear then [Mapping(r.lo + diff, r.lo, r.size)] else []
  }

  /** Mappings at the fixed distance, in order, with a gap between any two. */
  ghost predicate Separated(ms: seq<Mapping>, diff: int) {
    && (forall i :: 0 <= i < |ms| ==> ms[i].virt == ms[i].phys + diff && 0 < ms[i].size)
    && (forall i, j :: 0 <= i < j < |ms| ==> ms[i].phys + ms[i].size < ms[j].phys)
  }

  /** In separated mappings no byte is mapped twice. */
  lemma MappedOnce(ms: seq<Mapping>, diff: int, x: nat, i: nat, j: nat)
    requires Separated(ms, diff) && i < |ms| && j < |ms| && Covers(ms[i], x) && Covers(ms[j], x)
    ensures i == j
  {
  }

  /** The run being collected, as a mapping. */
  function Run(phys: nat, size: nat, diff: int): seq<Mapping> { if size == 0 then [] else [Mapping(phys + diff, phys, size)] }

  /** Exactly the bytes of the linear regions are mapped, in separated runs. */
  ghost predicate Maps(ms: seq<Mapping>, rs: seq<Region>, diff: int) {
    Separated(ms, diff) && forall x: nat {:trigger Covered(Alone(rs, diff), x)} :: Covered(ms, x) <==> Covered(Alone(rs, diff), x)
  }

  /** What has been mapped, with the current run, is what the regions so far ask for. */
  ghost predicate Collected(ms: seq<Mapping>, phys: nat, size: nat, rs: seq<Region>, diff: int) {
    Maps(ms + Run(phys, size, diff), rs, diff) && (ms != [] ==> size > 0)
  }

  lemma CoveredAppend(ms: seq<Mapping>, m: Mapping, x: nat)
    ensures Covered(ms + [m], x) <==> Covered(ms, x) || Covers(m, x)
  {
    if Covered(ms, x) { var i :| 0 <= i < |ms| && Covers(ms[i], x); assert Covers((ms + [m])[i], x); }
    if Covers(m, x) { assert (ms + [m])[|ms|] == m; }
  }

  lemma SplitAt(rs: seq<Region>, i: nat)
    requires i < |rs|
    ensures rs[i..][1..] == rs[i + 1..] && rs[..i + 1] == rs[..i] + [rs[i]]
  {
  }

  lemma NothingMapped(diff: int)
    ensures Collected([], 0, 0, [], diff)
  {
    assert [] + Run(0, 0, diff) == [];
  }

  /** One more linear region asks for its own bytes. */
  lemma AloneNext(rs: seq<Region>, r: Region, diff: int, x: nat)
    requires r.linear
    ensures Covered(Alone(rs + [r], diff), x) <==> Covered(Alone(rs, diff), x) || r.lo <= x < r.lo + r.size
  {
    assert (rs + [r])[..|rs|] == rs;
    CoveredAppend(Alone(rs, diff), Mapping(r.lo + diff, r.lo, r.size), x);
  }

  /** A new run starts behind the mappings. */
  lemma StartRun(ms: seq<Mapping>, rs: seq<Region>, r: Region, diff: int)
    requires Maps(ms, rs, diff)
    requires r.linear && r.size > 0 && (ms != [] ==> ms[|ms| - 1].phys + ms[|ms| - 1].size < r.lo)
    ensures Collected(ms, r.lo, r.size, rs + [r], diff)
  {
    var m := Mapping(r.lo + diff, r.lo, r.size);
    forall x: nat ensures Covered(ms + [m], x) <==> Covered(Alone(rs + [r], diff), x) {
      CoveredAppend(ms, m, x);
      AloneNext(rs, r, diff, x);
      assert Covered(ms, x) <==> Covered(Alone(rs, diff), x);
    }
  }

  /** An adjacent region extends the run. */
  lemma ExtendRun(ms: seq<Mapping>, phys: nat, size: nat, rs: seq<Region>, r: Region, diff: int)
    requires Collected(ms, phys, size, rs, diff) && size > 0 && r.linear && phys + size == r.lo
    ensures Collected(ms, phys, size + r.size, rs + [r], diff)
  {
    var m, m' := Mapping(phys + diff, phys, size), Mapping(phys + diff, phys, size + r.size);
    forall x: nat ensures Covered(ms + [m'], x) <==> Covered(Alone(rs + [r], diff), x) {
      CoveredAppend(ms, m, x);
      CoveredAppend(ms, m', x);
      AloneNext(rs, r, diff, x);
      assert Covered(ms + [m], x) <==> Covered(Alone(rs, diff), x);
    }
    assert forall i :: 0 <= i < |ms| ==> (ms + [m])[i] == ms[i] && (ms + [m'])[i] == ms[i];
    assert (ms + [m])[|ms|] == m;
  }

  /** A region that is not linear asks for nothing. */
  lemma SkipRegion(ms: seq<Mapping>, phys: nat, size: nat, rs: seq<Region>, r: Region, diff: int)
    requires Collected(ms, phys, size, rs, diff) && !r.linear
    ensures Collected(ms, phys, size, rs + [r], diff)
  {
    assert (rs + [r])[..|rs|] == rs;
    assert Alone(rs + [r], diff) == Alone(rs, diff);
  }

  /** One turn of the merging loop: extend the run, or map it and start another. */
  method TakeRegion(ms: seq<Mapping>, phys: nat, size: nat, r: Region, diff: int, ghost rs: seq<Region>)
    returns (ms': seq<Mapping>, phys': nat, size': nat)
    requires Collected(ms, phys, size, rs, diff) && r.size > 0 && (size > 0 ==> phys + size <= r.lo)
    ensures Collected(ms', phys', size', rs + [r], diff)
    ensures size' > 0 ==> phys' + size' <= r.lo + r.size
  {
    ms', phys', size' := ms, phys, size;
    if !r.linear {
      SkipRegion(ms, phys, size, rs, r, diff);
    } else if size == 0 {
      assert ms + Run(phys, size, diff) == ms;
      StartRun(ms, rs, r, diff);
      phys', size' := r.lo, r.size;
    } else if phys + size == r.lo {
      ExtendRun(ms, phys, size, rs, r, diff);
      size' := size + r.size;
    } else {
      ms' := ms + [Mapping(phys + diff, phys, size)];
      StartRun(ms', rs, r, diff);
      phys', size' := r.lo, r.size;
    }
  }

  /** The merging loop and its final flush: it maps exactly the bytes of the linear regions, each
      once and at the fixed distance, in runs that are as long as possible. */
  method MapLinear(rs: seq<Region>, diff: int) returns (ms: seq<Mapping>)
    requires Ordered(rs, 0)
    ensures Maps(ms, rs, diff)
  {
    ms := [];
    var phys: nat, size: nat := 0, 0;
    var i := 0;
    ghost var bound: nat, seen: seq<Region> := 0, [];
    assert rs[0..] == rs;
    NothingMapped(diff);
    while i < |rs|
      invariant 0 <= i <= |rs| && seen == rs[..i] && Collected(ms, phys, size, seen, diff)
      invariant Ordered(rs[i..], bound) && (size > 0 ==> phys + size <= bound)
    {
      SplitAt(rs, i);
      ms, phys, size := TakeRegion(ms, phys, size, rs[i], diff, seen);
      bound, seen := rs[i].lo + rs[i].size, seen + [rs[i]];
      i := i + 1;
    }
    assert seen == rs;
    if size != 0 { ms := ms + [Mapping(phys + diff, phys, size)]; }
    else { assert ms + Run(phys, size, diff) == ms; }
  }

  // ----- Auto-mapping, largest first -----

  predicate Eligible(r: Region) { r.kernel && r.shouldMap && !r.didMap }

  function Marked(r: Region): Region { r.(didMap := true) }

  /** The region at index `i` is mapped before the one at `j`: it is larger, or as large and lower. */
  predicate Before(rs: seq<Region>, i: int, j: int) {
    0 <= i < |rs| && 0 <= j < |rs| && (rs[i].size > rs[j].size || (rs[i].size == rs[j].size && i < j))
  }

  /** The regions still to map. */
  ghost function Waiting(rs: seq<Region>): set<nat> { set i: nat | i < |rs| && Eligible(rs[i]) }

  /** `k` is the next region to map, or the number of regions if none is left. */
  ghost predicate Largest(rs: seq<Region>, k: nat) {
    && k <= |rs| && (k < |rs| ==> Eligible(rs[k]))
    && forall i :: 0 <= i < |rs| && Eligible(rs[i]) ==> k < |rs| && (i == k || Before(rs, k, i))
  }

  method FindLargest(a: array<Region>) returns (k: nat)
    ensures Largest(a[..], k)
  {
    k := a.Length;
    var i := 0;
    while i < a.Length
      invariant 0 <= i <= a.Length && (k == a.Length || (k < i && Eligible(a[k])))
      invariant forall j :: 0 <= j < i && Eligible(a[j]) ==> k < a.Length && (j == k || Before(a[..], k, j))
    {
      if Eligible(a[i]) && (k == a.Length || a[k].size < a[i].size) { k := i; }
      i := i + 1;
    }
  }

  /** Only eligible regions, from the largest to the smallest, equals from the lowest up. */
  ghost predicate LargestFirst(was: seq<Region>, order: seq<nat>) {
    && (forall n :: 0 <= n < |order| ==> order[n] < |was| && Eligible(was[order[n]]))
    && (forall n, m :: 0 <= n < m < |order| ==> Before(was, order[n], order[m]))
  }

  /** Some regions of `was` have been marked: those in `order`, and they came before the rest. */
  ghost predicate Progress(was: seq<Region>, now: seq<Region>, order: seq<nat>) {
    && |now| == |was| && LargestFirst(was, order)
    && (forall i: nat {:trigger now[i]} :: i < |was| ==> now[i] == if i in order then Marked(was[i]) else was[i])
    && (forall n, i :: 0 <= n < |order| && 0 <= i < |was| && Eligible(now[i]) ==> Before(was, order[n], i))
  }

  lemma MarkNext(was: seq<Region>, now: seq<Region>, order: seq<nat>, k: nat)
    requires Progress(was, now, order) && Largest(now, k) && k < |was|
    ensures Progress(was, now[k := Marked(now[k])], order + [k])
  {
    var now', order' := now[k := Marked(now[k])], order + [k];
    assert k !in order && now[k] == was[k];
    forall i: nat | i < |was| ensures i in order' <==> i in order || i == k {}
    forall i | 0 <= i < |was| && Eligible(now'[i]) ensures Before(was, k, i) {
      assert Eligible(now[i]) && i != k && Before(now, k, i);
      assert now[i] == was[i];
    }
    forall n, i | 0 <= n < |order'| && 0 <= i < |was| && Eligible(now'[i]) ensures Before(was, order'[n], i) {
      if n < |order| { assert Eligible(now[i]); }
    }
    assert forall n :: 0 <= n < |order| ==> order'[n] == order[n] && Before(was, order[n], k);
  }

  /** The do-while loop: it ends, having mapped every eligible region once, the largest first. */
  method AutoMap(a: array<Region>) returns (order: seq<nat>)
    modifies a
    ensures LargestFirst(old(a[..]), order)
    ensures forall i: nat :: i < a.Length ==> (i in order <==> Eligible(old(a[i])))
    ensures forall i: nat :: i < a.Length ==> a[i] == if Eligible(old(a[i])) then Marked(old(a[i])) else old(a[i])
  {
    ghost var was := a[..];
    order := [];
    var k: nat := FindLargest(a);
    while k < a.Length
      invariant Progress(was, a[..], order) && Largest(a[..], k)
      decreases Waiting(a[..])
    {
      MarkNext(was, a[..], order, k);
      ghost var before := a[..];
      order := order + [k];
      a[k] := Marked(a[k]);
      assert a[..] == before[k := Marked(before[k])];
      assert k in Waiting(before) && k !in Waiting(a[..]);
      k := FindLargest(a);
    }
    forall i: nat | i < a.Length ensures i in order <==> Eligible(was[i]) {
      assert a[..][i] == a[i] && !Eligible(a[..][i]);
    }
  }
}
