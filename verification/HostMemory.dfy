/** The placeholder tracker of the Windows `HostMemory::Impl`.

    The tracked intervals and their backing offsets describe the operating system's partition of the
    reserved range.  The operating system is a ghost field that only the calls below change; each
    call demands what the system call demands. */
module HostMemory {
  import opened Basics
  import opened AddressLayout

  datatype Interval = Interval(lo: nat, hi: nat)

  /** The tracked views. */
  function ViewsOf(ps: seq<Interval>, hosts: map<nat, nat>): (vs: seq<Cell>)
    ensures |vs| == |ps| && forall i :: 0 <= i < |vs| ==> vs[i] == ViewOf(ps[i], hosts)
  {
    seq(|ps|, i requires 0 <= i < |ps| => ViewOf(ps[i], hosts))
  }

  function ViewOf(p: Interval, hosts: map<nat, nat>): Cell {
    Cell(p.lo, p.hi, if p.lo in hosts then Some(hosts[p.lo]) else None)
  }

  /** Only starts of intervals have backing offsets. */
  ghost predicate Keyed(ps: seq<Interval>, hosts: map<nat, nat>) {
    forall x :: x in hosts ==> StartsOne(ps, x)
  }

  ghost predicate StartsOne(ps: seq<Interval>, x: nat) { exists i :: 0 <= i < |ps| && ps[i].lo == x }

  class Impl {
    const size: nat
    var placeholders: seq<Interval>
    var hosts: map<nat, nat>
    ghost var cells: seq<Cell>

    constructor (size: nat)
      requires size > 0
      ensures Valid() && this.size == size && Views() == []
    {
      this.size, this.placeholders, this.hosts := size, [], map[];
      this.cells := [Cell(0, size, None)];
    }

    ghost function Views(): seq<Cell>
      reads this
    {
      ViewsOf(placeholders, hosts)
    }

    /** The partition consists of the tracked views and exactly the maximal gaps between them. */
    ghost predicate Valid()
      reads this
    {
      && Ordered(Views(), 0, size) && cells == Layout(Views(), 0, size)
      && Keyed(placeholders, hosts)
    }

    // ----- System calls -----

    /** `VirtualFreeEx` with `MEM_PRESERVE_PLACEHOLDER`: cut a piece out of one larger placeholder. */
    method Split(off: nat, len: nat, ghost a: seq<Cell>, ghost g: seq<Cell>, ghost c: Cell, ghost b: seq<Cell>)
      requires cells == a + (g + ([c] + b)) && c.view.None?
      requires c.lo <= off && off + len <= c.hi && 0 < len < c.hi - c.lo
      modifies this`cells
      ensures cells == a + (g + (Gap(c.lo, off) + ([Cell(off, off + len, None)] + (Gap(off + len, c.hi) + b))))
    {
      cells := a + (g + (Gap(c.lo, off) + ([Cell(off, off + len, None)] + (Gap(off + len, c.hi) + b))));
    }

    /** `MapViewOfFile3` with `MEM_REPLACE_PLACEHOLDER`: replace exactly one placeholder. */
    method MapView(off: nat, host: nat, len: nat, ghost a: seq<Cell>, ghost b: seq<Cell>)
      requires cells == a + ([Cell(off, off + len, None)] + b)
      modifies this`cells
      ensures cells == a + ([Cell(off, off + len, Some(host))] + b)
    {
      cells := a + ([Cell(off, off + len, Some(host))] + b);
    }

    /** `UnmapViewOfFile2` with `MEM_PRESERVE_PLACEHOLDER`: a view becomes a placeholder. */
    method UnmapView(lo: nat, ghost a: seq<Cell>, ghost g: seq<Cell>, ghost c: Cell, ghost b: seq<Cell>)
      requires cells == a + (g + ([c] + b)) && c.lo == lo && c.view.Some?
      modifies this`cells
      ensures cells == a + (g + ([Cell(c.lo, c.hi, None)] + b))
    {
      cells := a + (g + ([Cell(c.lo, c.hi, None)] + b));
    }

    /** `VirtualFreeEx` with `MEM_COALESCE_PLACEHOLDERS`: join two adjacent placeholders. */
    method Coalesce(off: nat, len: nat, ghost mid: nat, ghost a: seq<Cell>, ghost b: seq<Cell>)
      requires off < mid < off + len && cells == a + ([Cell(off, mid, None)] + ([Cell(mid, off + len, None)] + b))
      modifies this`cells
      ensures cells == a + ([Cell(off, off + len, None)] + b)
    {
      cells := a + ([Cell(off, off + len, None)] + b);
    }

    // ----- Queries -----

    /** The first interval that starts at or behind `hi`. */
    method UpperBound(hi: nat) returns (i: nat)
      ensures i <= |placeholders| && (i < |placeholders| ==> placeholders[i].lo >= hi)
      ensures forall j :: 0 <= j < i ==> placeholders[j].lo < hi
    {
      i := 0;
      while i < |placeholders| && placeholders[i].lo < hi
        invariant i <= |placeholders| && forall j :: 0 <= j < i ==> placeholders[j].lo < hi
      {
        i := i + 1;
      }
    }

    /** The first interval that overlaps `[lo, hi)`, if any. */
    method Find(lo: nat, hi: nat) returns (i: nat)
      ensures i <= |placeholders| && (i < |placeholders| ==> placeholders[i].lo < hi && lo < placeholders[i].hi)
      ensures forall j :: 0 <= j < i ==> !(placeholders[j].lo < hi && lo < placeholders[j].hi)
    {
      i := 0;
      while i < |placeholders| && !(placeholders[i].lo < hi && lo < placeholders[i].hi)
        invariant i <= |placeholders|
        invariant forall j :: 0 <= j < i ==> !(placeholders[j].lo < hi && lo < placeholders[j].hi)
      {
        i := i + 1;
      }
    }

    /** No tracked interval overlaps `[lo, hi)`. */
    ghost predicate Unmapped(lo: nat, hi: nat)
      reads this
    {
      forall j :: 0 <= j < |placeholders| ==> placeholders[j].hi <= lo || hi <= placeholders[j].lo
    }

    /** Whether the range is exactly the gap in front of an interval. */
    method IsNieche(off: nat, len: nat) returns (r: bool, ghost i: nat)
      requires Valid() && Unmapped(off, off + len) && 0 < len
      ensures i <= |Views()| && (forall j :: 0 <= j < i ==> placeholders[j].lo < off + len)
      ensures i < |placeholders| ==> placeholders[i].lo >= off + len
      ensures off + len < size ==> (r <==> EndOf(Views()[..i], 0) == off && StartOf(Views()[i..], size) == off + len)
    {
      var k := UpperBound(off + len);
      i := k;
      if k < |placeholders| && placeholders[k].lo == off + len {
        r := if k == 0 then off == 0 else placeholders[k - 1].hi == off;
      } else {
        r := false;
      }
    }

    // ----- Tracking -----

    /** Insert an interval, which ends at `end`, at its place in the order. */
    method TrackPlaceholder(off: nat, host: nat, len: nat, ghost end: nat) returns (ghost k: nat)
      requires 0 < len && end == off + len && Unmapped(off, end) && off !in hosts
      requires forall j :: 0 <= j < |placeholders| ==> placeholders[j].lo < placeholders[j].hi && placeholders[j].lo in hosts
      modifies this`placeholders, this`hosts
      ensures k <= |old(placeholders)| && placeholders == old(placeholders)[..k] + ([Interval(off, end)] + old(placeholders)[k..])
      ensures hosts == old(hosts)[off := host]
      ensures Views() == old(Views())[..k] + ([Cell(off, end, Some(host))] + old(Views())[k..])
      ensures forall j :: 0 <= j < k ==> old(placeholders)[j].lo < end
      ensures k < |old(placeholders)| ==> old(placeholders)[k].lo >= end
    {
      var i := UpperBound(off + len);
      k := i;
      ViewsInsert(placeholders, hosts, i, off, end, host);
      placeholders := placeholders[..i] + ([Interval(off, off + len)] + placeholders[i..]);
      hosts := hosts[off := host];
    }

    method UntrackPlaceholder(i: nat)
      requires i < |placeholders|
      requires forall j :: 0 <= j < |placeholders| && j != i ==> placeholders[j].lo != placeholders[i].lo
      modifies this`placeholders, this`hosts
      ensures placeholders == old(placeholders)[..i] + old(placeholders)[i + 1..] && hosts == old(hosts) - {old(placeholders)[i].lo}
      ensures Views() == old(Views())[..i] + old(Views())[i + 1..]
    {
      hosts := hosts - {placeholders[i].lo};
      placeholders := placeholders[..i] + placeholders[i + 1..];
    }

    // ----- Map -----

    /** Map a range that nothing is mapped in; it must end in front of the end of the reservation. */
    method Map(off: nat, host: nat, len: nat)
      requires Valid() && 0 < len && off + len < size && Unmapped(off, off + len)
      modifies this
      ensures Valid()
      ensures Adds(old(Views()), Views(), Cell(off, off + len, Some(host)))
    {
      var nieche;
      ghost var i;
      nieche, i := IsNieche(off, len);
      ghost var l, r := Views()[..i], Views()[i..];
      assert Views() == l + r;
      GapAround(l, r, off, off + len, size);
      AddView(Cell(off, off + len, Some(host)), nieche, l, r);
      InsertedAdds(l, Cell(off, off + len, Some(host)), r, 0, size);
    }

    /** Map and track a view in the gap between `l` and `r`. */
    method AddView(v: Cell, nieche: bool, ghost l: seq<Cell>, ghost r: seq<Cell>)
      requires Valid() && Views() == l + r && v.view.Some? && v.lo < v.hi
      requires EndOf(l, 0) <= v.lo && v.hi <= StartOf(r, size) && Ordered(l, 0, v.lo) && Ordered(r, v.hi, size)
      requires nieche <==> EndOf(l, 0) == v.lo && StartOf(r, size) == v.hi
      modifies this
      ensures Valid() && Views() == l + ([v] + r)
    {
      PlaceView(v, nieche, l, r);
      OrderedInsert(l, v, r, 0, size);
      TrackPiece(v.lo, v.view.value, v.hi, l, r);
    }

    /** The system calls of `Map`: unless the range is a whole gap, cut it out of its gap. */
    method PlaceIn(v: Cell, nieche: bool, ghost e: nat, ghost s: nat, ghost a: seq<Cell>, ghost t: seq<Cell>)
      requires cells == a + (Gap(e, s) + t) && v.view.Some? && e <= v.lo < v.hi <= s
      requires nieche <==> e == v.lo && s == v.hi
      modifies this`cells
      ensures cells == a + (Gap(e, v.lo) + ([v] + (Gap(v.hi, s) + t)))
    {
      var len := v.hi - v.lo;
      ghost var x, y := Gap(e, v.lo), Gap(v.hi, s) + t;
      ghost var c := [Cell(v.lo, v.hi, None)];
      if nieche {
        assert y == t && x + (c + t) == c + t;
      } else {
        assert [] + ([Cell(e, s, None)] + t) == Gap(e, s) + t;
        Split(v.lo, len, a, [], Cell(e, s, None), t);
        assert [] + (x + (c + y)) == x + (c + y);
      }
      Assoc(a, x, c + y);
      MapView(v.lo, v.view.value, len, a + x, y);
      Assoc(a, x, [v] + y);
    }

    method PlaceView(v: Cell, nieche: bool, ghost l: seq<Cell>, ghost r: seq<Cell>)
      requires cells == Layout(l + r, 0, size) && v.view.Some? && EndOf(l, 0) <= v.lo < v.hi <= StartOf(r, size)
      requires nieche <==> EndOf(l, 0) == v.lo && StartOf(r, size) == v.hi
      modifies this`cells
      ensures cells == Layout(l + ([v] + r), 0, size)
    {
      LayoutGap(l, r, 0, size);
      LayoutView(l, v, r, 0, size);
      PlaceIn(v, nieche, EndOf(l, 0), StartOf(r, size), Solid(l, 0), Tail(r, size));
    }

    // ----- Unmap -----

    /** Turn the view into a placeholder, cut `[lo, hi)` out of it and map the rest again. */
    method Carve(v: Cell, lo: nat, hi: nat, ghost a: seq<Cell>, ghost g: seq<Cell>, ghost b: seq<Cell>)
      requires cells == a + (g + ([v] + b)) && v.view.Some? && v.lo <= lo < hi <= v.hi
      modifies this`cells
      ensures cells == a + (g + (LeftOf(v, lo) + ([Cell(lo, hi, None)] + (RightOf(v, hi) + b))))
    {
      UnmapView(v.lo, a, g, v, b);
      ghost var m := [Cell(lo, hi, None)];
      if v.lo < lo || hi < v.hi { Split(lo, hi - lo, a, g, Cell(v.lo, v.hi, None), b); }
      assert cells == a + (g + (Gap(v.lo, lo) + (m + (Gap(hi, v.hi) + b))));
      if v.lo < lo {
        Assoc(a, g, Gap(v.lo, lo) + (m + (Gap(hi, v.hi) + b)));
        MapView(v.lo, v.view.value, lo - v.lo, a + g, m + (Gap(hi, v.hi) + b));
        Assoc(a, g, LeftOf(v, lo) + (m + (Gap(hi, v.hi) + b)));
      }
      if hi < v.hi {
        ghost var c := g + (LeftOf(v, lo) + m);
        Nest(a, g, LeftOf(v, lo), m, Gap(hi, v.hi) + b);
        MapView(hi, v.view.value + (hi - v.lo), v.hi - hi, a + c, b);
        Nest(a, g, LeftOf(v, lo), m, RightOf(v, hi) + b);
      }
    }

    /** Join the new placeholder with the gap in front of it, unless a piece is left there. */
    method JoinLeft(v: Cell, lo: nat, hi: nat, prevEnd: nat, ghost a: seq<Cell>, ghost b: seq<Cell>) returns (begin: nat)
      requires v.view.Some? && v.lo <= lo < hi <= v.hi && prevEnd <= v.lo
      requires cells == a + (Gap(prevEnd, v.lo) + (LeftOf(v, lo) + ([Cell(lo, hi, None)] + b)))
      modifies this`cells
      ensures begin == if v.lo < lo then lo else prevEnd
      ensures cells == a + ((if v.lo < lo then Gap(prevEnd, v.lo) else []) + (LeftOf(v, lo) + ([Cell(begin, hi, None)] + b)))
    {
      begin := lo;
      if v.lo == lo {
        begin := prevEnd;
        assert [] + ([Cell(lo, hi, None)] + b) == [Cell(lo, hi, None)] + b;
        if begin != v.lo { Coalesce(begin, hi - begin, lo, a, b); }
        assert [] + ([] + ([Cell(begin, hi, None)] + b)) == [Cell(begin, hi, None)] + b;
      }
    }

    /** Join the placeholder that starts at `begin` with the gap behind it, unless a piece is left there. */
    method JoinRight(v: Cell, begin: nat, hi: nat, nextBegin: nat,
                     ghost a: seq<Cell>, ghost g: seq<Cell>, ghost x: seq<Cell>, ghost t: seq<Cell>)
      requires v.view.Some? && v.lo <= hi <= v.hi <= nextBegin && begin < hi
      requires cells == a + (g + (x + ([Cell(begin, hi, None)] + (RightOf(v, hi) + (Gap(v.hi, nextBegin) + t)))))
      modifies this`cells
      ensures cells == a + (g + (x + ([Cell(begin, if hi < v.hi then hi else nextBegin, None)]
                                     + (RightOf(v, hi) + ((if hi < v.hi then Gap(v.hi, nextBegin) else []) + t)))))
    {
      if hi == v.hi {
        assert [] + (Gap(v.hi, nextBegin) + t) == Gap(v.hi, nextBegin) + t && [] + ([] + t) == t;
        if v.hi != nextBegin {
          Nest(a, g, x, [], [Cell(begin, hi, None)] + (Gap(v.hi, nextBegin) + t));
          Coalesce(begin, nextBegin - begin, hi, a + (g + (x + [])), t);
          Nest(a, g, x, [], [Cell(begin, nextBegin, None)] + t);
        }
      }
    }

    /** The system calls of a partial unmap, between the neighbours' ends. */
    method FreeRange(v: Cell, lo: nat, hi: nat, prevEnd: nat, nextBegin: nat, ghost l: seq<Cell>, ghost r: seq<Cell>)
      requires cells == Layout(l + ([v] + r), 0, size) && Ordered(l, 0, v.lo) && Ordered(r, v.hi, size)
      requires v.view.Some? && v.lo <= lo < hi <= v.hi && prevEnd == EndOf(l, 0) && nextBegin == StartOf(r, size)
      modifies this`cells
      ensures cells == Layout((l + LeftOf(v, lo)) + (RightOf(v, hi) + r), 0, size)
    {
      ghost var a, t := Solid(l, 0), Tail(r, size);
      OrderedEnd(l, 0, v.lo);
      OrderedEnd(r, v.hi, size);
      LayoutView(l, v, r, 0, size);
      Carve(v, lo, hi, a, Gap(prevEnd, v.lo), Gap(v.hi, nextBegin) + t);
      var begin := JoinLeft(v, lo, hi, prevEnd, a, RightOf(v, hi) + (Gap(v.hi, nextBegin) + t));
      JoinRight(v, begin, hi, nextBegin, a, if v.lo < lo then Gap(prevEnd, v.lo) else [], LeftOf(v, lo), t);
      LayoutCut(l, v, r, lo, hi, 0, size);
    }

    /** Unmap `[lo, hi)`, a part of interval `i`. */
    method UnmapPart(i: nat, lo: nat, hi: nat)
      requires Valid() && i < |placeholders| && placeholders[i].lo <= lo < hi <= placeholders[i].hi
      modifies this
      ensures Valid() && Hides(old(Views()), Views(), lo, hi) && Shows(old(Views()), lo).Some?
    {
      var p := placeholders[i];
      ghost var vs := Views();
      ghost var l, r := vs[..i], vs[i + 1..];
      OrderedBounds(vs, 0, size, i);
      var v := Cell(p.lo, p.hi, Some(hosts[p.lo]));
      assert vs == l + ([v] + r);
      Around(l, v, r, size);
      FreeRange(v, lo, hi, if i == 0 then 0 else placeholders[i - 1].hi,
                if i + 1 == |placeholders| then size else placeholders[i + 1].lo, l, r);
      OrderedCut(l, v, r, lo, hi, 0, size);
      CutHides(l, v, r, lo, hi, 0, size);
      ShownAt(l, v, r, size, lo);
      Retrack(i, lo, hi, l, v, r);
    }

    /** Unmap what the range covers of one tracked interval, if it covers any. */
    method UnmapOne(off: nat, len: nat) returns (found: bool, ghost lo: nat, ghost hi: nat)
      requires Valid() && 0 < len
      modifies this
      ensures Valid()
      ensures !found ==> Unmapped(off, off + len) && Views() == old(Views())
      ensures found ==> off <= lo < hi <= off + len && Hides(old(Views()), Views(), lo, hi) && Shows(old(Views()), lo).Some?
    {
      var i := Find(off, off + len);
      if i == |placeholders| { return false, 0, 0; }
      var p := placeholders[i];
      var from, to := if p.lo < off then off else p.lo, if off + len < p.hi then off + len else p.hi;
      OrderedBounds(Views(), 0, size, i);
      UnmapPart(i, from, to);
      return true, from, to;
    }

    /** Unmap a range: afterwards its bytes show nothing, and all others what they showed. */
    method Unmap(off: nat, len: nat)
      requires Valid() && 0 < len
      modifies this
      ensures Valid() && Hides(old(Views()), Views(), off, off + len)
    {
      var more := true;
      while more
        invariant Valid() && Fades(old(Views()), Views(), off, off + len)
        invariant !more ==> Unmapped(off, off + len)
        decreases more, |Shown(Views(), off, off + len)|
      {
        ghost var vs, lo, hi := Views(), 0, 0;
        more, lo, hi := UnmapOne(off, len);
        if more { HidesFades(old(Views()), vs, Views(), lo, hi, off, off + len); }
      }
      NothingShown(off, off + len);
    }

    lemma NothingShown(lo: nat, hi: nat)
      requires Unmapped(lo, hi)
      ensures forall x: nat {:trigger Shows(Views(), x)} :: lo <= x < hi ==> Shows(Views(), x) == None
    {
      forall x: nat | lo <= x < hi ensures Shows(Views(), x) == None {
        forall i | 0 <= i < |Views()| ensures !In(Views()[i], x) { assert Views()[i] == ViewOf(placeholders[i], hosts); }
        NothingAt(Views(), x);
      }
    }

    /** Forget interval `i`, of which `[lo, hi)` is unmapped, and track what is left of it. */
    method Retrack(i: nat, lo: nat, hi: nat, ghost l: seq<Cell>, ghost v: Cell, ghost r: seq<Cell>)
      requires i < |placeholders| && Views() == l + ([v] + r) && |l| == i && v.view.Some? && v.lo <= lo < hi <= v.hi
      requires Ordered(Views(), 0, size) && Keyed(placeholders, hosts)
      modifies this`placeholders, this`hosts
      ensures Views() == (l + LeftOf(v, lo)) + (RightOf(v, hi) + r) && Keyed(placeholders, hosts)
    {
      var p := placeholders[i];
      assert ViewsOf(placeholders, hosts)[i] == v == ViewOf(p, hosts);
      var host := hosts[p.lo];
      Around(l, v, r, size);
      KeyedRemove(placeholders, hosts, i);
      UntrackPlaceholder(i);
      assert Views() == l + r;
      TrackLeft(p.lo, host, lo, l, v, r);
      ghost var l' := l + LeftOf(v, lo);
      LeftEnds(l, v, lo);
      OrderedTo(l', 0, lo, hi);
      TrackRight(p, host, hi, l', v, r);
    }

    method TrackRight(p: Interval, host: nat, hi: nat, ghost l: seq<Cell>, ghost v: Cell, ghost r: seq<Cell>)
      requires v == Cell(p.lo, p.hi, Some(host)) && p.lo <= hi <= p.hi && Views() == l + r && Keyed(placeholders, hosts)
      requires Ordered(l, 0, hi) && Ordered(r, v.hi, size)
      modifies this`placeholders, this`hosts
      ensures Views() == l + (RightOf(v, hi) + r) && Keyed(placeholders, hosts)
    {
      if hi < p.hi {
        TrackPiece(hi, host + (hi - p.lo), p.hi, l, r);
      } else {
        assert RightOf(v, hi) + r == r;
      }
    }

    method TrackLeft(off: nat, host: nat, lo: nat, ghost l: seq<Cell>, ghost v: Cell, ghost r: seq<Cell>)
      requires v.view == Some(host) && v.lo == off <= lo <= v.hi && Views() == l + r && Keyed(placeholders, hosts)
      requires Ordered(l, 0, v.lo) && Ordered(r, v.hi, size)
      modifies this`placeholders, this`hosts
      ensures Views() == (l + LeftOf(v, lo)) + r && Keyed(placeholders, hosts)
    {
      OrderedFrom(r, v.hi, lo, size);
      assert l + [] == l;
      if off < lo {
        TrackPiece(off, host, lo, l, r);
        Assoc(l, LeftOf(v, lo), r);
      }
    }

    /** Track a piece between the views `l` and `r`. */
    method TrackPiece(off: nat, host: nat, end: nat, ghost l: seq<Cell>, ghost r: seq<Cell>)
      requires off < end && Views() == l + r && Ordered(l, 0, off) && Ordered(r, end, size) && Keyed(placeholders, hosts)
      modifies this`placeholders, this`hosts
      ensures Views() == l + ([Cell(off, end, Some(host))] + r) && Keyed(placeholders, hosts)
    {
      ghost var ps, hs := placeholders, hosts;
      PieceFits(ps, hs, l, r, off, end, size);
      ghost var k := TrackPlaceholder(off, host, end - off, end);
      PiecePlace(ps, hs, l, r, off, end, k);
      KeyedInsert(ps, hs, k, Interval(off, end), host);
    }
  }

  /** The views with one more interval in place `k`. */
  lemma ViewsInsert(ps: seq<Interval>, hosts: map<nat, nat>, k: nat, off: nat, end: nat, host: nat)
    requires k <= |ps| && off !in hosts && forall j :: 0 <= j < |ps| ==> ps[j].lo in hosts
    ensures ViewsOf(ps[..k] + ([Interval(off, end)] + ps[k..]), hosts[off := host])
            == ViewsOf(ps, hosts)[..k] + ([Cell(off, end, Some(host))] + ViewsOf(ps, hosts)[k..])
  {
  }

  /** The place in the order is the one between `l` and `r`. */
  lemma PiecePlace(ps: seq<Interval>, hosts: map<nat, nat>, l: seq<Cell>, r: seq<Cell>, off: nat, end: nat, k: nat)
    requires ViewsOf(ps, hosts) == l + r && off < end && k <= |ps|
    requires forall j :: 0 <= j < |ps| ==> ps[j].lo < ps[j].hi && if j < |l| then ps[j].hi <= off else end <= ps[j].lo
    requires (forall j :: 0 <= j < k ==> ps[j].lo < end) && (k < |ps| ==> ps[k].lo >= end)
    ensures ViewsOf(ps, hosts)[..k] == l && ViewsOf(ps, hosts)[k..] == r
  {
    assert |l| < |ps| ==> ps[|l|].lo >= end;
    assert k == |l|;
  }

  /** Where the `j`-th interval lies if a piece fits between the views `l` and `r`. */
  ghost predicate Clear(ps: seq<Interval>, hosts: map<nat, nat>, n: nat, off: nat, end: nat, j: nat)
    requires j < |ps|
  {
    ps[j].lo < ps[j].hi && ps[j].lo in hosts && if j < n then ps[j].hi <= off else end <= ps[j].lo
  }

  lemma PieceClear(ps: seq<Interval>, hosts: map<nat, nat>, l: seq<Cell>, r: seq<Cell>, off: nat, end: nat, size: nat, j: nat)
    requires ViewsOf(ps, hosts) == l + r && Ordered(l, 0, off) && Ordered(r, end, size) && j < |ps|
    ensures Clear(ps, hosts, |l|, off, end, j)
  {
    assert ViewsOf(ps, hosts)[j] == ViewOf(ps[j], hosts);
    if j < |l| { OrderedBounds(l, 0, off, j); } else { OrderedBounds(r, end, size, j - |l|); }
  }

  lemma PieceFits(ps: seq<Interval>, hosts: map<nat, nat>, l: seq<Cell>, r: seq<Cell>, off: nat, end: nat, size: nat)
    requires off < end && ViewsOf(ps, hosts) == l + r && Ordered(l, 0, off) && Ordered(r, end, size) && Keyed(ps, hosts)
    ensures off !in hosts
    ensures forall j :: 0 <= j < |ps| ==> ps[j].lo < ps[j].hi && ps[j].lo in hosts
    ensures forall j :: 0 <= j < |ps| ==> if j < |l| then ps[j].hi <= off else end <= ps[j].lo
  {
    forall j: nat | j < |ps| ensures Clear(ps, hosts, |l|, off, end, j) { PieceClear(ps, hosts, l, r, off, end, size, j); }
    assert forall j: nat {:trigger ps[j]} :: j < |ps| ==> Clear(ps, hosts, |l|, off, end, j);
    assert off in hosts ==> StartsOne(ps, off);
  }

  lemma LeftEnds(l: seq<Cell>, v: Cell, lo: nat)
    requires Ordered(l, 0, v.lo) && v.view.Some? && v.lo <= lo
    ensures Ordered(l + LeftOf(v, lo), 0, lo)
  {
    OrderedTo(l, 0, v.lo, lo);
    if v.lo < lo {
      OrderedSplit(l, LeftOf(v, lo), 0, lo);
      OrderedEnd(l, 0, v.lo);
      OrderedSplit(l, [], 0, v.lo);
      assert l + [] == l && LeftOf(v, lo)[1..] == [];
    } else { assert l + LeftOf(v, lo) == l; }
  }

  lemma KeyedRemove(ps: seq<Interval>, hosts: map<nat, nat>, i: nat)
    requires Keyed(ps, hosts) && i < |ps|
    ensures Keyed(ps[..i] + ps[i + 1..], hosts - {ps[i].lo})
  {
    var qs := ps[..i] + ps[i + 1..];
    forall x | x in hosts - {ps[i].lo} ensures StartsOne(qs, x) {
      assert StartsOne(ps, x);
      var j :| 0 <= j < |ps| && ps[j].lo == x;
      assert qs[if j < i then j else j - 1] == ps[j];
    }
  }

  lemma ShownAt(l: seq<Cell>, v: Cell, r: seq<Cell>, size: nat, x: nat)
    requires Ordered(l + ([v] + r), 0, size) && v.view.Some? && In(v, x)
    ensures Shows(l + ([v] + r), x).Some?
  {
    ShowsConcat(l, [v] + r, x);
  }

  lemma Nest(a: seq<Cell>, g: seq<Cell>, x: seq<Cell>, m: seq<Cell>, b: seq<Cell>)
    ensures a + (g + (x + (m + b))) == (a + (g + (x + m))) + b
  {
    Assoc(x, m, b);
    Assoc(g, x + m, b);
    Assoc(a, g + (x + m), b);
  }

  /** A range without views lies in one gap. */
  lemma GapAround(l: seq<Cell>, r: seq<Cell>, lo: nat, hi: nat, size: nat)
    requires Ordered(l + r, 0, size) && lo < hi < size
    requires forall j :: 0 <= j < |l| ==> l[j].lo < hi && (l[j].hi <= lo || hi <= l[j].lo)
    requires r != [] ==> r[0].lo >= hi
    ensures EndOf(l, 0) <= lo && hi <= StartOf(r, size) && Ordered(l, 0, lo) && Ordered(r, hi, size)
  {
    OrderedSplit(l, r, 0, size);
    OrderedTo(l, 0, EndOf(l, 0), lo);
  }

  lemma KeyedInsert(ps: seq<Interval>, hosts: map<nat, nat>, k: nat, p: Interval, host: nat)
    requires Keyed(ps, hosts) && k <= |ps|
    ensures Keyed(ps[..k] + ([p] + ps[k..]), hosts[p.lo := host])
  {
    var qs := ps[..k] + ([p] + ps[k..]);
    assert qs[k] == p;
    forall x | x in hosts[p.lo := host] ensures StartsOne(qs, x) {
      if x != p.lo {
        assert StartsOne(ps, x);
        var i :| 0 <= i < |ps| && ps[i].lo == x;
        assert qs[if i < k then i else i + 1] == ps[i];
      }
    }
  }

  // ----- HostMemory -----

  const HUGE_PAGE: nat := 0x20_0000

  /** The smallest multiple of `a` from `x` on. */
  function RoundUp(x: nat, a: nat): (r: nat)
    requires a > 0
    ensures x <= r < x + a
  {
    x + a - 1 - (x + a - 1) % a
  }

  /** The offset of the huge-page aligned base the constructor picks in the reservation. */
  function BaseOffset(base: nat): nat {
    RoundUp(base + HUGE_PAGE, HUGE_PAGE) - base
  }

  /** `HostMemory`: the tracker behind an aligned base. */
  class HostMemory {
    const virtualSize: nat
    const offset: nat
    const impl: Impl

    /** `base` is where the operating system put the reservation. */
    constructor (virtualSize: nat, page: nat, base: nat)
      requires page > 0
      ensures Valid() && fresh(impl) && impl.Views() == [] && (base + offset) % HUGE_PAGE == 0 && this.virtualSize == virtualSize
    {
      this.virtualSize := virtualSize;
      this.impl := new Impl(RoundUp(virtualSize, page) + 3 * HUGE_PAGE);
      this.offset := BaseOffset(base);
    }

    /** The slack keeps every range in front of the end of the reservation. */
    ghost predicate Valid()
      reads this, impl
    {
      impl.Valid() && virtualSize + offset < impl.size
    }

    method Map(off: nat, host: nat, len: nat)
      requires Valid() && off + len <= virtualSize && impl.Unmapped(off + offset, off + offset + len)
      modifies impl
      ensures Valid()
      ensures len > 0 ==> Adds(old(impl.Views()), impl.Views(), Cell(off + offset, off + offset + len, Some(host)))
      ensures len == 0 ==> impl.Views() == old(impl.Views())
    {
      if len == 0 { return; }
      impl.Map(off + offset, host, len);
    }

    method Unmap(off: nat, len: nat)
      requires Valid() && off + len <= virtualSize
      modifies impl
      ensures Valid() && Hides(old(impl.Views()), impl.Views(), off + offset, off + offset + len)
    {
      if len == 0 { return; }
      impl.Unmap(off + offset, len);
    }
  }
}
