/** The operating system's partition of a reserved address range into views and placeholders. */
module AddressLayout {
  import opened Basics

  /** A cell of the partition: a view of the backing file from an offset on, or a free placeholder. */
  datatype Cell = Cell(lo: nat, hi: nat, view: Option<nat>)

  /** The views are in order within `[from, to)` and do not overlap. */
  predicate Ordered(vs: seq<Cell>, from: nat, to: nat) {
    if vs == [] then from <= to
    else from <= vs[0].lo < vs[0].hi && vs[0].view.Some? && Ordered(vs[1..], vs[0].hi, to)
  }

  function Gap(lo: nat, hi: nat): seq<Cell> { if lo < hi then [Cell(lo, hi, None)] else [] }

  /** The views with exactly the maximal gaps between them. */
  function Layout(vs: seq<Cell>, from: nat, to: nat): seq<Cell> {
    if vs == [] then Gap(from, to) else Gap(from, vs[0].lo) + [vs[0]] + Layout(vs[1..], vs[0].hi, to)
  }

  function EndOf(vs: seq<Cell>, from: nat): nat { if vs == [] then from else vs[|vs| - 1].hi }

  function StartOf(vs: seq<Cell>, to: nat): nat { if vs == [] then to else vs[0].lo }

  /** The layout up to the end of the last view. */
  function Solid(vs: seq<Cell>, from: nat): seq<Cell> {
    if vs == [] then [] else Gap(from, vs[0].lo) + [vs[0]] + Solid(vs[1..], vs[0].hi)
  }

  /** The layout from the start of the first view. */
  function Tail(vs: seq<Cell>, to: nat): seq<Cell> {
    if vs == [] then [] else [vs[0]] + Layout(vs[1..], vs[0].hi, to)
  }

  lemma LayoutTail(vs: seq<Cell>, from: nat, to: nat)
    ensures Layout(vs, from, to) == Gap(from, StartOf(vs, to)) + Tail(vs, to)
  {
  }

  lemma Assoc(a: seq<Cell>, b: seq<Cell>, c: seq<Cell>)
    ensures (a + b) + c == a + (b + c)
  {
  }

  /** The layout around one gap. */
  lemma {:induction false} LayoutGap(l: seq<Cell>, r: seq<Cell>, from: nat, to: nat)
    ensures Layout(l + r, from, to) == Solid(l, from) + (Gap(EndOf(l, from), StartOf(r, to)) + Tail(r, to))
    decreases l
  {
    if l == [] {
      assert l + r == r;
      LayoutTail(r, from, to);
    } else {
      assert (l + r)[1..] == l[1..] + r;
      LayoutGap(l[1..], r, l[0].hi, to);
      Assoc(Gap(from, l[0].lo) + [l[0]], Solid(l[1..], l[0].hi), Gap(EndOf(l, from), StartOf(r, to)) + Tail(r, to));
    }
  }

  /** The layout around one view. */
  lemma LayoutView(l: seq<Cell>, v: Cell, r: seq<Cell>, from: nat, to: nat)
    ensures Layout(l + ([v] + r), from, to)
            == Solid(l, from) + (Gap(EndOf(l, from), v.lo) + ([v] + (Gap(v.hi, StartOf(r, to)) + Tail(r, to))))
  {
    LayoutGap(l, [v] + r, from, to);
    LayoutTail(r, v.hi, to);
    assert ([v] + r)[1..] == r;
  }

  lemma {:induction false} OrderedSplit(l: seq<Cell>, r: seq<Cell>, from: nat, to: nat)
    ensures Ordered(l + r, from, to) <==> Ordered(l, from, EndOf(l, from)) && Ordered(r, EndOf(l, from), to)
    decreases l
  {
    if l == [] { assert l + r == r; }
    else {
      assert (l + r)[1..] == l[1..] + r;
      OrderedSplit(l[1..], r, l[0].hi, to);
    }
  }

  /** A view in a gap keeps the order. */
  lemma OrderedInsert(l: seq<Cell>, v: Cell, r: seq<Cell>, from: nat, to: nat)
    requires Ordered(l + r, from, to) && v.view.Some? && EndOf(l, from) <= v.lo < v.hi <= StartOf(r, to)
    ensures Ordered(l + ([v] + r), from, to)
  {
    OrderedSplit(l, r, from, to);
    OrderedSplit(l, [v] + r, from, to);
    assert ([v] + r)[1..] == r;
  }

  lemma {:induction false} OrderedBounds(vs: seq<Cell>, from: nat, to: nat, i: nat)
    requires Ordered(vs, from, to) && i < |vs|
    ensures from <= vs[i].lo < vs[i].hi <= to && vs[i].view.Some?
  {
    if i > 0 { OrderedBounds(vs[1..], vs[0].hi, to, i - 1); }
    OrderedEnd(vs, from, to);
  }

  lemma {:induction false} OrderedEnd(vs: seq<Cell>, from: nat, to: nat)
    requires Ordered(vs, from, to)
    ensures from <= EndOf(vs, from) <= to && (vs != [] ==> vs[0].hi <= to)
  {
    if vs != [] { OrderedEnd(vs[1..], vs[0].hi, to); }
  }

  // ----- What each byte shows -----

  predicate In(v: Cell, x: nat) { v.lo <= x < v.hi }

  /** The backing offset a byte shows, if any. */
  function Shows(vs: seq<Cell>, x: nat): Option<nat> {
    if vs == [] then None
    else if In(vs[0], x) && vs[0].view.Some? then Some(vs[0].view.value + (x - vs[0].lo))
    else Shows(vs[1..], x)
  }

  lemma {:induction false} ShowsConcat(l: seq<Cell>, r: seq<Cell>, x: nat)
    ensures Shows(l + r, x) == if Shows(l, x).Some? then Shows(l, x) else Shows(r, x)
    decreases l
  {
    if l == [] { assert l + r == r; } else { assert (l + r)[1..] == l[1..] + r; ShowsConcat(l[1..], r, x); }
  }

  lemma {:induction false} ShowsWithin(vs: seq<Cell>, from: nat, to: nat, x: nat)
    requires Ordered(vs, from, to) && Shows(vs, x).Some?
    ensures from <= x < to && x < EndOf(vs, from)
  {
    OrderedEnd(vs, from, to);
    if !In(vs[0], x) { ShowsWithin(vs[1..], vs[0].hi, to, x); }
    OrderedEnd(vs[1..], vs[0].hi, to);
  }

  /** What shows with one more view in a gap. */
  lemma ShowsInserted(l: seq<Cell>, v: Cell, r: seq<Cell>, from: nat, to: nat, x: nat)
    requires Ordered(l + ([v] + r), from, to) && v.view.Some?
    ensures Shows(l + ([v] + r), x) == if In(v, x) then Some(v.view.value + (x - v.lo)) else Shows(l + r, x)
  {
    assert ([v] + r)[1..] == r;
    OrderedSplit(l, [v] + r, from, to);
    ShowsConcat(l, [v] + r, x);
    ShowsConcat(l, r, x);
    if Shows(l, x).Some? { ShowsWithin(l, from, EndOf(l, from), x); }
  }

  /** `vs'` shows what `vs` shows, and `v` where `v` is. */
  ghost predicate Adds(vs: seq<Cell>, vs': seq<Cell>, v: Cell)
    requires v.view.Some?
  {
    forall x: nat {:trigger Shows(vs', x)} :: Shows(vs', x) == if In(v, x) then Some(v.view.value + (x - v.lo)) else Shows(vs, x)
  }

  /** `vs'` shows what `vs` shows, but nothing in `[lo, hi)`. */
  ghost predicate Hides(vs: seq<Cell>, vs': seq<Cell>, lo: nat, hi: nat) {
    forall x: nat {:trigger Shows(vs', x)} :: Shows(vs', x) == if lo <= x < hi then None else Shows(vs, x)
  }

  lemma InsertedAdds(l: seq<Cell>, v: Cell, r: seq<Cell>, from: nat, to: nat)
    requires Ordered(l + ([v] + r), from, to) && v.view.Some?
    ensures Adds(l + r, l + ([v] + r), v)
  {
    forall x: nat ensures Shows(l + ([v] + r), x) == if In(v, x) then Some(v.view.value + (x - v.lo)) else Shows(l + r, x) {
      ShowsInserted(l, v, r, from, to, x);
    }
  }

  // ----- Cutting a piece out of a view -----

  /** One optional view. */
  function When(b: bool, lo: nat, hi: nat, host: nat): seq<Cell> { if b then [Cell(lo, hi, Some(host))] else [] }

  /** What is left of a view in front of `lo` and from `hi` on. */
  function LeftOf(v: Cell, lo: nat): seq<Cell>
    requires v.view.Some?
  {
    When(v.lo < lo, v.lo, lo, v.view.value)
  }

  function RightOf(v: Cell, hi: nat): seq<Cell>
    requires v.view.Some? && v.lo <= hi
  {
    When(hi < v.hi, hi, v.hi, v.view.value + (hi - v.lo))
  }

  lemma {:induction false} SolidAppend(l: seq<Cell>, v: Cell, from: nat)
    ensures Solid(l + [v], from) == Solid(l, from) + (Gap(EndOf(l, from), v.lo) + [v])
    decreases l
  {
    if l == [] {
      assert l + [v] == [v] && [v][1..] == [];
    } else {
      assert (l + [v])[1..] == l[1..] + [v];
      SolidAppend(l[1..], v, l[0].hi);
      Assoc(Gap(from, l[0].lo) + [l[0]], Solid(l[1..], l[0].hi), Gap(EndOf(l, from), v.lo) + [v]);
    }
  }

  /** The layout after `[lo, hi)` has been cut out of a view. */
  lemma LayoutCut(l: seq<Cell>, v: Cell, r: seq<Cell>, lo: nat, hi: nat, from: nat, to: nat)
    requires v.view.Some? && v.lo <= lo < hi <= v.hi
    ensures var e, s := EndOf(l, from), StartOf(r, to);
            var g1 := if v.lo < lo then Gap(e, v.lo) else [];
            var g2 := if hi < v.hi then Gap(v.hi, s) else [];
            Layout((l + LeftOf(v, lo)) + (RightOf(v, hi) + r), from, to)
            == Solid(l, from) + (g1 + (LeftOf(v, lo) + (Gap(if v.lo < lo then lo else e, if hi < v.hi then hi else s) + (RightOf(v, hi) + (g2 + Tail(r, to))))))
  {
    var e, s := EndOf(l, from), StartOf(r, to);
    var g1 := if v.lo < lo then Gap(e, v.lo) else [];
    var a, b := LeftOf(v, lo), RightOf(v, hi);
    LayoutGap(l + a, b + r, from, to);
    var rest := Gap(if v.lo < lo then lo else e, if hi < v.hi then hi else s) + Tail(b + r, to);
    if a == [] { assert l + a == l && [] + rest == rest; }
    else { SolidAppend(l, a[0], from); Assoc(Solid(l, from), g1 + a, rest); Assoc(g1, a, rest); }
    TailCut(v, r, hi, to);
  }

  lemma TailCut(v: Cell, r: seq<Cell>, hi: nat, to: nat)
    requires v.view.Some? && v.lo <= hi <= v.hi
    ensures Tail(RightOf(v, hi) + r, to) == RightOf(v, hi) + ((if hi < v.hi then Gap(v.hi, StartOf(r, to)) else []) + Tail(r, to))
    ensures StartOf(RightOf(v, hi) + r, to) == if hi < v.hi then hi else StartOf(r, to)
  {
    var b := RightOf(v, hi);
    if b == [] { assert b + r == r && [] + Tail(r, to) == Tail(r, to); }
    else { assert (b + r)[1..] == r; LayoutTail(r, v.hi, to); }
  }

  lemma OrderedCut(l: seq<Cell>, v: Cell, r: seq<Cell>, lo: nat, hi: nat, from: nat, to: nat)
    requires Ordered(l + ([v] + r), from, to) && v.view.Some? && v.lo <= lo < hi <= v.hi
    ensures Ordered((l + LeftOf(v, lo)) + (RightOf(v, hi) + r), from, to)
  {
    var a, b := LeftOf(v, lo), RightOf(v, hi);
    OrderedSplit(l, [v] + r, from, to);
    assert ([v] + r)[1..] == r;
    OrderedFrom(r, v.hi, hi, to);
    assert a != [] ==> a[1..] == [];
    OrderedSplit(l, a, from, if a == [] then EndOf(l, from) else lo);
    assert b != [] ==> (b + r)[1..] == r;
    assert b == [] ==> b + r == r;
    assert l + [] == l;
    if a == [] { OrderedFrom(b + r, hi, EndOf(l, from), to); }
    OrderedFrom(b + r, hi, EndOf(l + a, from), to);
    OrderedSplit(l + a, b + r, from, to);
  }

  /** Starting earlier keeps the order. */
  lemma OrderedFrom(vs: seq<Cell>, from: nat, earlier: nat, to: nat)
    requires Ordered(vs, from, to) && earlier <= from
    ensures Ordered(vs, earlier, to)
  {
  }

  lemma CutHides(l: seq<Cell>, v: Cell, r: seq<Cell>, lo: nat, hi: nat, from: nat, to: nat)
    requires Ordered(l + ([v] + r), from, to) && v.view.Some? && v.lo <= lo < hi <= v.hi
    ensures Hides(l + ([v] + r), (l + LeftOf(v, lo)) + (RightOf(v, hi) + r), lo, hi)
  {
    var a, b := LeftOf(v, lo), RightOf(v, hi);
    forall x: nat ensures Shows((l + a) + (b + r), x) == if lo <= x < hi then None else Shows(l + ([v] + r), x) {
      CutShows(l, v, r, lo, hi, from, to, x);
    }
  }

  lemma CutShows(l: seq<Cell>, v: Cell, r: seq<Cell>, lo: nat, hi: nat, from: nat, to: nat, x: nat)
    requires Ordered(l + ([v] + r), from, to) && v.view.Some? && v.lo <= lo < hi <= v.hi
    ensures Shows((l + LeftOf(v, lo)) + (RightOf(v, hi) + r), x) == if lo <= x < hi then None else Shows(l + ([v] + r), x)
  {
    var a, b := LeftOf(v, lo), RightOf(v, hi);
    OrderedSplit(l, [v] + r, from, to);
    assert ([v] + r)[1..] == r;
    ShowsConcat(l, [v] + r, x);
    ShowsConcat(l + a, b + r, x);
    ShowsConcat(l, a, x);
    ShowsConcat(b, r, x);
    if Shows(l, x).Some? { ShowsWithin(l, from, EndOf(l, from), x); }
    if Shows(r, x).Some? { ShowsWithin(r, v.hi, to, x); }
  }

  /** Ending later keeps the order. */
  lemma {:induction false} OrderedTo(vs: seq<Cell>, from: nat, to: nat, later: nat)
    requires Ordered(vs, from, to) && to <= later
    ensures Ordered(vs, from, later)
  {
    if vs != [] { OrderedTo(vs[1..], vs[0].hi, to, later); }
  }

  /** What the order says about the views around `v`. */
  lemma Around(l: seq<Cell>, v: Cell, r: seq<Cell>, to: nat)
    requires Ordered(l + ([v] + r), 0, to)
    ensures Ordered(l, 0, v.lo) && Ordered(r, v.hi, to) && v.lo < v.hi
    ensures forall j :: 0 <= j < |l + ([v] + r)| && j != |l| ==> (l + ([v] + r))[j].lo != v.lo
  {
    OrderedSplit(l, [v] + r, 0, to);
    assert ([v] + r)[1..] == r;
    OrderedTo(l, 0, EndOf(l, 0), v.lo);
    forall j | 0 <= j < |l + ([v] + r)| && j != |l| ensures (l + ([v] + r))[j].lo != v.lo {
      if j < |l| { OrderedBounds(l, 0, v.lo, j); } else { OrderedBounds(r, v.hi, to, j - |l| - 1); }
    }
  }

  // ----- Unmapping step by step -----

  /** The bytes of a range that show something. */
  ghost function Shown(vs: seq<Cell>, lo: nat, hi: nat): set<nat> { set x: nat | lo <= x < hi && Shows(vs, x).Some? }

  /** Outside the range nothing changes, and inside bytes only disappear. */
  ghost predicate Fades(vs: seq<Cell>, vs': seq<Cell>, lo: nat, hi: nat) {
    forall x: nat {:trigger Shows(vs', x)} :: Shows(vs', x) == Shows(vs, x) || (lo <= x < hi && Shows(vs', x) == None)
  }

  lemma HidesFades(vs: seq<Cell>, vs1: seq<Cell>, vs2: seq<Cell>, lo: nat, hi: nat, from: nat, to: nat)
    requires Fades(vs, vs1, from, to) && Hides(vs1, vs2, lo, hi) && from <= lo < hi <= to && Shows(vs1, lo).Some?
    ensures Fades(vs, vs2, from, to) && |Shown(vs2, from, to)| < |Shown(vs1, from, to)|
  {
    assert forall x: nat {:trigger Shows(vs2, x)} :: Shows(vs2, x) == if lo <= x < hi then None else Shows(vs1, x);
    var a, b := Shown(vs1, from, to), Shown(vs2, from, to);
    assert lo in a && lo !in b;
    assert b <= a - {lo};
    Smaller(b, a - {lo});
  }

  lemma Smaller(a: set<nat>, b: set<nat>)
    requires a <= b
    ensures |a| <= |b|
  {
    assert b == a + (b - a);
  }

  /** Where no view is, nothing shows. */
  lemma {:induction false} NothingAt(vs: seq<Cell>, x: nat)
    requires forall i :: 0 <= i < |vs| ==> !In(vs[i], x)
    ensures Shows(vs, x) == None
  {
    if vs != [] {
      assert !In(vs[0], x);
      forall i | 0 <= i < |vs[1..]| ensures !In(vs[1..][i], x) { assert vs[1..][i] == vs[i + 1]; }
      NothingAt(vs[1..], x);
    }
  }
}
