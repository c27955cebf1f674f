/** `KPageGroup`: blocks of physical pages, and the two-cursor copy from the working page group to
    the group the process keeps. */
module PageGroup {
  import opened Basics
  import opened InitialImage
  import opened PageMemory

  /** A run of consecutive physical pages. */
  datatype Block = Block(first: nat, pages: nat)

  function Range(first: nat, n: nat): seq<nat> { seq(n, i requires 0 <= i < n => first + i) }

  /** The pages of a group in order. */
  function PagesIn(bs: seq<Block>): seq<nat> {
    if bs == [] then [] else Range(bs[0].first, bs[0].pages) + PagesIn(bs[1..])
  }

  ghost predicate NoEmpty(bs: seq<Block>) { forall b :: b in bs ==> b.pages > 0 }

  lemma {:induction false} PagesInJoin(xs: seq<Block>, bs: seq<Block>)
    ensures PagesIn(xs + bs) == PagesIn(xs) + PagesIn(bs)
  {
    if xs == [] { assert xs + bs == bs; }
    else {
      assert (xs + bs)[1..] == xs[1..] + bs;
      PagesInJoin(xs[1..], bs);
    }
  }

  lemma PagesInOne(b: Block)
    ensures PagesIn([b]) == Range(b.first, b.pages)
  {
    assert [b][1..] == [];
  }

  /** `AddBlock`: an adjacent run extends the last block. */
  function AddBlock(bs: seq<Block>, b: Block): seq<Block> {
    if b.pages == 0 then bs
    else if bs != [] && bs[|bs| - 1].first + bs[|bs| - 1].pages == b.first
    then bs[..|bs| - 1] + [Block(bs[|bs| - 1].first, bs[|bs| - 1].pages + b.pages)]
    else bs + [b]
  }

  lemma ExtendLast(init: seq<Block>, last: Block, n: nat)
    ensures PagesIn(init + [Block(last.first, last.pages + n)]) == PagesIn(init + [last]) + Range(last.first + last.pages, n)
  {
    PagesInOne(last);
    PagesInOne(Block(last.first, last.pages + n));
    PagesInJoin(init, [last]);
    PagesInJoin(init, [Block(last.first, last.pages + n)]);
    RangeJoin(last.first, last.pages, n);
    Assoc(PagesIn(init), Range(last.first, last.pages), Range(last.first + last.pages, n));
  }

  lemma Assoc(a: seq<nat>, b: seq<nat>, c: seq<nat>)
    ensures (a + b) + c == a + (b + c)
  {
  }

  lemma RangeJoin(first: nat, n: nat, m: nat)
    ensures Range(first, n) + Range(first + n, m) == Range(first, n + m)
  {
  }

  /** Adding a block adds its pages at the end. */
  lemma AddBlockPages(bs: seq<Block>, b: Block)
    requires NoEmpty(bs)
    ensures NoEmpty(AddBlock(bs, b)) && PagesIn(AddBlock(bs, b)) == PagesIn(bs) + Range(b.first, b.pages)
  {
    if b.pages > 0 && bs != [] && bs[|bs| - 1].first + bs[|bs| - 1].pages == b.first {
      assert bs == bs[..|bs| - 1] + [bs[|bs| - 1]];
      ExtendLast(bs[..|bs| - 1], bs[|bs| - 1], b.pages);
    } else {
      PagesInOne(b);
      PagesInJoin(bs, [b]);
    }
  }

  /** Add all blocks of another group. */
  method AddBlocks(bs: seq<Block>, more: seq<Block>) returns (r: seq<Block>)
    requires NoEmpty(bs)
    ensures NoEmpty(r) && PagesIn(r) == PagesIn(bs) + PagesIn(more)
  {
    r := bs;
    var i := 0;
    assert more[0..] == more;
    while i < |more|
      invariant 0 <= i <= |more| && NoEmpty(r) && PagesIn(r) + PagesIn(more[i..]) == PagesIn(bs) + PagesIn(more)
    {
      AddBlockPages(r, more[i]);
      assert more[i..][1..] == more[i + 1..];
      r := AddBlock(r, more[i]);
      i := i + 1;
    }
  }

  // ----- Memory by pages -----

  ghost function Page(m: seq<Byte>, p: nat): seq<Byte>
    requires (p + 1) * PAGE <= |m|
  {
    m[p * PAGE..p * PAGE + PAGE]
  }

  /** The memory as a sequence of pages. */
  ghost function Paged(m: seq<Byte>): (r: seq<seq<Byte>>)
    ensures |r| == PageOf(|m|) && forall p :: 0 <= p < |r| ==> r[p] == Page(m, p)
  {
    seq(PageOf(|m|), p requires 0 <= p < PageOf(|m|) => Page(m, p))
  }

  /** `memcpy` of whole pages. */
  method CopyPages(mem: array<Byte>, dst: nat, src: nat, n: nat)
    requires (dst + n) * PAGE <= mem.Length && (src + n) * PAGE <= mem.Length && (src + n <= dst || dst + n <= src)
    modifies mem
    ensures var now, was := Paged(mem[..]), old(Paged(mem[..]));
            && (forall p :: dst <= p < dst + n ==> now[p] == was[src + (p - dst)])
            && (forall p :: 0 <= p < dst || dst + n <= p < |now| ==> now[p] == was[p])
  {
    ghost var was := mem[..];
    var d, s, len := dst * PAGE, src * PAGE, n * PAGE;
    var i := 0;
    while i < len
      invariant 0 <= i <= len
      invariant forall b :: d <= b < d + i ==> mem[b] == was[s + (b - d)]
      invariant forall b :: 0 <= b < d || d + i <= b < mem.Length ==> mem[b] == was[b]
    {
      mem[d + i] := mem[s + i];
      i := i + 1;
    }
    PagesCopied(was, mem[..], dst, src, n);
  }

  lemma PagesCopied(was: seq<Byte>, now: seq<Byte>, dst: nat, src: nat, n: nat)
    requires |now| == |was| && (dst + n) * PAGE <= |now| && (src + n) * PAGE <= |now|
    requires forall b :: dst * PAGE <= b < dst * PAGE + n * PAGE ==> now[b] == was[src * PAGE + (b - dst * PAGE)]
    requires forall b :: 0 <= b < dst * PAGE || dst * PAGE + n * PAGE <= b < |now| ==> now[b] == was[b]
    ensures forall p :: dst <= p < dst + n ==> Paged(now)[p] == Paged(was)[src + (p - dst)]
    ensures forall p :: 0 <= p < dst || dst + n <= p < |Paged(now)| ==> Paged(now)[p] == Paged(was)[p]
  {
    forall p | dst <= p < dst + n ensures Paged(now)[p] == Paged(was)[src + (p - dst)] {
      assert Page(now, p) == Page(was, src + (p - dst));
    }
    forall p | 0 <= p < dst || dst + n <= p < |Paged(now)| ensures Paged(now)[p] == Paged(was)[p] {
      assert Page(now, p) == Page(was, p);
    }
  }

  // ----- Cursors -----

  /** A cursor in a group: the rest of the current block, then the blocks behind it. */
  ghost function Rest(first: nat, n: nat, behind: seq<Block>): seq<nat> { Range(first, n) + PagesIn(behind) }

  /** Of the group with the pages `ps`, `k` pages are done and the cursor is at the next one. */
  ghost predicate Left(ps: seq<nat>, k: nat, first: nat, n: nat, behind: seq<Block>) {
    k <= |ps| && ps[k..] == Rest(first, n, behind)
  }

  /** `k` pages are done and the next block begins. */
  ghost predicate Ahead(ps: seq<nat>, k: nat, behind: seq<Block>) { k <= |ps| && ps[k..] == PagesIn(behind) }

  lemma Between(ps: seq<nat>, k: nat, first: nat, behind: seq<Block>)
    ensures Left(ps, k, first, 0, behind) <==> Ahead(ps, k, behind)
  {
    assert Rest(first, 0, behind) == PagesIn(behind);
  }

  /** `m` pages further. */
  lemma RestAdvance(ps: seq<nat>, k: nat, first: nat, n: nat, behind: seq<Block>, m: nat)
    requires Left(ps, k, first, n, behind) && m <= n
    ensures k + m <= |ps| && ps[k..k + m] == Range(first, m) && Left(ps, k + m, first + m, n - m, behind)
  {
    var r := Rest(first, n, behind);
    assert r[..m] == Range(first, m) && r[m..] == Rest(first + m, n - m, behind);
    assert ps[k..][..m] == ps[k..k + m] && ps[k..][m..] == ps[k + m..];
  }

  /** The same, between two cursors. */
  lemma Further(ps: seq<nat>, k: nat, k': nat, first: nat, first': nat, n: nat, n': nat, behind: seq<Block>)
    requires Left(ps, k, first, n, behind) && n' <= n && k' - k == first' - first == n - n'
    ensures k' <= |ps| && ps[k..k'] == Range(first, n - n') && Left(ps, k', first', n', behind)
  {
    RestAdvance(ps, k, first, n, behind, n - n');
  }

  lemma NextBlock(ps: seq<nat>, k: nat, bs: seq<Block>, i: nat)
    requires i < |bs|
    ensures Ahead(ps, k, bs[i..]) <==> Left(ps, k, bs[i].first, bs[i].pages, bs[i + 1..])
  {
    assert bs[i..][1..] == bs[i + 1..];
  }

  lemma SomeLeft(bs: seq<Block>)
    requires NoEmpty(bs)
    ensures PagesIn(bs) == [] <==> bs == []
  {
  }

  // ----- Copying -----

  /** `ds` are distinct pages, apart from the pages `ws`. */
  ghost predicate Apart(ds: seq<nat>, ws: seq<nat>, size: nat) {
    && |ds| == |ws| && Distinct(ds)
    && (forall i :: 0 <= i < |ds| ==> ds[i] < size && ws[i] < size)
    && (forall i, j :: 0 <= i < |ds| && 0 <= j < |ws| ==> ds[i] != ws[j])
  }

  /** The first `k` pages have been copied and nothing else has changed. */
  ghost predicate Copied<T>(now: seq<T>, was: seq<T>, ds: seq<nat>, ws: seq<nat>, k: nat) {
    && k <= |ds| == |ws| && |now| == |was| && Apart(ds, ws, |now|)
    && (forall i :: 0 <= i < k ==> now[ds[i]] == was[ws[i]])
    && (forall p :: 0 <= p < |now| && p !in ds[..k] ==> now[p] == was[p])
  }

  predicate InRun(p: int, first: nat, n: nat) { first <= p < first + n }

  lemma RunsApart(a: nat, b: nat, n: nat)
    requires forall p {:trigger InRun(p, a, n)} :: InRun(p, a, n) ==> !InRun(p, b, n)
    ensures a + n <= b || b + n <= a
  {
    assert n > 0 ==> InRun(a, a, n) && InRun(b, b, n) && !InRun(b, a, n);
  }

  /** Two runs of groups that are apart do not overlap. */
  lemma RunsDisjoint(ds: seq<nat>, ws: seq<nat>, size: nat, k: nat, d: nat, w: nat, n: nat)
    requires Apart(ds, ws, size) && k + n <= |ds| && 0 < n
    requires ds[k..k + n] == Range(d, n) && ws[k..k + n] == Range(w, n)
    ensures d + n <= size && w + n <= size && (d + n <= w || w + n <= d)
  {
    assert ds[k..k + n][n - 1] == d + (n - 1) && ws[k..k + n][n - 1] == w + (n - 1);
    forall p | InRun(p, d, n) ensures !InRun(p, w, n) {
      assert ds[k..k + n][p - d] == p;
      forall q | InRun(q, w, n) ensures q != p { assert ws[k..k + n][q - w] == q; }
    }
    RunsApart(d, w, n);
  }

  /** Copy the next `n` pages of both groups, which are runs from `d` and from `w`. */
  method CopyRun(mem: array<Byte>, d: nat, w: nat, n: nat, ghost was: seq<seq<Byte>>, ghost ds: seq<nat>, ghost ws: seq<nat>, ghost k: nat, ghost k': nat)
    requires k' == k + n <= |ds| && Copied(Paged(mem[..]), was, ds, ws, k)
    requires ds[k..k'] == Range(d, n) && ws[k..k'] == Range(w, n)
    modifies mem
    ensures Copied(Paged(mem[..]), was, ds, ws, k')
  {
    if n == 0 { return; }
    ghost var before := Paged(mem[..]);
    RunsDisjoint(ds, ws, |before|, k, d, w, n);
    CopyPages(mem, d, w, n);
    RunCopied(before, Paged(mem[..]), was, ds, ws, k, d, w, n);
  }

  lemma RunCopied<T>(before: seq<T>, now: seq<T>, was: seq<T>, ds: seq<nat>, ws: seq<nat>, k: nat, d: nat, w: nat, n: nat)
    requires k + n <= |ds| && Copied(before, was, ds, ws, k) && |now| == |before| && d + n <= |now| && w + n <= |now|
    requires ds[k..k + n] == Range(d, n) && ws[k..k + n] == Range(w, n)
    requires forall p :: d <= p < d + n ==> now[p] == before[w + (p - d)]
    requires forall p :: 0 <= p < d || d + n <= p < |now| ==> now[p] == before[p]
    ensures Copied(now, was, ds, ws, k + n)
  {
    forall i | 0 <= i < k + n ensures now[ds[i]] == was[ws[i]] {
      if i >= k {
        assert ds[k..k + n][i - k] == d + (i - k) && ws[k..k + n][i - k] == w + (i - k);
        assert ws[i] !in ds[..k];
      } else {
        forall p | InRun(p, d, n) ensures p != ds[i] { assert ds[k..k + n][p - d] == p; }
        assert !InRun(ds[i], d, n);
      }
    }
    forall p | 0 <= p < |now| && p !in ds[..k + n] ensures now[p] == was[p] {
      forall x | InRun(x, d, n) ensures x in ds[..k + n] { assert ds[k..k + n][x - d] == ds[..k + n][k + (x - d)] == x; }
      assert !InRun(p, d, n);
      assert ds[..k + n][..k] == ds[..k];
    }
  }

  /** A cursor in the working group: block `i`, of which `n` pages from `w` on are left. */
  datatype Cursor = Cursor(i: nat, w: nat, n: nat)

  /** Both groups have come as far as `k` pages. */
  ghost predicate Stands(work: seq<Block>, c: Cursor, ws: seq<nat>, k: nat) {
    c.i < |work| && Left(ws, k, c.w, c.n, work[c.i + 1..])
  }

  /** `k` pages are copied; the destination's current block has `bn` pages left from `b` on. */
  ghost predicate Copying<T>(now: seq<T>, was: seq<T>, ds: seq<nat>, ws: seq<nat>, k: nat,
                             work: seq<Block>, c: Cursor, b: nat, bn: nat, behind: seq<Block>) {
    Stands(work, c, ws, k) && Left(ds, k, b, bn, behind) && Copied(now, was, ds, ws, k)
  }

  /** Copy one block of the destination group. */
  method CopyBlock(mem: array<Byte>, work: seq<Block>, c0: Cursor, block: Block, ghost behind: seq<Block>,
                   ghost was: seq<seq<Byte>>, ghost ds: seq<nat>, ghost ws: seq<nat>, ghost k0: nat)
    returns (c: Cursor, ghost k: nat)
    requires NoEmpty(work) && Copying(Paged(mem[..]), was, ds, ws, k0, work, c0, block.first, block.pages, behind)
    modifies mem
    ensures Ahead(ds, k, behind) && Stands(work, c, ws, k) && Copied(Paged(mem[..]), was, ds, ws, k)
  {
    c, k := c0, k0;
    var b: nat, bn: nat := block.first, block.pages;
    while bn > 0
      invariant Copying(Paged(mem[..]), was, ds, ws, k, work, c, b, bn, behind)
    {
      c, b, bn, k := CopySome(mem, work, c, b, bn, behind, was, ds, ws, k);
    }
    Between(ds, k, b, behind);
  }

  /** Copy as much as the current blocks of both sides allow, from the next working block on if the
      current one is used up. */
  method CopySome(mem: array<Byte>, work: seq<Block>, c0: Cursor, b: nat, bn: nat, ghost behind: seq<Block>,
                  ghost was: seq<seq<Byte>>, ghost ds: seq<nat>, ghost ws: seq<nat>, ghost k: nat)
    returns (c: Cursor, b': nat, bn': nat, ghost k': nat)
    requires Copying(Paged(mem[..]), was, ds, ws, k, work, c0, b, bn, behind) && 0 < bn && NoEmpty(work)
    modifies mem
    ensures bn' < bn && Copying(Paged(mem[..]), was, ds, ws, k', work, c, b', bn', behind)
  {
    var c1 := c0;
    SomePages(ds, ws, k, b, bn, behind);
    if c1.n == 0 { c1 := Advance(work, c1, ws, k); }
    c, b', bn', k' := CopyBoth(mem, work, c1, b, bn, behind, was, ds, ws, k);
  }

  method CopyBoth(mem: array<Byte>, work: seq<Block>, c0: Cursor, b: nat, bn: nat, ghost behind: seq<Block>,
                  ghost was: seq<seq<Byte>>, ghost ds: seq<nat>, ghost ws: seq<nat>, ghost k: nat)
    returns (c: Cursor, b': nat, bn': nat, ghost k': nat)
    requires Copying(Paged(mem[..]), was, ds, ws, k, work, c0, b, bn, behind) && 0 < bn && 0 < c0.n
    modifies mem
    ensures bn' < bn && Copying(Paged(mem[..]), was, ds, ws, k', work, c, b', bn', behind)
  {
    var n := if bn < c0.n then bn else c0.n;
    c, b', bn', k' := Cursor(c0.i, c0.w + n, c0.n - n), b + n, bn - n, k + n;
    Further(ds, k, k', b, b', bn, bn', behind);
    Further(ws, k, k', c0.w, c.w, c0.n, c.n, work[c0.i + 1..]);
    CopyRun(mem, b, c0.w, n, was, ds, ws, k, k');
  }

  lemma SomePages(ds: seq<nat>, ws: seq<nat>, k: nat, b: nat, bn: nat, behind: seq<Block>)
    requires Left(ds, k, b, bn, behind) && 0 < bn && |ds| == |ws|
    ensures k < |ws|
  {
    assert |ds[k..]| >= bn;
  }

  /** `++work_it`: there is a next block as long as pages are left. */
  method Advance(work: seq<Block>, c: Cursor, ghost ws: seq<nat>, ghost k: nat) returns (r: Cursor)
    requires NoEmpty(work) && Stands(work, c, ws, k) && c.n == 0 && k < |ws|
    ensures Stands(work, r, ws, k) && r.n > 0
  {
    SomeLeft(work[c.i + 1..]);
    Between(ws, k, c.w, work[c.i + 1..]);
    NextBlock(ws, k, work, c.i + 1);
    r := Cursor(c.i + 1, work[c.i + 1].first, work[c.i + 1].pages);
  }

  /** Copy the working group to the other group, block by block on both sides: page for page the
      contents are the same, nothing else changes, and both block lists end together. */
  method CopyGroup(mem: array<Byte>, work: seq<Block>, dst: seq<Block>) returns (exhausted: bool)
    requires NoEmpty(work) && work != [] && Apart(PagesIn(dst), PagesIn(work), PageOf(mem.Length))
    modifies mem
    ensures exhausted && Copied(Paged(mem[..]), old(Paged(mem[..])), PagesIn(dst), PagesIn(work), |PagesIn(work)|)
  {
    ghost var ds, ws, was, k: nat := PagesIn(dst), PagesIn(work), Paged(mem[..]), 0;
    var c := Cursor(0, work[0].first, work[0].pages);
    assert work[0..] == work && dst[0..] == dst && ws[0..] == ws && ds[0..] == ds;
    NextBlock(ws, 0, work, 0);
    var bi := 0;
    while bi < |dst|
      invariant 0 <= bi <= |dst| && Ahead(ds, k, dst[bi..])
      invariant Stands(work, c, ws, k) && Copied(Paged(mem[..]), was, ds, ws, k)
    {
      NextBlock(ds, k, dst, bi);
      c, k := CopyBlock(mem, work, c, dst[bi], dst[bi + 1..], was, ds, ws, k);
      bi := bi + 1;
    }
    assert |ws[k..]| == |ds[k..]| == 0;
    Between(ws, k, c.w, work[c.i + 1..]);
    SomeLeft(work[c.i + 1..]);
    exhausted := c.i + 1 == |work|;
  }

  /** After the copy a mapping of the new group shows what one of the old group showed. */
  lemma CopiedSeen(now: seq<Byte>, was: seq<Byte>, ds: seq<nat>, ws: seq<nat>)
    requires |now| == |was| && |now| % PAGE == 0 && Maps(ds, |now|) && Maps(ws, |was|) && Copied(Paged(now), Paged(was), ds, ws, |ws|)
    ensures Seen(now, ds) == Seen(was, ws) && Untouched(now, was, SetOf(ds))
  {
    forall j | 0 <= j < |ds| * PAGE ensures now[At(ds, j)] == was[At(ws, j)] {
      var i, o := PageOf(j), j - PageOf(j) * PAGE;
      assert Paged(now)[ds[i]][o] == now[At(ds, j)] && Paged(was)[ws[i]][o] == was[At(ws, j)];
    }
    forall b: nat | b < |now| && PageOf(b) !in SetOf(ds) ensures now[b] == was[b] {
      SamePage(now, was, ds, b);
    }
  }

  lemma SamePage(now: seq<Byte>, was: seq<Byte>, ds: seq<nat>, b: nat)
    requires |now| == |was| && b < |now| && |now| % PAGE == 0
    requires forall p :: 0 <= p < |Paged(now)| && p !in ds ==> Paged(now)[p] == Paged(was)[p]
    requires PageOf(b) !in SetOf(ds)
    ensures now[b] == was[b]
  {
    var p := PageOf(b);
    assert Paged(now)[p][b - p * PAGE] == now[b] && Paged(was)[p][b - p * PAGE] == was[b];
  }
}
