/** `CreateProcesses`: walk the image in place, free its pages on the way, and build the processes,
    all in one physical memory.

    Addresses are relative to the page-aligned image area.  A free page may change at any time; the
    allocator hands out free pages, those of the image among them as soon as they are closed. */
module InitialProcess {
  import opened InitialImage
  import opened PageMemory
  import opened PageGroup
  import opened InPlaceWalk

  const AREA_PAGES: nat := 0xC00

  /** An area of `n` bytes: zeros, then the compressed binary at the very end. */
  function Area(binary: seq<Byte>, n: nat): (r: seq<Byte>)
    ensures |binary| <= n ==> |r| == n && r[n - |binary|..] == binary && forall i :: 0 <= i < n - |binary| ==> r[i] == 0
  {
    seq(if |binary| <= n then n - |binary| else 0, _ => 0 as Byte) + binary
  }

  /** What loading makes of a prepared area. */
  function LoadedArea(f: Format, k: Kip): (r: seq<Byte>)
    requires |k.binary| <= f.pages(k.header) * PAGE
    ensures |r| == f.pages(k.header) * PAGE
  {
    AfterLoad(f, k.header, Area(k.binary, f.pages(k.header) * PAGE))
  }

  function AfterLoad(f: Format, h: seq<Byte>, t: seq<Byte>): (r: seq<Byte>)
    ensures |r| == |t|
  {
    if |f.load(h, t)| == |t| then f.load(h, t) else t
  }

  /** Every page of the area is either still the image's or has been closed once as the image's. */
  ghost predicate Traced(closed: seq<nat>, owned: set<nat>) {
    forall p: nat {:trigger TracedAt(closed, owned, p)} :: TracedAt(closed, owned, p)
  }

  ghost predicate TracedAt(closed: seq<nat>, owned: set<nat>, p: nat) {
    multiset(closed)[p] + (if p in owned then 1 else 0) == if p < AREA_PAGES then 1 else 0
  }

  lemma TracedClose(closed: seq<nat>, owned: set<nat>, p: nat)
    requires Traced(closed, owned) && p in owned
    ensures Traced(closed + [p], owned - {p})
  {
    forall q: nat ensures TracedAt(closed + [p], owned - {p}, q) { assert TracedAt(closed, owned, q); }
  }

  /** The memory agrees with the image value from page `lo` up to page `hi`. */
  ghost predicate Agrees(m: seq<Byte>, img: seq<Byte>, lo: nat, hi: nat) {
    && hi * PAGE <= |m| && hi * PAGE <= |img|
    && (forall b: nat {:trigger SameByte(m, img, b)} :: lo * PAGE <= b < hi * PAGE ==> SameByte(m, img, b))
  }

  ghost predicate SameByte(m: seq<Byte>, img: seq<Byte>, b: nat) { b < |m| && b < |img| && m[b] == img[b] }

  lemma AgreesKept(now: seq<Byte>, was: seq<Byte>, touched: set<nat>, img: seq<Byte>, lo: nat, lo': nat, hi: nat)
    requires Untouched(now, was, touched) && Agrees(was, img, lo, hi) && lo <= lo'
    requires forall p: nat :: lo' <= p < hi ==> p !in touched
    ensures Agrees(now, img, lo', hi)
  {
    forall b: nat | lo' * PAGE <= b < hi * PAGE ensures SameByte(now, img, b) {
      assert lo' <= PageOf(b) < hi;
      assert SameByte(was, img, b);
    }
  }

  class Loader {
    const format: Format
    const mem: array<Byte>
    const size: nat
    var free: set<nat>
    var reserved: int
    /** The pages that are still the image's, and those closed as the image's, in order. */
    ghost var owned: set<nat>
    ghost var closed: seq<nat>

    constructor (format: Format, mem: array<Byte>, size: nat, free: set<nat>)
      requires AREA <= mem.Length && mem.Length % PAGE == 0 && size <= AREA
      requires forall p :: p in free ==> AREA_PAGES <= p < PageOf(mem.Length)
      ensures Valid() && this.format == format && this.mem == mem && this.size == size && this.free == free
      ensures reserved == 0 && owned == Span(0, AREA_PAGES) && closed == []
    {
      this.format, this.mem, this.size, this.free := format, mem, size, free;
      this.reserved, this.owned, this.closed := 0, Span(0, AREA_PAGES), [];
    }

    ghost predicate Valid()
      reads this
    {
      && AREA <= mem.Length && mem.Length % PAGE == 0 && size <= AREA
      && (forall p :: p in free ==> p < PageOf(mem.Length))
      && owned !! free && Traced(closed, owned)
    }

    /** The number of pages of the image. */
    function ImagePages(): (n: nat)
      ensures n * PAGE == AlignUp(size) && (size <= AREA ==> n <= AREA_PAGES)
    {
      PageOf(size + PAGE - 1)
    }

    // ----- The memory manager -----

    /** Whatever uses free pages may change them. */
    method Scramble()
      modifies mem
      ensures Untouched(mem[..], old(mem[..]), free)
    {
      var k := 0;
      while k < mem.Length
        invariant 0 <= k <= mem.Length && Untouched(mem[..], old(mem[..]), free)
      {
        if PageOf(k) in free { mem[k] := *; }
        k := k + 1;
      }
    }

    method ClosePage(p: nat)
      requires Valid() && p < PageOf(mem.Length) && p !in free
      modifies this`free, this`owned, this`closed
      ensures Valid() && free == old(free) + {p} && owned == old(owned) - {p}
    {
      if p in owned {
        TracedClose(closed, owned, p);
        closed, owned := closed + [p], owned - {p};
      }
      free := free + {p};
    }

    /** `Close` of a run of pages, none of which is free already. */
    method Close(first: nat, n: nat)
      requires Valid() && first + n <= PageOf(mem.Length) && Span(first, first + n) !! free
      modifies this`free, this`owned, this`closed
      ensures Valid() && Gone(old(free), free, old(owned), owned, Span(first, first + n), n)
    {
      var i := 0;
      while i < n
        invariant 0 <= i <= n && Valid() && Gone(old(free), free, old(owned), owned, Span(first, first + i), i)
      {
        GoneMore(old(free), free, old(owned), owned, first, i);
        ClosePage(first + i);
        i := i + 1;
      }
    }

    /** Close one block of a group. */
    method CloseBlock(b: Block, ghost ps: seq<nat>, ghost k: nat, ghost behind: seq<Block>, ghost f: set<nat>, ghost o: set<nat>)
      returns (ghost k': nat)
      requires Valid() && b.pages > 0 && Maps(ps, mem.Length) && SetOf(ps) !! f && Left(ps, k, b.first, b.pages, behind)
      requires Gone(f, free, o, owned, SetOf(ps[..k]), k)
      modifies this`free, this`owned, this`closed
      ensures Valid() && Ahead(ps, k', behind) && Gone(f, free, o, owned, SetOf(ps[..k']), k')
    {
      ghost var f1, o1 := free, owned;
      k' := k + b.pages;
      BlockPages(ps, k, k', b, behind, mem.Length);
      Close(b.first, b.pages);
      GoneBlock(f, f1, free, o, o1, owned, ps, k, k', b);
    }

    /** `KPageGroup::Close`. */
    method CloseGroup(bs: seq<Block>)
      requires Valid() && NoEmpty(bs) && Maps(PagesIn(bs), mem.Length) && SetOf(PagesIn(bs)) !! free
      modifies this`free, this`owned, this`closed
      ensures Valid() && Gone(old(free), free, old(owned), owned, SetOf(PagesIn(bs)), |PagesIn(bs)|)
    {
      ghost var ps, k: nat := PagesIn(bs), 0;
      var i := 0;
      assert bs[0..] == bs && ps[0..] == ps && ps[..0] == [];
      while i < |bs|
        invariant 0 <= i <= |bs| && Valid() && Ahead(ps, k, bs[i..])
        invariant Gone(old(free), free, old(owned), owned, SetOf(ps[..k]), k)
      {
        NextBlock(ps, k, bs, i);
        k := CloseBlock(bs[i], ps, k, bs[i + 1..], old(free), old(owned));
        i := i + 1;
      }
      assert ps[..k] == ps;
    }

    method TakePage() returns (p: nat)
      requires Valid() && free != {}
      modifies this`free
      ensures Valid() && p in old(free) && free == old(free) - {p}
    {
      p :| p in free;
      free := free - {p};
    }

    /** `AllocateAndOpen`: any free pages, in blocks of any shape. */
    method Allocate(n: nat) returns (ok: bool, bs: seq<Block>)
      requires Valid()
      modifies this`free
      ensures Valid() && (ok <==> |old(free)| >= n)
      ensures ok ==> NoEmpty(bs) && |PagesIn(bs)| == n && Taken(PagesIn(bs), old(free), free, mem.Length)
    {
      ok, bs := |free| >= n, [];
      if !ok { return; }
      var i := 0;
      while i < n
        invariant 0 <= i <= n && Valid() && NoEmpty(bs) && |PagesIn(bs)| == i
        invariant Taken(PagesIn(bs), old(free), free, mem.Length)
      {
        ghost var f := free;
        var p := TakePage();
        TakenMore(PagesIn(bs), old(free), f, p, mem.Length);
        bs := AddPage(bs, p);
        i := i + 1;
      }
    }

    // ----- One process -----

    /** The walk stands in page `lo`: from there on the memory is the image `img`, and these pages
        are the image's. */
    ghost predicate Stands(img: seq<Byte>, lo: nat)
      reads this, mem
    {
      && Valid() && |img| == AREA && Agrees(mem[..], img, lo, ImagePages())
      && (forall p: nat :: p in owned <==> lo <= p < ImagePages())
    }

    /** Attach to the KIP at `cur`. */
    method ReadHeader(cur: nat, ghost img: seq<Byte>) returns (h: seq<Byte>)
      requires Stands(img, PageOf(cur)) && cur + KIP_HEADER <= size
      modifies mem
      ensures Stands(img, PageOf(cur)) && h == HeaderAt(img, cur) && Untouched(mem[..], old(mem[..]), free)
    {
      Survive(img, PageOf(cur));
      h := mem[cur..cur + KIP_HEADER];
      ImageBytes(mem[..], img, PageOf(cur), ImagePages(), cur, KIP_HEADER);
    }

    /** The unread bytes of the image outlast a scramble. */
    method Survive(ghost img: seq<Byte>, ghost lo: nat)
      requires Agrees(mem[..], img, lo, ImagePages()) && forall p: nat :: lo <= p < ImagePages() ==> p !in free
      modifies mem
      ensures Agrees(mem[..], img, lo, ImagePages()) && Untouched(mem[..], old(mem[..]), free)
    {
      ghost var was := mem[..];
      Scramble();
      AgreesKept(mem[..], was, free, img, lo, lo, ImagePages());
    }

    /** Move the bytes behind the header at `cur` down to a page boundary, and close the pages in
        front of them. */
    method Compact(cur: nat, ghost img: seq<Byte>) returns (data: nat)
      requires Stands(img, PageOf(cur)) && cur + KIP_HEADER <= size
      modifies this`free, this`owned, this`closed, this`reserved, mem
      ensures data == AlignDown(cur + KIP_HEADER) == PageOf(data) * PAGE && PageOf(cur) <= PageOf(data)
      ensures Stands(Shifted(img, size, cur), PageOf(data))
      ensures Gone(old(free), free, old(owned), owned, Span(PageOf(cur), PageOf(data)), PageOf(data) - PageOf(cur))
      ensures reserved == old(reserved) - (PageOf(data) - PageOf(cur)) * PAGE
      ensures Untouched(mem[..], old(mem[..]), old(free) + Span(PageOf(cur), ImagePages()))
    {
      data := Shift(cur, img);
      var first := PageOf(cur);
      if first * PAGE != data {
        Close(first, PageOf(data) - first);
        reserved := reserved - (data - first * PAGE);
      }
    }

    /** The move alone. */
    method Shift(cur: nat, ghost img: seq<Byte>) returns (data: nat)
      requires Stands(img, PageOf(cur)) && cur + KIP_HEADER <= size
      modifies mem
      ensures data == AlignDown(cur + KIP_HEADER) == PageOf(data) * PAGE && PageOf(cur) <= PageOf(data) <= ImagePages()
      ensures Agrees(mem[..], Shifted(img, size, cur), PageOf(data), ImagePages())
      ensures Untouched(mem[..], old(mem[..]), free + Span(PageOf(cur), ImagePages()))
    {
      ghost var was := mem[..];
      Survive(img, PageOf(cur));
      ghost var mid := mem[..];
      data := cur + KIP_HEADER;
      if !Aligned(data) {
        var aligned := AlignDown(data);
        MoveDown(mem, aligned, data, size - data);
        data := aligned;
      }
      Compacted(mid, mem[..], img, size, cur, ImagePages(), data);
      UntouchedTrans(was, mid, mem[..], free, Span(PageOf(cur), ImagePages()));
    }

    /** The working page group: `k` pages of the image from page `dp` on, then allocated ones. */
    method MakeGroup(dp: nat, k: nat, np: nat) returns (ok: bool, pg: seq<Block>)
      requires Valid() && k <= np && (forall p: nat :: dp <= p < dp + k ==> p in owned) && dp + k <= AREA_PAGES
      modifies this`free
      ensures Valid() && (ok <==> |old(free)| >= np - k)
      ensures ok ==> NoEmpty(pg) && Working(PagesIn(pg), dp, k, np, old(free), free, owned, mem.Length)
    {
      var more;
      ok, more := Allocate(np - k);
      if !ok { return ok, []; }
      pg := [];
      if k != 0 {
        AddBlockPages([], Block(dp, k));
        pg := AddBlock([], Block(dp, k));
      }
      assert PagesIn(pg) == Range(dp, k);
      MadeGroup(PagesIn(more), dp, k, np, old(free), free, owned, mem.Length);
      pg := AddBlocks(pg, more);
    }

    /** Copy the unaligned tail of the binary to the end of the mapped group. */
    method PlaceTail(ps: seq<nat>, dp: nat, bsize: nat, data: nat, aligned: nat, ghost k: nat, ghost np: nat, ghost f: set<nat>, ghost img: seq<Byte>)
      requires Working(ps, dp, k, np, f, free, owned, mem.Length) && k <= PageOf(bsize)
      requires HasBinary(dp, bsize, np, data, aligned, img)
      modifies mem
      ensures TailPlaced(old(Seen(mem[..], ps)), Seen(mem[..], ps), img, data, bsize, aligned)
      ensures Untouched(mem[..], old(mem[..]), SetOf(ps))
    {
      var tail: nat, src: nat, dst: nat := bsize - aligned, data + aligned, |ps| * PAGE - (bsize - aligned);
      ApartFrom(ps, dp, k, np, f, free, owned, mem.Length, src, tail);
      ImageBytes(mem[..], img, dp, ImagePages(), src, tail);
      TailIs(Seen(mem[..], ps), img, data, bsize, aligned, src, tail, dst);
      CopyIn(mem, ps, dst, src, tail);
    }

    /** The binary at page `dp` lies in pages that are the image's, and fits into `np` pages. */
    ghost predicate HasBinary(dp: nat, bsize: nat, np: nat, data: nat, aligned: nat, img: seq<Byte>)
      reads this, mem
    {
      && Agrees(mem[..], img, dp, ImagePages()) && data == dp * PAGE && aligned == PageOf(bsize) * PAGE
      && data + bsize <= AlignUp(size) && bsize <= np * PAGE && (forall p: nat :: dp <= p < ImagePages() ==> p in owned)
    }

    /** Bring the binary to the end of the mapped group, at the start of which its whole pages are
        mapped already. */
    method PlaceOwn(ps: seq<nat>, dp: nat, bsize: nat, data: nat, aligned: nat, ghost np: nat, ghost f: set<nat>, ghost img: seq<Byte>)
      requires Working(ps, dp, PageOf(bsize), np, f, free, owned, mem.Length)
      requires HasBinary(dp, bsize, np, data, aligned, img)
      modifies mem
      ensures EndsWith(Seen(mem[..], ps), img[data..data + bsize]) && Untouched(mem[..], old(mem[..]), SetOf(ps))
    {
      ghost var was, t := mem[..], Seen(mem[..], ps);
      FrontIsImage(mem[..], img, ps, dp, PageOf(bsize), ImagePages(), data, aligned);
      PlaceTail(ps, dp, bsize, data, aligned, PageOf(bsize), np, f, img);
      ghost var mid := mem[..];
      RaisePages(ps, bsize, aligned, t, img, data);
      UntouchedTrans(was, mid, mem[..], SetOf(ps), SetOf(ps));
      UntouchedMore(was, mem[..], SetOf(ps) + SetOf(ps), SetOf(ps));
    }

    /** Move the whole pages of the binary from the start of the mapped group to in front of its tail. */
    method RaisePages(ps: seq<nat>, bsize: nat, aligned: nat, ghost t: seq<Byte>, ghost img: seq<Byte>, ghost data: nat)
      requires Maps(ps, mem.Length) && TailPlaced(t, Seen(mem[..], ps), img, data, bsize, aligned)
      requires t[..aligned] == img[data..data + aligned]
      modifies mem
      ensures EndsWith(Seen(mem[..], ps), img[data..data + bsize]) && Untouched(mem[..], old(mem[..]), SetOf(ps))
    {
      var dst: nat := |ps| * PAGE - bsize;
      PlacedMoved(t, Seen(mem[..], ps), img, data, bsize, aligned, dst);
      if aligned != 0 { MoveUp(mem, ps, dst, aligned); }
    }

    /** Bring the binary to the end of a mapped group that has no pages of the image. */
    method PlaceFar(ps: seq<nat>, dp: nat, bsize: nat, data: nat, aligned: nat, ghost np: nat, ghost f: set<nat>, ghost img: seq<Byte>)
      requires Working(ps, dp, 0, np, f, free, owned, mem.Length) && HasBinary(dp, bsize, np, data, aligned, img)
      modifies mem
      ensures EndsWith(Seen(mem[..], ps), img[data..data + bsize]) && Untouched(mem[..], old(mem[..]), SetOf(ps))
    {
      ghost var was, t := mem[..], Seen(mem[..], ps);
      ApartFrom(ps, dp, 0, np, f, free, owned, mem.Length, data, aligned);
      PlaceTail(ps, dp, bsize, data, aligned, 0, np, f, img);
      ghost var mid := mem[..];
      ImageBytesKept(mid, was, img, dp, ImagePages(), SetOf(ps), data, aligned);
      CopyPagesIn(ps, bsize, aligned, t, img, data);
      UntouchedTrans(was, mid, mem[..], SetOf(ps), SetOf(ps));
      UntouchedMore(was, mem[..], SetOf(ps) + SetOf(ps), SetOf(ps));
    }

    /** Copy the whole pages of the binary to in front of its tail. */
    method CopyPagesIn(ps: seq<nat>, bsize: nat, aligned: nat, ghost t: seq<Byte>, ghost img: seq<Byte>, data: nat)
      requires Maps(ps, mem.Length) && TailPlaced(t, Seen(mem[..], ps), img, data, bsize, aligned) && data + aligned <= mem.Length
      requires forall b: nat {:trigger PageOf(b)} :: data <= b < data + aligned ==> PageOf(b) !in SetOf(ps)
      requires mem[data..data + aligned] == img[data..data + aligned]
      modifies mem
      ensures EndsWith(Seen(mem[..], ps), img[data..data + bsize]) && Untouched(mem[..], old(mem[..]), SetOf(ps))
    {
      var dst: nat := |ps| * PAGE - bsize;
      PlacedCopied(t, Seen(mem[..], ps), img, data, bsize, aligned, dst);
      CopyIn(mem, ps, dst, data, aligned);
    }

    /** Clear the area in front of the binary and load the process in it. */
    method ClearAndLoad(ps: seq<nat>, h: seq<Byte>, bsize: nat, ghost binary: seq<Byte>)
      requires Maps(ps, mem.Length) && |binary| == bsize && EndsWith(Seen(mem[..], ps), binary) && SetOf(ps) !! free
      modifies mem
      ensures Seen(mem[..], ps) == AfterLoad(format, h, Area(binary, |ps| * PAGE))
      ensures Untouched(mem[..], old(mem[..]), SetOf(ps) + free)
    {
      ghost var was := mem[..];
      Clear(mem, ps, |ps| * PAGE - bsize);
      ghost var cleared := mem[..];
      assert Seen(mem[..], ps) == Area(binary, |ps| * PAGE);
      Scramble();
      SeenSame(mem[..], cleared, free, ps);
      ghost var read := mem[..];
      var t := Peek(mem, ps);
      Fill(mem, ps, AfterLoad(format, h, t));
      UntouchedTrans(was, cleared, read, SetOf(ps), free);
      UntouchedTrans(was, read, mem[..], SetOf(ps) + free, SetOf(ps));
      UntouchedMore(was, mem[..], SetOf(ps) + free + SetOf(ps), SetOf(ps) + free);
    }

    /** The binary in pages `lo` to `hi` and behind is ready to be built into a process of `np` pages. */
    ghost predicate Ready(lo: nat, hi: nat, bsize: nat, data: nat, aligned: nat, np: nat, img: seq<Byte>, binary: seq<Byte>)
      reads this, mem
    {
      && Valid() && HasBinary(lo, bsize, np, data, aligned, img)
      && hi == lo + PageOf(bsize) && hi <= ImagePages() && binary == img[data..data + bsize]
    }

    /** Build the process in the image's own pool: its working group begins with the binary's pages,
        and is closed after the copy to the group that the process keeps. */
    method BuildOwn(lo: nat, hi: nat, bsize: nat, data: nat, aligned: nat, np: nat, h: seq<Byte>, ghost img: seq<Byte>, ghost binary: seq<Byte>)
      returns (ok: bool, kept: seq<Block>)
      requires Ready(lo, hi, bsize, data, aligned, np, img, binary) && np > 0
      modifies this`free, this`owned, this`closed, mem
      ensures |old(free)| >= 2 * np ==> ok
      ensures ok ==> Valid() && Built(format, PagesIn(kept), h, binary, np, old(mem[..]), mem[..], old(free), free, old(owned), owned, lo, hi)
    {
      ghost var was, f := mem[..], free;
      var pg;
      ok, pg := MakeGroup(lo, hi - lo, np);
      if !ok { return ok, []; }
      var ps := PagesIn(pg);
      ghost var f1 := free;
      WorkPages(ps, lo, hi - lo, np, f, f1, owned, mem.Length);
      FillOwn(ps, lo, hi, bsize, data, aligned, np, h, f, img, binary);
      ghost var filled := mem[..];
      ok, kept := KeepCopy(pg, lo, hi, np, f);
      if !ok { return; }
      UntouchedTrans(was, filled, mem[..], SetOf(ps) + f1, f1);
      OwnTouched(ps, lo, hi, f, f1);
      UntouchedMore(was, mem[..], SetOf(ps) + f1 + f1, f + Span(lo, hi));
    }

    /** Copy the working group to a new group, and close it. */
    method KeepCopy(pg: seq<Block>, lo: nat, hi: nat, np: nat, ghost f: set<nat>) returns (ok: bool, kept: seq<Block>)
      requires Valid() && NoEmpty(pg) && pg != [] && lo <= hi && Working(PagesIn(pg), lo, hi - lo, np, f, free, owned, mem.Length)
      requires SetOf(PagesIn(pg)) !! free
      modifies this`free, this`owned, this`closed, mem
      ensures |old(free)| >= np ==> ok
      ensures ok ==> Valid() && |PagesIn(kept)| == np && Maps(PagesIn(kept), mem.Length)
      ensures ok ==> Settled(PagesIn(kept), f, free, old(owned), owned, lo, hi)
      ensures ok ==> Seen(mem[..], PagesIn(kept)) == old(Seen(mem[..], PagesIn(pg))) && Untouched(mem[..], old(mem[..]), old(free))
    {
      ghost var f1 := free;
      ok, kept := Allocate(np);
      if !ok { return; }
      ghost var f2 := free;
      CopyOver(pg, kept, f1);
      WorkPages(PagesIn(pg), lo, hi - lo, np, f, f1, owned, mem.Length);
      CloseGroup(pg);
      OwnSettled(PagesIn(pg), PagesIn(kept), lo, hi, np, f, f1, f2, free, old(owned), owned, mem.Length);
    }

    /** Fill a working group that begins with the binary's pages. */
    method FillOwn(ps: seq<nat>, lo: nat, ghost hi: nat, bsize: nat, data: nat, aligned: nat, np: nat, h: seq<Byte>, ghost f: set<nat>,
                   ghost img: seq<Byte>, ghost binary: seq<Byte>)
      requires Ready(lo, hi, bsize, data, aligned, np, img, binary)
      requires Working(ps, lo, PageOf(bsize), np, f, free, owned, mem.Length) && SetOf(ps) !! free
      modifies mem
      ensures Seen(mem[..], ps) == AfterLoad(format, h, Area(binary, np * PAGE))
      ensures Untouched(mem[..], old(mem[..]), SetOf(ps) + free)
    {
      ghost var was := mem[..];
      CopyOwn(ps, lo, bsize, data, aligned, np, f, img);
      ghost var placed := mem[..];
      ClearAndLoad(ps, h, bsize, binary);
      UntouchedTrans(was, placed, mem[..], free + SetOf(ps), SetOf(ps) + free);
      UntouchedMore(was, mem[..], free + SetOf(ps) + (SetOf(ps) + free), SetOf(ps) + free);
    }

    method CopyOwn(ps: seq<nat>, dp: nat, bsize: nat, data: nat, aligned: nat, ghost np: nat, ghost f: set<nat>, ghost img: seq<Byte>)
      requires Working(ps, dp, PageOf(bsize), np, f, free, owned, mem.Length) && HasBinary(dp, bsize, np, data, aligned, img)
      requires forall p: nat :: dp <= p < ImagePages() ==> p !in free
      modifies mem
      ensures EndsWith(Seen(mem[..], ps), img[data..data + bsize]) && Untouched(mem[..], old(mem[..]), free + SetOf(ps))
    {
      ghost var was := mem[..];
      Survive(img, dp);
      ghost var mid := mem[..];
      PlaceOwn(ps, dp, bsize, data, aligned, np, f, img);
      UntouchedTrans(was, mid, mem[..], free, SetOf(ps));
    }

    /** Copy the working group to the group that is kept. */
    method CopyOver(pg: seq<Block>, kept: seq<Block>, ghost f: set<nat>)
      requires Valid() && NoEmpty(pg) && pg != [] && Maps(PagesIn(pg), mem.Length) && SetOf(PagesIn(pg)) !! f
      requires Taken(PagesIn(kept), f, free, mem.Length) && |PagesIn(kept)| == |PagesIn(pg)|
      modifies mem
      ensures Seen(mem[..], PagesIn(kept)) == old(Seen(mem[..], PagesIn(pg))) && Untouched(mem[..], old(mem[..]), f)
    {
      ghost var was, ds, ws := mem[..], PagesIn(kept), PagesIn(pg);
      Scramble();
      ghost var mid := mem[..];
      UntouchedMore(was, mid, free, f);
      SeenSame(mid, was, f, ws);
      GroupsApart(ds, ws, f, free, mem.Length);
      var exhausted := CopyGroup(mem, pg, kept);
      CopiedSeen(mem[..], mid, ds, ws);
      UntouchedTrans(was, mid, mem[..], f, SetOf(ds));
      UntouchedMore(was, mem[..], f + SetOf(ds), f);
    }

    /** Build the process in another pool: the binary is copied, and its pages are closed. */
    method BuildFar(lo: nat, hi: nat, bsize: nat, data: nat, aligned: nat, np: nat, h: seq<Byte>, ghost img: seq<Byte>, ghost binary: seq<Byte>)
      returns (ok: bool, kept: seq<Block>)
      requires Ready(lo, hi, bsize, data, aligned, np, img, binary)
      modifies this`free, this`owned, this`closed, mem
      ensures |old(free)| >= np ==> ok
      ensures ok ==> Valid() && Built(format, PagesIn(kept), h, binary, np, old(mem[..]), mem[..], old(free), free, old(owned), owned, lo, hi)
    {
      ghost var was, f := mem[..], free;
      ok, kept := MakeGroup(lo, 0, np);
      if !ok { return; }
      var ps := PagesIn(kept);
      ghost var f1 := free;
      CopyFar(ps, lo, bsize, data, aligned, np, f, img);
      ghost var placed := mem[..];
      FinishFar(ps, lo, hi, bsize, np, h, f, binary);
      FarTouched(ps, lo, hi, f, f1, free, old(owned), owned);
      UntouchedTrans(was, placed, mem[..], f1 + SetOf(ps), SetOf(ps) + free);
      UntouchedMore(was, mem[..], f1 + SetOf(ps) + (SetOf(ps) + free), f + Span(lo, hi));
    }

    /** Close the pages of the binary, now copied, and load the process. */
    method FinishFar(ps: seq<nat>, lo: nat, hi: nat, bsize: nat, np: nat, h: seq<Byte>, ghost f: set<nat>, ghost binary: seq<Byte>)
      requires Valid() && Working(ps, lo, 0, np, f, free, owned, mem.Length) && lo <= hi <= PageOf(mem.Length)
      requires |binary| == bsize && EndsWith(Seen(mem[..], ps), binary) && forall p: nat :: lo <= p < hi ==> p in owned
      modifies this`free, this`owned, this`closed, mem
      ensures Valid() && Settled(ps, f, free, old(owned), owned, lo, hi)
      ensures Seen(mem[..], ps) == AfterLoad(format, h, Area(binary, |ps| * PAGE))
      ensures Untouched(mem[..], old(mem[..]), SetOf(ps) + free)
    {
      ghost var f1 := free;
      StillHeld(f, f1, owned, lo, hi);
      Close(lo, hi - lo);
      FarSettled(ps, lo, hi, np, f, f1, free, old(owned), owned, mem.Length);
      ClearAndLoad(ps, h, bsize, binary);
    }

    method CopyFar(ps: seq<nat>, dp: nat, bsize: nat, data: nat, aligned: nat, ghost np: nat, ghost f: set<nat>, ghost img: seq<Byte>)
      requires Working(ps, dp, 0, np, f, free, owned, mem.Length) && HasBinary(dp, bsize, np, data, aligned, img)
      requires forall p: nat :: dp <= p < ImagePages() ==> p !in free
      modifies mem
      ensures EndsWith(Seen(mem[..], ps), img[data..data + bsize]) && Untouched(mem[..], old(mem[..]), free + SetOf(ps))
    {
      ghost var was := mem[..];
      Survive(img, dp);
      ghost var mid := mem[..];
      PlaceFar(ps, dp, bsize, data, aligned, np, f, img);
      UntouchedTrans(was, mid, mem[..], free, SetOf(ps));
    }

    method Build(lo: nat, hi: nat, bsize: nat, data: nat, aligned: nat, np: nat, same: bool, h: seq<Byte>, ghost img: seq<Byte>, ghost binary: seq<Byte>)
      returns (ok: bool, kept: seq<Block>)
      requires Ready(lo, hi, bsize, data, aligned, np, img, binary) && np > 0
      modifies this`free, this`owned, this`closed, mem
      ensures |old(free)| >= 2 * np ==> ok
      ensures ok ==> Valid() && Built(format, PagesIn(kept), h, binary, np, old(mem[..]), mem[..], old(free), free, old(owned), owned, lo, hi)
    {
      if same { ok, kept := BuildOwn(lo, hi, bsize, data, aligned, np, h, img, binary); }
      else { ok, kept := BuildFar(lo, hi, bsize, data, aligned, np, h, img, binary); }
    }

    /** Build the process, with its reservations; the walk goes on in page `hi`. */
    method BuildProcess(lo: nat, hi: nat, bsize: nat, data: nat, np: nat, same: bool, h: seq<Byte>, ghost img: seq<Byte>, ghost k: Kip)
      returns (ok: bool, kept: seq<Block>)
      requires Stands(img, lo) && hi == lo + PageOf(bsize) && data == lo * PAGE && data + bsize <= AlignUp(size) && bsize <= np * PAGE
      requires 0 < np == format.pages(h) && k == Kip(h, img[data..data + bsize])
      modifies this, mem
      ensures |old(free)| >= 2 * np ==> ok
      ensures ok ==> Stands(img, hi) && |PagesIn(kept)| == np && Holds(mem[..], format, kept, k)
      ensures ok ==> Settled(PagesIn(kept), old(free), free, old(owned), owned, lo, hi)
      ensures ok ==> Untouched(mem[..], old(mem[..]), old(free) + Span(lo, hi))
      ensures ok ==> reserved == old(reserved) + (np - (hi - lo)) * PAGE
    {
      ghost var was, f, o := mem[..], free, owned;
      var aligned := PageOf(bsize) * PAGE;
      reserved := reserved + (np * PAGE - if same then aligned else 0);
      ok, kept := Build(lo, hi, bsize, data, aligned, np, same, h, img, k.binary);
      if !ok { return; }
      BuiltAgrees(format, PagesIn(kept), h, img, k.binary, np, was, mem[..], f, free, o, owned, lo, hi, ImagePages());
      if aligned != 0 && !same { reserved := reserved - aligned; }
    }

    /** Attach to the KIP at `cur`, and compact if its header is valid. */
    method Attach(cur: nat, ghost img: seq<Byte>) returns (v: Verdict, h: seq<Byte>, data: nat)
      requires Stands(img, PageOf(cur))
      modifies this, mem
      ensures v == Check(format, img, size, cur)
      ensures v == Loaded ==> cur + KIP_HEADER <= size && h == HeaderAt(img, cur) && data + format.binary(h) == NextInPlace(format, img, cur)
      ensures v == Loaded ==> data == AlignDown(cur + KIP_HEADER) == PageOf(data) * PAGE && PageOf(cur) <= PageOf(data)
      ensures v == Loaded ==> Stands(Shifted(img, size, cur), PageOf(data))
      ensures v == Loaded ==> Gone(old(free), free, old(owned), owned, Span(PageOf(cur), PageOf(data)), PageOf(data) - PageOf(cur))
      ensures v == Loaded ==> Untouched(mem[..], old(mem[..]), old(free) + Span(PageOf(cur), ImagePages()))
      ensures v == Loaded ==> reserved == old(reserved) - (PageOf(data) - PageOf(cur)) * PAGE
    {
      v, h, data := BadHeader, [], 0;
      if cur + KIP_HEADER > size { return; }
      ghost var was := mem[..];
      h := ReadHeader(cur, img);
      ghost var read := mem[..];
      if !format.valid(h) { return; }
      data := Compact(cur, img);
      UntouchedTrans(was, read, mem[..], old(free), old(free) + Span(PageOf(cur), ImagePages()));
      UntouchedMore(was, mem[..], old(free) + (old(free) + Span(PageOf(cur), ImagePages())), old(free) + Span(PageOf(cur), ImagePages()));
      v := if !Fits(format, h) then Misfit else if data + format.binary(h) > AlignUp(size) then Overrun else Loaded;
    }

    /** One turn of the loop. */
    method LoadOne(cur: nat, same: bool, ghost img: seq<Byte>) returns (v: Verdict, next: nat, h: seq<Byte>, kept: seq<Block>)
      requires Stands(img, PageOf(cur))
      modifies this, mem
      ensures v == Check(format, img, size, cur)
              || (v == NoMemory && Check(format, img, size, cur) == Loaded && |old(free)| < 2 * format.pages(HeaderAt(img, cur)))
      ensures v == Loaded ==> next == NextInPlace(format, img, cur) && h == HeaderAt(img, cur) && PageOf(cur) <= PageOf(next)
      ensures v == Loaded ==> Stands(Shifted(img, size, cur), PageOf(next))
      ensures v == Loaded ==> OneLoaded(format, kept, KipInPlace(format, img, size, cur), old(mem[..]), mem[..], old(free), free,
                                        PageOf(cur), PageOf(next), ImagePages())
      ensures v == Loaded ==> reserved == old(reserved) + (format.pages(h) - (PageOf(next) - PageOf(cur))) * PAGE
    {
      ghost var was, f := mem[..], free;
      var data;
      next, kept := 0, [];
      v, h, data := Attach(cur, img);
      if v != Loaded { return; }
      ghost var f1, o1, moved, k := free, owned, mem[..], KipInPlace(format, img, size, cur);
      var lo, bsize := PageOf(data), format.binary(h);
      var hi, ok := lo + PageOf(bsize), false;
      SameKip(format, img, size, cur, h, data);
      ok, kept := BuildProcess(lo, hi, bsize, data, format.pages(h), same, h, Shifted(img, size, cur), k);
      if !ok { return NoMemory, next, h, kept; }
      next := data + bsize;
      PageOfIs(next, hi);
      StepBooks(PagesIn(kept), f, f1, free, old(owned), o1, owned, PageOf(cur), lo, hi);
      StepTouched(was, moved, mem[..], f, f1, PageOf(cur), lo, hi, ImagePages());
    }

    // ----- All processes -----

    /** The walk stands at `cur` in the image as it is now, and has done what `Walked` says. */
    ghost predicate Walking(img: seq<Byte>, cur: nat, m: nat, kept: seq<seq<Block>>, done: seq<Kip>, all: seq<Kip>, v: Verdict,
                            f: set<nat>, r: int)
      reads this, mem
    {
      && PageOf(cur) <= ImagePages() && Stands(img, PageOf(cur))
      && Walked(mem[..], format, img, size, cur, m, kept, done, all, v, f, free, PageOf(cur), ImagePages(), reserved - r)
    }

    method LoadNext(cur: nat, same: bool, kept: seq<seq<Block>>, ghost img: seq<Byte>, ghost m: nat, ghost done: seq<Kip>,
                    ghost all: seq<Kip>, ghost v0: Verdict, ghost f: set<nat>, ghost r: int)
      returns (v: Verdict, next: nat, h: seq<Byte>, kept': seq<seq<Block>>, ghost img': seq<Byte>, ghost m': nat, ghost done': seq<Kip>)
      requires Walking(img, cur, m, kept, done, all, v0, f, r) && m > 0
      modifies this, mem
      ensures v == Loaded || v == v0 || v == NoMemory
      ensures v == NoMemory ==> |f| < 2 * TotalPages(format, all)
      ensures v == Loaded ==> Headers(done') == Headers(done) + [h] && m' == m - 1 && Walking(img', next, m', kept', done', all, v0, f, r)
    {
      ghost var was, f1, lo, end, owed := mem[..], free, PageOf(cur), ImagePages(), reserved - r;
      var g;
      img', m', done', kept' := img, m - 1, done, kept;
      v, next, h, g := LoadOne(cur, same, img);
      if v != Loaded {
        WalkStops(was, format, img, size, cur, m, kept, done, all, v0, f, f1, lo, end, owed);
        return;
      }
      ghost var k, hi, owed' := KipInPlace(format, img, size, cur), PageOf(next), reserved - r;
      img', done', kept' := Shifted(img, size, cur), done + [k], kept + [g];
      WalkedNext(was, mem[..], format, img, size, cur, next, m, m', kept, done, all, v0, f, f1, free, lo, hi, end, owed, owed', g, k);
    }

    /** Build all processes; `same[i]` says whether process `i` goes to the image's own pool. */
    method CreateProcesses(n: nat, same: seq<bool>, ghost img: seq<Byte>)
      returns (v: Verdict, headers: seq<seq<Byte>>, kept: seq<seq<Block>>)
      requires |same| == n && Stands(img, 0)
      modifies this, mem
      ensures v == Judge(format, img, size, INI_HEADER, n) || v == NoMemory
      ensures v == NoMemory ==> |old(free)| < 2 * TotalPages(format, InPlace(format, img, size, INI_HEADER, n))
      ensures v == Loaded ==> var all := InPlace(format, img, size, INI_HEADER, n);
                              && Valid() && headers == Headers(all) && Holding(mem[..], format, kept, all)
                              && owned == {} && Books(old(free), free, kept, ImagePages(), TotalPages(format, all))
                              && reserved == old(reserved) + (TotalPages(format, all) - ImagePages()) * PAGE
    {
      WalkStarts(mem[..], format, img, size, n, free, ImagePages());
      v, headers, kept := CreateAll(n, same, img, InPlace(format, img, size, INI_HEADER, n), Judge(format, img, size, INI_HEADER, n));
    }

    /** The loop, and the close of what is left of the image. */
    method CreateAll(n: nat, same: seq<bool>, ghost img: seq<Byte>, ghost all: seq<Kip>, ghost v0: Verdict)
      returns (v: Verdict, headers: seq<seq<Byte>>, kept: seq<seq<Block>>)
      requires |same| == n && Walking(img, INI_HEADER, n, [], [], all, v0, free, reserved)
      modifies this, mem
      ensures v == v0 || v == NoMemory
      ensures v == NoMemory ==> |old(free)| < 2 * TotalPages(format, all)
      ensures v == Loaded ==> Valid() && headers == Headers(all) && Holding(mem[..], format, kept, all)
      ensures v == Loaded ==> owned == {} && Books(old(free), free, kept, ImagePages(), TotalPages(format, all))
      ensures v == Loaded ==> reserved == old(reserved) + (TotalPages(format, all) - ImagePages()) * PAGE
    {
      var cur;
      v, cur, headers, kept := LoadAll(n, same, img, all, v0);
      if v == Loaded { ReleaseRest(cur, kept, old(free), TotalPages(format, all)); }
    }

    /** The loop. */
    method LoadAll(n: nat, same: seq<bool>, ghost img: seq<Byte>, ghost all: seq<Kip>, ghost v0: Verdict)
      returns (v: Verdict, cur: nat, headers: seq<seq<Byte>>, kept: seq<seq<Block>>)
      requires |same| == n && Walking(img, INI_HEADER, n, [], [], all, v0, free, reserved)
      modifies this, mem
      ensures v == v0 || v == NoMemory
      ensures v == NoMemory ==> |old(free)| < 2 * TotalPages(format, all)
      ensures v == Loaded ==> headers == Headers(all) && Holding(mem[..], format, kept, all) && Valid()
      ensures v == Loaded ==> PageOf(cur) <= ImagePages() && (forall p: nat :: p in owned <==> PageOf(cur) <= p < ImagePages())
      ensures v == Loaded ==> Books(old(free), free, kept, PageOf(cur), TotalPages(format, all))
      ensures v == Loaded ==> reserved == old(reserved) + (TotalPages(format, all) - PageOf(cur)) * PAGE
    {
      ghost var f, r, done, img', m: nat := free, reserved, [], img, n;
      cur, v, headers, kept := INI_HEADER, Loaded, [], [];
      var i := 0;
      while i < n
        invariant 0 <= i <= n && m == n - i && v == Loaded && headers == Headers(done)
        invariant Walking(img', cur, m, kept, done, all, v0, f, r)
      {
        var h;
        v, cur, h, kept, img', m, done := LoadNext(cur, same[i], kept, img', m, done, all, v0, f, r);
        if v != Loaded { return; }
        headers := headers + [h];
        i := i + 1;
      }
      WalkEnds(mem[..], format, img', size, cur, kept, done, all, v0, f, free, PageOf(cur), ImagePages(), reserved - r);
    }

    /** Close what is left of the image. */
    method ReleaseRest(cur: nat, ghost kept: seq<seq<Block>>, ghost f: set<nat>, ghost total: nat)
      requires Valid() && PageOf(cur) <= ImagePages() && (forall p: nat :: p in owned <==> PageOf(cur) <= p < ImagePages())
      requires Books(f, free, kept, PageOf(cur), total) && forall p: nat :: p in f ==> ImagePages() <= p
      modifies this
      ensures Valid() && owned == {} && Books(f, free, kept, ImagePages(), total)
      ensures reserved == old(reserved) - (ImagePages() - PageOf(cur)) * PAGE
    {
      var lo, hi := PageOf(cur), ImagePages();
      Close(lo, hi - lo);
      reserved := reserved - (hi - lo) * PAGE;
    }

    // ----- The whole load -----

    /** `CopyInitialProcessBinaryToKernelMemory`: if there are processes, reserve the image and close
        the rest of its area. */
    method CopyToKernelMemory(n: nat)
      requires Valid() && forall p: nat :: p in owned <==> p < AREA_PAGES
      modifies this
      ensures Valid() && reserved == old(reserved) + if n > 0 then AlignUp(size) else 0
      ensures n > 0 ==> Gone(old(free), free, old(owned), owned, Span(ImagePages(), AREA_PAGES), AREA_PAGES - ImagePages())
      ensures n == 0 ==> free == old(free) && owned == old(owned)
    {
      if n > 0 {
        var total := AlignUp(size);
        reserved := reserved + total;
        if total < AREA { Close(ImagePages(), AREA_PAGES - ImagePages()); }
      }
    }

    /** The whole load: it ends as the compacting walk over the image does, or for lack of memory.
        If it succeeds, every process keeps pages of its own that hold its loaded area, what stays
        reserved is the code size of the processes, every page of the area has been closed once as
        the image's, and just the kept pages are not free. */
    method Load(n: nat, same: seq<bool>) returns (v: Verdict, headers: seq<seq<Byte>>, kept: seq<seq<Block>>)
      requires n > 0 && |same| == n && Valid() && reserved == 0 && closed == [] && forall p: nat :: p in owned <==> p < AREA_PAGES
      modifies this, mem
      ensures var img := old(mem[..AREA]);
              && (v == Judge(format, img, size, INI_HEADER, n) || v == NoMemory)
              && (v == NoMemory ==> |old(free)| < 2 * TotalPages(format, InPlace(format, img, size, INI_HEADER, n)))
      ensures v == Loaded ==> var all := InPlace(format, old(mem[..AREA]), size, INI_HEADER, n);
                              && headers == Headers(all) && Holding(mem[..], format, kept, all)
                              && reserved == TotalPages(format, all) * PAGE && OnceEach(closed)
                              && Books(old(free), free, kept, AREA_PAGES, TotalPages(format, all))
    {
      ghost var img, f := mem[..AREA], free;
      CopyToKernelMemory(n);
      ghost var f1 := free;
      v, headers, kept := CreateProcesses(n, same, img);
      if v == Loaded {
        BooksWhole(f, f1, free, kept, ImagePages(), TotalPages(format, InPlace(format, img, size, INI_HEADER, n)));
        forall p: nat ensures multiset(closed)[p] == if p < AREA_PAGES then 1 else 0 { assert TracedAt(closed, owned, p); }
      }
    }
  }

  /** One more page, in a block of its own or not. */
  method AddPage(bs: seq<Block>, p: nat) returns (r: seq<Block>)
    requires NoEmpty(bs)
    ensures NoEmpty(r) && PagesIn(r) == PagesIn(bs) + [p]
  {
    assert Range(p, 1) == [p];
    if * {
      AddBlockPages(bs, Block(p, 1));
      r := AddBlock(bs, Block(p, 1));
    } else {
      PagesInOne(Block(p, 1));
      PagesInJoin(bs, [Block(p, 1)]);
      r := bs + [Block(p, 1)];
    }
  }

  /** The `n` pages `ps` have become free and are no longer the image's. */
  ghost predicate Gone(f: set<nat>, f': set<nat>, o: set<nat>, o': set<nat>, ps: set<nat>, n: nat) {
    && (forall p: nat :: p in f' <==> p in f || p in ps) && (forall p: nat :: p in o' <==> p in o && p !in ps)
    && |f'| == |f| + n
  }

  lemma GoneMore(f: set<nat>, f': set<nat>, o: set<nat>, o': set<nat>, first: nat, i: nat)
    requires Gone(f, f', o, o', Span(first, first + i), i) && first + i !in f
    ensures first + i !in f' && Gone(f, f' + {first + i}, o, o' - {first + i}, Span(first, first + i + 1), i + 1)
  {
    assert Span(first, first + i + 1) == Span(first, first + i) + {first + i};
  }

  lemma GoneBlock(f: set<nat>, f1: set<nat>, f2: set<nat>, o: set<nat>, o1: set<nat>, o2: set<nat>, ps: seq<nat>, k: nat, k': nat, b: Block)
    requires k <= k' <= |ps| && k' == k + b.pages && SetOf(ps[..k']) == SetOf(ps[..k]) + Span(b.first, b.first + b.pages)
    requires Gone(f, f1, o, o1, SetOf(ps[..k]), k) && Gone(f1, f2, o1, o2, Span(b.first, b.first + b.pages), b.pages)
    ensures Gone(f, f2, o, o2, SetOf(ps[..k']), k')
  {
  }

  /** The pages `ps` have been taken from the free ones. */
  ghost predicate Taken(ps: seq<nat>, f: set<nat>, f': set<nat>, n: nat) {
    && Maps(ps, n) && (forall p: nat :: p in ps ==> p in f) && (forall p: nat :: p in f' <==> p in f && p !in ps)
    && |f'| == |f| - |ps|
  }

  lemma TakenMore(ps: seq<nat>, f: set<nat>, f': set<nat>, p: nat, n: nat)
    requires Taken(ps, f, f', n) && p in f' && p < PageOf(n)
    ensures Taken(ps + [p], f, f' - {p}, n)
  {
    assert p !in SetOf(ps);
    OneMore(ps, p, n);
  }

  lemma OneMore(ps: seq<nat>, p: nat, n: nat)
    requires Maps(ps, n) && p !in ps && p < PageOf(n)
    ensures Maps(ps + [p], n) && SetOf(ps + [p]) == SetOf(ps) + {p}
  {
  }

  /** The pages of the next block of a group. */
  lemma BlockPages(ps: seq<nat>, k: nat, k': nat, b: Block, behind: seq<Block>, n: nat)
    requires Left(ps, k, b.first, b.pages, behind) && Maps(ps, n) && k' == k + b.pages && b.pages > 0
    ensures k' <= |ps| && b.first + b.pages <= PageOf(n) && Ahead(ps, k', behind)
    ensures Span(b.first, b.first + b.pages) !! SetOf(ps[..k]) && Span(b.first, b.first + b.pages) <= SetOf(ps)
    ensures SetOf(ps[..k']) == SetOf(ps[..k]) + Span(b.first, b.first + b.pages)
  {
    Further(ps, k, k', b.first, b.first + b.pages, b.pages, 0, behind);
    Between(ps, k', b.first + b.pages, behind);
    RunPages(ps, k, k', b.first, b.pages, n);
  }

  lemma RunPages(ps: seq<nat>, k: nat, k': nat, first: nat, m: nat, n: nat)
    requires k' == k + m <= |ps| && ps[k..k'] == Range(first, m) && Maps(ps, n) && m > 0
    ensures first + m <= PageOf(n)
    ensures Span(first, first + m) !! SetOf(ps[..k]) && Span(first, first + m) <= SetOf(ps)
    ensures SetOf(ps[..k']) == SetOf(ps[..k]) + Span(first, first + m)
  {
    var r := ps[k..k'];
    forall p: nat | first <= p < first + m ensures r[p - first] == p == ps[k + (p - first)] && p !in ps[..k] && p in ps {}
    assert ps[..k'] == ps[..k] + r;
    assert forall p | p in r :: first <= p < first + m;
    assert ps[k' - 1] == r[m - 1] == first + m - 1;
  }

  /** The memory after the move. */
  lemma Compacted(mid: seq<Byte>, now: seq<Byte>, img: seq<Byte>, size: nat, cur: nat, hi: nat, to: nat)
    requires cur + KIP_HEADER <= size <= hi * PAGE && |img| == AREA && Agrees(mid, img, PageOf(cur), hi)
    requires to == AlignDown(cur + KIP_HEADER) && Lowered(mid, now, to, cur + KIP_HEADER, size - (cur + KIP_HEADER))
    ensures to == PageOf(to) * PAGE && PageOf(cur) <= PageOf(to) <= hi
    ensures Agrees(now, Shifted(img, size, cur), PageOf(to), hi) && Untouched(now, mid, Span(PageOf(cur), hi))
  {
    var data := cur + KIP_HEADER;
    PageOfIs(to, PageOf(data));
    forall b: nat | PageOf(to) * PAGE <= b < hi * PAGE ensures SameByte(now, Shifted(img, size, cur), b) {
      assert SameByte(mid, img, b);
      assert b < to + (size - data) ==> SameByte(mid, img, b + (data - to));
    }
    forall b: nat | b < |now| && PageOf(b) !in Span(PageOf(cur), hi) ensures now[b] == mid[b] {
      assert !(PageOf(cur) <= PageOf(b) < hi);
    }
  }

  /** A working group: `k` pages of the image from `dp` on, then pages taken from the free ones. */
  ghost predicate Working(ps: seq<nat>, dp: nat, k: nat, np: nat, f: set<nat>, f': set<nat>, owned: set<nat>, n: nat) {
    && k <= |ps| == np && Maps(ps, n) && ps[..k] == Range(dp, k) && owned !! f
    && (forall i :: k <= i < np ==> ps[i] in f) && (forall p: nat :: p in f' <==> p in f && p !in ps)
    && |f'| == |f| - (np - k)
  }

  lemma MadeGroup(fs: seq<nat>, dp: nat, k: nat, np: nat, f: set<nat>, f': set<nat>, owned: set<nat>, n: nat)
    requires Taken(fs, f, f', n) && |fs| == np - k && k <= np && owned !! f && dp + k <= PageOf(n)
    requires forall p: nat :: dp <= p < dp + k ==> p in owned
    ensures Working(Range(dp, k) + fs, dp, k, np, f, f', owned, n)
  {
    var ps := Range(dp, k) + fs;
    assert ps[..k] == Range(dp, k);
    forall p: nat ensures p in ps <==> dp <= p < dp + k || p in fs {
      if dp <= p < dp + k { assert ps[p - dp] == p; }
      if p in fs { var i :| 0 <= i < |fs| && fs[i] == p; assert ps[k + i] == p; }
    }
    forall i, j | 0 <= i < j < |ps| ensures ps[i] != ps[j] { if i < k { assert ps[i] in owned; } }
  }

  /** Bytes of image pages that are not part of a working group. */
  lemma ApartFrom(ps: seq<nat>, dp: nat, k: nat, np: nat, f: set<nat>, f': set<nat>, owned: set<nat>, n: nat, src: nat, len: nat)
    requires Working(ps, dp, k, np, f, f', owned, n) && (dp + k) * PAGE <= src
    requires forall p: nat :: PageOf(src) <= p && p * PAGE < src + len ==> p in owned
    ensures forall b: nat {:trigger PageOf(b)} :: src <= b < src + len ==> PageOf(b) !in SetOf(ps)
  {
    forall b: nat | src <= b < src + len ensures PageOf(b) !in SetOf(ps) {
      forall i | 0 <= i < |ps| ensures ps[i] != PageOf(b) { if i < k { assert ps[..k][i] == dp + i; } }
    }
  }

  /** The first pages of the group show the binary's whole pages. */
  lemma FrontIsImage(m: seq<Byte>, img: seq<Byte>, ps: seq<nat>, dp: nat, k: nat, hi: nat, data: nat, aligned: nat)
    requires Agrees(m, img, dp, hi) && k <= |ps| && dp + k <= hi && Maps(ps, |m|) && ps[..k] == Range(dp, k)
    requires data == dp * PAGE && aligned == k * PAGE
    ensures Seen(m, ps)[..aligned] == img[data..data + aligned]
  {
    forall j | 0 <= j < aligned ensures Seen(m, ps)[j] == img[data + j] {
      assert ps[..k][PageOf(j)] == dp + PageOf(j);
      assert At(ps, j) == data + j && SameByte(m, img, data + j);
    }
  }

  /** Bytes of the image in memory. */
  lemma ImageBytes(m: seq<Byte>, img: seq<Byte>, lo: nat, hi: nat, src: nat, len: nat)
    requires Agrees(m, img, lo, hi) && lo * PAGE <= src && src + len <= hi * PAGE
    ensures m[src..src + len] == img[src..src + len]
  {
    forall b: nat | src <= b < src + len ensures m[b] == img[b] { assert SameByte(m, img, b); }
  }

  lemma ImageBytesKept(now: seq<Byte>, was: seq<Byte>, img: seq<Byte>, lo: nat, hi: nat, touched: set<nat>, src: nat, len: nat)
    requires Agrees(was, img, lo, hi) && lo * PAGE <= src && src + len <= hi * PAGE && Untouched(now, was, touched)
    requires forall b: nat {:trigger PageOf(b)} :: src <= b < src + len ==> PageOf(b) !in touched
    ensures now[src..src + len] == img[src..src + len]
  {
    forall b: nat | src <= b < src + len ensures now[b] == img[b] { assert PageOf(b) !in touched && SameByte(was, img, b); }
  }

  ghost predicate EndsWith(t: seq<Byte>, x: seq<Byte>) { |x| <= |t| && t[|t| - |x|..] == x }

  /** The unaligned tail of a binary is at the end. */
  ghost predicate TailPlaced(t: seq<Byte>, t1: seq<Byte>, img: seq<Byte>, data: nat, bsize: nat, aligned: nat) {
    && aligned <= bsize <= |t| == |t1| && data + bsize <= |img|
    && (forall j {:trigger t1[j]} :: 0 <= j < |t| ==>
          t1[j] == if j < |t| - (bsize - aligned) then t[j] else img[data + bsize - (|t| - j)])
  }

  lemma TailIs(t: seq<Byte>, img: seq<Byte>, data: nat, bsize: nat, aligned: nat, src: nat, tail: nat, dst: nat)
    requires aligned <= bsize <= |t| && data + bsize <= |img| && src == data + aligned && tail == bsize - aligned && dst == |t| - tail
    ensures TailPlaced(t, Spliced(t, dst, img[src..src + tail]), img, data, bsize, aligned)
  {
  }

  lemma PlacedMoved(t: seq<Byte>, t1: seq<Byte>, img: seq<Byte>, data: nat, bsize: nat, aligned: nat, dst: nat)
    requires TailPlaced(t, t1, img, data, bsize, aligned) && dst == |t| - bsize && t[..aligned] == img[data..data + aligned]
    ensures EndsWith(Raised(t1, dst, dst + aligned, dst), img[data..data + bsize])
    ensures aligned == 0 ==> EndsWith(t1, img[data..data + bsize])
  {
    var t2 := Raised(t1, dst, dst + aligned, dst);
    forall j | dst <= j < |t| ensures t2[j] == img[data + (j - dst)] {
      if j - dst < aligned { assert t2[j] == t1[j - dst] == t[j - dst] == t[..aligned][j - dst]; } else { assert t2[j] == t1[j]; }
    }
  }

  lemma PlacedCopied(t: seq<Byte>, t1: seq<Byte>, img: seq<Byte>, data: nat, bsize: nat, aligned: nat, dst: nat)
    requires TailPlaced(t, t1, img, data, bsize, aligned) && dst == |t| - bsize
    ensures EndsWith(Spliced(t1, dst, img[data..data + aligned]), img[data..data + bsize])
  {
    var t2 := Spliced(t1, dst, img[data..data + aligned]);
    forall j | dst <= j < |t| ensures t2[j] == img[data + (j - dst)] {
      if j - dst >= aligned { assert t2[j] == t1[j]; }
    }
  }

  /** What building a process did to the books: it keeps pages that were free, and the pages of its
      binary are no longer the image's. */
  ghost predicate Settled(kept: seq<nat>, f: set<nat>, f': set<nat>, o: set<nat>, o': set<nat>, lo: nat, hi: nat) {
    && (forall p: nat :: p in kept ==> p in f)
    && (forall p: nat :: p in f' <==> (p in f || lo <= p < hi) && p !in kept) && |f'| == |f| + (hi - lo) - |kept|
    && (forall p: nat :: p in o' <==> p in o && !(lo <= p < hi))
  }

  /** The pages of a working group are the image's or were free, and are not free any more. */
  lemma WorkPages(ps: seq<nat>, dp: nat, k: nat, np: nat, f: set<nat>, f': set<nat>, owned: set<nat>, n: nat)
    requires Working(ps, dp, k, np, f, f', owned, n)
    ensures forall p: nat :: p in ps ==> dp <= p < dp + k || p in f
    ensures forall p: nat :: dp <= p < dp + k ==> p in ps
    ensures SetOf(ps) !! f'
  {
    forall i | 0 <= i < |ps| ensures dp <= ps[i] < dp + k || ps[i] in f { if i < k { assert ps[..k][i] == dp + i; } }
    forall p: nat | dp <= p < dp + k ensures p in ps { assert ps[..k][p - dp] == p; }
  }

  lemma OwnSettled(ps: seq<nat>, kept: seq<nat>, lo: nat, hi: nat, np: nat, f: set<nat>, f1: set<nat>, f2: set<nat>, f3: set<nat>,
                   o: set<nat>, o': set<nat>, n: nat)
    requires lo <= hi && Working(ps, lo, hi - lo, np, f, f1, o, n) && Taken(kept, f1, f2, n) && |kept| == np
    requires Gone(f2, f3, o, o', SetOf(ps), np)
    ensures Settled(kept, f, f3, o, o', lo, hi)
  {
    WorkPages(ps, lo, hi - lo, np, f, f1, o, n);
  }

  lemma OwnTouched(ps: seq<nat>, lo: nat, hi: nat, f: set<nat>, f1: set<nat>)
    requires (forall p: nat :: p in ps ==> lo <= p < hi || p in f) && forall p: nat :: p in f1 ==> p in f
    ensures SetOf(ps) + f1 + f1 <= f + Span(lo, hi)
  {
  }

  lemma GroupsApart(ds: seq<nat>, ws: seq<nat>, f: set<nat>, f': set<nat>, n: nat)
    requires Taken(ds, f, f', n) && Maps(ws, n) && SetOf(ws) !! f && |ds| == |ws|
    ensures Apart(ds, ws, PageOf(n)) && SetOf(ds) <= f
  {
    forall i, j | 0 <= i < |ds| && 0 <= j < |ws| ensures ds[i] != ws[j] { assert ds[i] in f && ws[j] in SetOf(ws); }
  }

  lemma StillHeld(f: set<nat>, f1: set<nat>, o: set<nat>, lo: nat, hi: nat)
    requires o !! f && (forall p: nat :: p in f1 ==> p in f) && (forall p: nat :: lo <= p < hi ==> p in o)
    ensures Span(lo, hi) !! f1
  {
  }

  lemma FarSettled(ps: seq<nat>, lo: nat, hi: nat, np: nat, f: set<nat>, f1: set<nat>, f2: set<nat>, o: set<nat>, o': set<nat>, n: nat)
    requires lo <= hi && Working(ps, lo, 0, np, f, f1, o, n) && Gone(f1, f2, o, o', Span(lo, hi), hi - lo)
    requires forall p: nat :: lo <= p < hi ==> p in o
    ensures Settled(ps, f, f2, o, o', lo, hi) && SetOf(ps) !! f2
  {
    WorkPages(ps, lo, 0, np, f, f1, o, n);
  }

  lemma FarTouched(ps: seq<nat>, lo: nat, hi: nat, f: set<nat>, f1: set<nat>, f2: set<nat>, o: set<nat>, o': set<nat>)
    requires Settled(ps, f, f2, o, o', lo, hi) && forall p: nat :: p in f1 ==> p in f
    ensures f1 + SetOf(ps) + (SetOf(ps) + f2) <= f + Span(lo, hi)
  {
  }

  /** The process keeps the pages `ps`, which were free and hold its loaded area; only they, other
      free pages and the pages of its binary have been written. */
  ghost predicate Built(format: Format, ps: seq<nat>, h: seq<Byte>, binary: seq<Byte>, np: nat, was: seq<Byte>, now: seq<Byte>,
                        f: set<nat>, f': set<nat>, o: set<nat>, o': set<nat>, lo: nat, hi: nat) {
    && |ps| == np && Maps(ps, |now|) && Settled(ps, f, f', o, o', lo, hi)
    && Seen(now, ps) == AfterLoad(format, h, Area(binary, np * PAGE)) && Untouched(now, was, f + Span(lo, hi))
  }

  /** Behind the binary nothing has been written. */
  lemma BuiltAgrees(format: Format, ps: seq<nat>, h: seq<Byte>, img: seq<Byte>, binary: seq<Byte>, np: nat, was: seq<Byte>, now: seq<Byte>,
                    f: set<nat>, f': set<nat>, o: set<nat>, o': set<nat>, lo: nat, hi: nat, end: nat)
    requires lo <= hi <= end && Agrees(was, img, lo, end) && o !! f && (forall p: nat :: p in o <==> lo <= p < end)
    requires Built(format, ps, h, binary, np, was, now, f, f', o, o', lo, hi)
    ensures Agrees(now, img, hi, end) && (forall p: nat :: p in o' <==> hi <= p < end)
  {
    AgreesKept(now, was, f + Span(lo, hi), img, lo, hi, end);
  }

  lemma SameKip(f: Format, img: seq<Byte>, size: nat, cur: nat, h: seq<Byte>, data: nat)
    requires cur + KIP_HEADER <= size <= |img| && h == HeaderAt(img, cur) && data == AlignDown(cur + KIP_HEADER)
    requires data + f.binary(h) <= |img|
    ensures KipInPlace(f, img, size, cur) == Kip(h, Shifted(img, size, cur)[data..data + f.binary(h)])
  {
  }

  /** A process keeps a group that holds its loaded area. */
  ghost predicate Holds(m: seq<Byte>, f: Format, kept: seq<Block>, k: Kip) {
    && |k.binary| <= f.pages(k.header) * PAGE && Maps(PagesIn(kept), |m|) && Seen(m, PagesIn(kept)) == LoadedArea(f, k)
  }

  /** The pages from `lo` up to `hi` have become free, and those kept are free no more. */
  ghost predicate Stepped(kept: seq<nat>, f: set<nat>, f': set<nat>, lo: nat, hi: nat) {
    && (forall p: nat :: p in kept ==> p in f || lo <= p < hi)
    && (forall p: nat :: p in f' <==> (p in f || lo <= p < hi) && p !in kept) && |f'| == |f| + (hi - lo) - |kept|
  }

  /** The process keeps `kept` for the KIP; only free pages and the image's own have been written. */
  ghost predicate OneLoaded(format: Format, kept: seq<Block>, k: Kip, was: seq<Byte>, now: seq<Byte>, f: set<nat>, f': set<nat>,
                            lo: nat, next: nat, end: nat) {
    && Holds(now, format, kept, k) && |PagesIn(kept)| == format.pages(k.header)
    && Stepped(PagesIn(kept), f, f', lo, next) && Untouched(now, was, f + Span(lo, end))
  }

  lemma StepBooks(kept: seq<nat>, f: set<nat>, f1: set<nat>, f2: set<nat>, o: set<nat>, o1: set<nat>, o2: set<nat>, lo: nat, mid: nat, hi: nat)
    requires lo <= mid <= hi && Gone(f, f1, o, o1, Span(lo, mid), mid - lo) && Settled(kept, f1, f2, o1, o2, mid, hi)
    ensures Stepped(kept, f, f2, lo, hi)
  {
  }

  lemma StepTouched(was: seq<Byte>, moved: seq<Byte>, now: seq<Byte>, f: set<nat>, f1: set<nat>, lo: nat, mid: nat, hi: nat, end: nat)
    requires Untouched(moved, was, f + Span(lo, end)) && Untouched(now, moved, f1 + Span(mid, hi))
    requires lo <= mid <= hi <= end && forall p: nat :: p in f1 ==> p in f || lo <= p < mid
    ensures Untouched(now, was, f + Span(lo, end))
  {
    UntouchedTrans(was, moved, now, f + Span(lo, end), f1 + Span(mid, hi));
    UntouchedMore(was, now, f + Span(lo, end) + (f1 + Span(mid, hi)), f + Span(lo, end));
  }

  // ----- What is built -----

  function Headers(ks: seq<Kip>): seq<seq<Byte>> {
    if ks == [] then [] else Headers(ks[..|ks| - 1]) + [ks[|ks| - 1].header]
  }

  lemma HeadersNext(ks: seq<Kip>, k: Kip)
    ensures Headers(ks + [k]) == Headers(ks) + [k.header]
  {
    assert (ks + [k])[..|ks|] == ks;
  }

  function TotalPages(f: Format, ks: seq<Kip>): nat {
    if ks == [] then 0 else TotalPages(f, ks[..|ks| - 1]) + f.pages(ks[|ks| - 1].header)
  }

  lemma TotalNext(f: Format, ks: seq<Kip>, k: Kip)
    ensures TotalPages(f, ks + [k]) == TotalPages(f, ks) + f.pages(k.header)
  {
    assert (ks + [k])[..|ks|] == ks;
  }

  lemma {:induction false} TotalPrefix(f: Format, ks: seq<Kip>, ls: seq<Kip>)
    ensures TotalPages(f, ks) <= TotalPages(f, ks + ls)
    decreases |ls|
  {
    if ls == [] { assert ks + ls == ks; }
    else {
      var init, last := ls[..|ls| - 1], ls[|ls| - 1];
      assert ks + ls == (ks + init) + [last];
      TotalNext(f, ks + init, last);
      TotalPrefix(f, ks, init);
    }
  }

  /** The KIPs `all` are those done and those the walk will read. */
  ghost predicate Reading(f: Format, img: seq<Byte>, size: nat, cur: nat, m: nat, done: seq<Kip>, all: seq<Kip>, v: Verdict) {
    size <= |img| && done + InPlace(f, img, size, cur, m) == all && Judge(f, img, size, cur, m) == v
  }

  lemma ReadingNext(f: Format, img: seq<Byte>, size: nat, cur: nat, m: nat, m': nat, done: seq<Kip>, all: seq<Kip>, v: Verdict)
    requires Reading(f, img, size, cur, m, done, all, v) && m == m' + 1
    ensures Check(f, img, size, cur) != Loaded ==> v == Check(f, img, size, cur)
    ensures Check(f, img, size, cur) == Loaded ==>
              Reading(f, Shifted(img, size, cur), size, NextInPlace(f, img, cur), m', done + [KipInPlace(f, img, size, cur)], all, v)
  {
    if Check(f, img, size, cur) == Loaded {
      var k, rest := KipInPlace(f, img, size, cur), InPlace(f, Shifted(img, size, cur), size, NextInPlace(f, img, cur), m');
      assert done + ([k] + rest) == (done + [k]) + rest;
    }
  }

  /** The pages the processes keep. */
  ghost function Held(kept: seq<seq<Block>>): set<nat> {
    if kept == [] then {} else Held(kept[..|kept| - 1]) + SetOf(PagesIn(kept[|kept| - 1]))
  }

  lemma HeldNext(kept: seq<seq<Block>>, g: seq<Block>)
    ensures Held(kept + [g]) == Held(kept) + SetOf(PagesIn(g))
  {
    assert (kept + [g])[..|kept|] == kept;
  }

  lemma {:induction false} HeldIn(kept: seq<seq<Block>>, i: nat)
    requires i < |kept|
    ensures SetOf(PagesIn(kept[i])) <= Held(kept)
  {
    if i < |kept| - 1 { HeldIn(kept[..|kept| - 1], i); }
  }

  /** Every process keeps a group of its own that holds its loaded area. */
  ghost predicate Holding(m: seq<Byte>, f: Format, kept: seq<seq<Block>>, ks: seq<Kip>) {
    && |kept| == |ks| && (forall i :: 0 <= i < |kept| ==> Holds(m, f, kept[i], ks[i]))
    && (forall i, j :: 0 <= i < j < |kept| ==> SetOf(PagesIn(kept[i])) !! SetOf(PagesIn(kept[j])))
  }

  lemma HoldingNext(was: seq<Byte>, now: seq<Byte>, f: Format, kept: seq<seq<Block>>, ks: seq<Kip>, g: seq<Block>, k: Kip, touched: set<nat>)
    requires Holding(was, f, kept, ks) && Untouched(now, was, touched) && Held(kept) !! touched
    requires Holds(now, f, g, k) && SetOf(PagesIn(g)) !! Held(kept)
    ensures Holding(now, f, kept + [g], ks + [k])
  {
    forall i | 0 <= i < |kept| ensures Holds(now, f, kept[i], ks[i]) && SetOf(PagesIn(kept[i])) !! SetOf(PagesIn(g)) {
      HeldIn(kept, i);
      assert Holds(was, f, kept[i], ks[i]);
      SeenSame(now, was, touched, PagesIn(kept[i]));
    }
  }

  /** Of the pages `f` and those below `lo`, just the kept ones are not free, and no more than
      `total` of them are kept. */
  ghost predicate Books(f: set<nat>, f': set<nat>, kept: seq<seq<Block>>, lo: nat, total: nat) {
    && (forall p: nat :: p in Held(kept) ==> p in f || p < lo)
    && (forall p: nat :: p in f' <==> (p in f || p < lo) && p !in Held(kept)) && |f| <= |f'| + total
  }

  lemma BooksApart(f: set<nat>, f': set<nat>, kept: seq<seq<Block>>, g: seq<Block>, lo: nat, next: nat, total: nat, hi: nat)
    requires Books(f, f', kept, lo, total) && (forall p: nat :: p in f ==> hi <= p) && next <= hi
    requires forall p: nat :: p in PagesIn(g) ==> p in f' || lo <= p < next
    ensures Held(kept) !! f' + Span(lo, hi) && SetOf(PagesIn(g)) !! Held(kept)
  {
  }

  lemma BooksNext(format: Format, f: set<nat>, f1: set<nat>, f2: set<nat>, kept: seq<seq<Block>>, g: seq<Block>, lo: nat, next: nat, done: seq<Kip>, k: Kip)
    requires Books(f, f1, kept, lo, TotalPages(format, done)) && lo <= next && Stepped(PagesIn(g), f1, f2, lo, next)
    requires |PagesIn(g)| == format.pages(k.header) && forall p: nat :: p in f ==> next <= p
    ensures Books(f, f2, kept + [g], next, TotalPages(format, done + [k]))
    ensures TotalPages(format, done + [k]) == TotalPages(format, done) + format.pages(k.header)
  {
    HeldNext(kept, g);
    TotalNext(format, done, k);
  }

  /** One more process keeps its group, and all others keep theirs. */
  lemma NextKept(was: seq<Byte>, now: seq<Byte>, format: Format, kept: seq<seq<Block>>, done: seq<Kip>, g: seq<Block>, k: Kip,
                 f: set<nat>, f1: set<nat>, f2: set<nat>, lo: nat, next: nat, end: nat)
    requires Holding(was, format, kept, done) && Books(f, f1, kept, lo, TotalPages(format, done)) && (forall p: nat :: p in f ==> end <= p)
    requires lo <= next <= end && OneLoaded(format, g, k, was, now, f1, f2, lo, next, end)
    ensures Holding(now, format, kept + [g], done + [k]) && Books(f, f2, kept + [g], next, TotalPages(format, done + [k]))
    ensures TotalPages(format, done + [k]) == TotalPages(format, done) + format.pages(k.header)
  {
    BooksApart(f, f1, kept, g, lo, next, TotalPages(format, done), end);
    HoldingNext(was, now, format, kept, done, g, k, f1 + Span(lo, end));
    BooksNext(format, f, f1, f2, kept, g, lo, next, done, k);
  }

  /** The KIPs read, what the processes keep, what is free, and what is reserved beyond `lo` pages. */
  ghost predicate Walked(now: seq<Byte>, format: Format, img: seq<Byte>, size: nat, cur: nat, m: nat, kept: seq<seq<Block>>, done: seq<Kip>,
                         all: seq<Kip>, v: Verdict, f: set<nat>, f': set<nat>, lo: nat, end: nat, owed: int) {
    && Reading(format, img, size, cur, m, done, all, v) && Holding(now, format, kept, done)
    && Books(f, f', kept, lo, TotalPages(format, done)) && (forall p: nat :: p in f ==> end <= p)
    && owed == (TotalPages(format, done) - lo) * PAGE
  }

  lemma WalkStarts(now: seq<Byte>, format: Format, img: seq<Byte>, size: nat, n: nat, f: set<nat>, end: nat)
    requires size <= |img| && forall p: nat :: p in f ==> end <= p
    ensures PageOf(INI_HEADER) == 0
    ensures Walked(now, format, img, size, INI_HEADER, n, [], [], InPlace(format, img, size, INI_HEADER, n),
                   Judge(format, img, size, INI_HEADER, n), f, f, 0, end, 0)
  {
    var all := InPlace(format, img, size, INI_HEADER, n);
    assert [] + all == all;
  }

  lemma WalkEnds(now: seq<Byte>, format: Format, img: seq<Byte>, size: nat, cur: nat, kept: seq<seq<Block>>, done: seq<Kip>,
                 all: seq<Kip>, v: Verdict, f: set<nat>, f': set<nat>, lo: nat, end: nat, owed: int)
    requires Walked(now, format, img, size, cur, 0, kept, done, all, v, f, f', lo, end, owed)
    ensures done == all && v == Loaded
  {
    assert done + [] == done;
  }

  lemma WalkedNext(was: seq<Byte>, now: seq<Byte>, format: Format, img: seq<Byte>, size: nat, cur: nat, next: nat, m: nat, m': nat,
                   kept: seq<seq<Block>>, done: seq<Kip>, all: seq<Kip>, v: Verdict, f: set<nat>, f1: set<nat>, f2: set<nat>,
                   lo: nat, hi: nat, end: nat, owed: int, owed': int, g: seq<Block>, k: Kip)
    requires Walked(was, format, img, size, cur, m, kept, done, all, v, f, f1, lo, end, owed) && m == m' + 1
    requires Check(format, img, size, cur) == Loaded && k == KipInPlace(format, img, size, cur) && next == NextInPlace(format, img, cur)
    requires lo <= hi <= end && OneLoaded(format, g, k, was, now, f1, f2, lo, hi, end)
    requires owed' == owed + (format.pages(k.header) - (hi - lo)) * PAGE
    ensures Walked(now, format, Shifted(img, size, cur), size, next, m', kept + [g], done + [k], all, v, f, f2, hi, end, owed')
    ensures Headers(done + [k]) == Headers(done) + [k.header]
  {
    ReadingNext(format, img, size, cur, m, m', done, all, v);
    NextKept(was, now, format, kept, done, g, k, f, f1, f2, lo, hi, end);
    HeadersNext(done, k);
  }

  /** The walk stops with the verdict on the image, or, if the allocator fails, with less than twice
      the pages of all processes free at its start. */
  lemma WalkStops(now: seq<Byte>, format: Format, img: seq<Byte>, size: nat, cur: nat, m: nat, kept: seq<seq<Block>>, done: seq<Kip>,
                  all: seq<Kip>, v: Verdict, f: set<nat>, f': set<nat>, lo: nat, end: nat, owed: int)
    requires Walked(now, format, img, size, cur, m, kept, done, all, v, f, f', lo, end, owed) && m > 0
    ensures Check(format, img, size, cur) != Loaded ==> v == Check(format, img, size, cur)
    ensures Check(format, img, size, cur) == Loaded && |f'| < 2 * format.pages(HeaderAt(img, cur)) ==> |f| < 2 * TotalPages(format, all)
  {
    if Check(format, img, size, cur) == Loaded {
      var k, rest := KipInPlace(format, img, size, cur), InPlace(format, Shifted(img, size, cur), size, NextInPlace(format, img, cur), m - 1);
      assert InPlace(format, img, size, cur, m) == [k] + rest;
      MoreThanOne(format, done, k, rest, all);
    }
  }

  lemma MoreThanOne(f: Format, done: seq<Kip>, k: Kip, rest: seq<Kip>, all: seq<Kip>)
    requires all == done + ([k] + rest)
    ensures TotalPages(f, done) + f.pages(k.header) <= TotalPages(f, all)
  {
    assert all == (done + [k]) + rest;
    TotalNext(f, done, k);
    TotalPrefix(f, done + [k], rest);
  }

  /** Every page of the area, and nothing else, exactly once. */
  ghost predicate OnceEach(ps: seq<nat>) { forall p: nat :: multiset(ps)[p] == if p < AREA_PAGES then 1 else 0 }

  /** The books with the rest of the area, which was closed first. */
  lemma BooksWhole(f: set<nat>, f1: set<nat>, f2: set<nat>, kept: seq<seq<Block>>, lo: nat, total: nat)
    requires (forall p: nat :: p in f1 <==> p in f || lo <= p < AREA_PAGES) && |f| <= |f1| && lo <= AREA_PAGES
    requires Books(f1, f2, kept, lo, total)
    ensures Books(f, f2, kept, AREA_PAGES, total)
  {
  }
}
