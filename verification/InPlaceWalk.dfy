/** The compacting walk of `CreateProcesses` on values, against the plain walk.

    The walk keeps using the original end of the image after it has moved the remaining bytes
    down.  It reads the same KIPs as the plain walk, whatever lies behind the image, exactly if the
    last binary ends within the image size, which neither walk checks. */
module InPlaceWalk {
  import opened InitialImage

  /** The image after the bytes behind the header at `cur` have moved down to a page boundary. */
  function Shifted(img: seq<Byte>, size: nat, cur: nat): (r: seq<Byte>)
    requires cur + KIP_HEADER <= size <= |img|
    ensures |r| == |img|
  {
    MovedDown(img, AlignDown(cur + KIP_HEADER), cur + KIP_HEADER, size)
  }

  /** The bytes from `data` to `size` moved down to `to`. */
  function MovedDown(img: seq<Byte>, to: nat, data: nat, size: nat): seq<Byte>
    requires to <= data <= size <= |img|
  {
    seq(|img|, i requires 0 <= i < |img| => if to <= i < to + (size - data) then img[i + (data - to)] else img[i])
  }

  /** Headers and binaries as the compacting walk reads them. */
  function InPlace(f: Format, img: seq<Byte>, size: nat, cur: nat, n: nat): seq<Kip>
    requires size <= |img|
    decreases n
  {
    if n == 0 || cur + KIP_HEADER > size then []
    else [KipInPlace(f, img, size, cur)] + InPlace(f, Shifted(img, size, cur), size, NextInPlace(f, img, cur), n - 1)
  }

  function KipInPlace(f: Format, img: seq<Byte>, size: nat, cur: nat): Kip
    requires cur + KIP_HEADER <= size <= |img|
  {
    Kip(HeaderAt(img, cur), Bytes(Shifted(img, size, cur), AlignDown(cur + KIP_HEADER), f.binary(HeaderAt(img, cur))))
  }

  /** Where the compacting walk stands after the KIP at `cur`. */
  function NextInPlace(f: Format, img: seq<Byte>, cur: nat): nat
    requires cur + KIP_HEADER <= |img|
  {
    AlignDown(cur + KIP_HEADER) + f.binary(HeaderAt(img, cur))
  }

  function Bytes(img: seq<Byte>, at: nat, len: nat): seq<Byte> {
    if at + len <= |img| then img[at..at + len] else []
  }

  /** Where the compacting walk stands in the end. */
  function InPlaceEnd(f: Format, img: seq<Byte>, size: nat, cur: nat, n: nat): nat
    requires size <= |img|
    decreases n
  {
    if n == 0 || cur + KIP_HEADER > size then cur
    else InPlaceEnd(f, Shifted(img, size, cur), size, NextInPlace(f, img, cur), n - 1)
  }

  /** The bytes from `pos` to the size in `orig` are those from `cur` on in `img`. */
  ghost predicate Tracks(orig: seq<Byte>, img: seq<Byte>, size: nat, pos: nat, cur: nat) {
    && size <= |orig| == |img| && cur <= pos
    && (forall j {:trigger img[j]} :: cur <= j < size - (pos - cur) ==> img[j] == orig[j + (pos - cur)])
  }

  lemma ShiftTracks(orig: seq<Byte>, img: seq<Byte>, size: nat, pos: nat, cur: nat)
    requires Tracks(orig, img, size, pos, cur) && pos + KIP_HEADER <= size
    ensures Tracks(orig, Shifted(img, size, cur), size, pos + KIP_HEADER, AlignDown(cur + KIP_HEADER))
    ensures HeaderAt(img, cur) == HeaderAt(orig, pos)
  {
  }

  /** The walks agree while the binaries end within the size, and the compacting walk is never
      ahead of the plain one. */
  lemma {:induction false} InPlaceTracks(f: Format, orig: seq<Byte>, img: seq<Byte>, size: nat, pos: nat, cur: nat, n: nat)
    requires Tracks(orig, img, size, pos, cur) && Walks(f, orig, size, pos, n)
    ensures InPlaceEnd(f, img, size, cur, n) + (pos - cur) <= WalkEnd(f, orig, size, pos, n)
    ensures WalkEnd(f, orig, size, pos, n) <= size ==> InPlace(f, img, size, cur, n) == Kips(f, orig, size, pos, n)
    decreases n
  {
    if n > 0 {
      ShiftTracks(orig, img, size, pos, cur);
      var h, data, img' := HeaderAt(orig, pos), AlignDown(cur + KIP_HEADER), Shifted(img, size, cur);
      WalkEndAfter(f, orig, size, NextKip(f, orig, pos), n - 1);
      InPlaceTracks(f, orig, img', size, NextKip(f, orig, pos), data + f.binary(h), n - 1);
      if WalkEnd(f, orig, size, pos, n) <= size {
        assert Bytes(img', data, f.binary(h)) == orig[pos + KIP_HEADER..NextKip(f, orig, pos)];
      }
    }
  }

  /** The first binary never starts on a page boundary, so something is always moved. */
  lemma AlwaysMoves(f: Format, img: seq<Byte>, size: nat, n: nat)
    requires size <= |img| && Walks(f, img, size, INI_HEADER, n) && n > 0
    ensures InPlaceEnd(f, img, size, INI_HEADER, n) < WalkEnd(f, img, size, INI_HEADER, n)
  {
    ShiftTracks(img, img, size, INI_HEADER, INI_HEADER);
    InPlaceTracks(f, img, Shifted(img, size, INI_HEADER), size, NextKip(f, img, INI_HEADER),
                  AlignDown(INI_HEADER + KIP_HEADER) + f.binary(HeaderAt(img, INI_HEADER)), n - 1);
  }

  /** The images agree except at `e`. */
  ghost predicate DifferAt(a: seq<Byte>, b: seq<Byte>, e: nat) {
    |a| == |b| && forall j :: 0 <= j < |a| && j != e ==> a[j] == b[j]
  }

  /** A byte behind the size that the compacting walk does not reach does not matter to it. */
  lemma {:induction false} InPlaceIgnores(f: Format, a: seq<Byte>, b: seq<Byte>, size: nat, cur: nat, n: nat, e: nat)
    requires DifferAt(a, b, e) && size <= e < |a| && InPlaceEnd(f, a, size, cur, n) <= e
    ensures InPlace(f, b, size, cur, n) == InPlace(f, a, size, cur, n)
    decreases n
  {
    if n > 0 && cur + KIP_HEADER <= size {
      var data, a', b' := AlignDown(cur + KIP_HEADER), Shifted(a, size, cur), Shifted(b, size, cur);
      var m := f.binary(HeaderAt(a, cur));
      assert HeaderAt(b, cur) == HeaderAt(a, cur);
      assert DifferAt(a', b', e);
      assert data + m <= e;
      assert Bytes(b', data, m) == Bytes(a', data, m);
      InPlaceIgnores(f, a', b', size, data + m, n - 1, e);
    }
  }

  /** The plain walk does see the last byte of the last binary. */
  lemma {:induction false} PlainSees(f: Format, a: seq<Byte>, b: seq<Byte>, size: nat, cur: nat, n: nat, e: nat)
    requires DifferAt(a, b, e) && size <= e < |a| && a[e] != b[e]
    requires Walks(f, a, size, cur, n) && WalkEnd(f, a, size, cur, n) == e + 1 && n > 0
    ensures Walks(f, b, size, cur, n) && WalkEnd(f, b, size, cur, n) == e + 1
    ensures Kips(f, b, size, cur, n) != Kips(f, a, size, cur, n)
    decreases n
  {
    assert HeaderAt(b, cur) == HeaderAt(a, cur);
    var next := NextKip(f, a, cur);
    if n == 1 {
      assert Kips(f, a, size, cur, 1)[0] == KipAt(f, a, cur) && Kips(f, b, size, cur, 1)[0] == KipAt(f, b, cur);
      assert KipAt(f, a, cur).binary[e - (cur + KIP_HEADER)] == a[e];
      assert KipAt(f, b, cur).binary[e - (cur + KIP_HEADER)] == b[e];
    } else {
      WalkEndAfter(f, a, size, next, n - 1);
      PlainSees(f, a, b, size, next, n - 1, e);
      assert Kips(f, a, size, cur, n)[1..] == Kips(f, a, size, next, n - 1);
      assert Kips(f, b, size, cur, n)[1..] == Kips(f, b, size, next, n - 1);
    }
  }

  // ----- Exactly when the walks agree -----

  /** The images agree below the size. */
  ghost predicate SameBelow(a: seq<Byte>, b: seq<Byte>, size: nat) {
    size <= |a| == |b| && forall j :: 0 <= j < size ==> a[j] == b[j]
  }

  lemma {:induction false} SameEnds(f: Format, a: seq<Byte>, b: seq<Byte>, size: nat, cur: nat, n: nat)
    requires SameBelow(a, b, size) && Walks(f, a, size, cur, n)
    ensures Walks(f, b, size, cur, n) && WalkEnd(f, b, size, cur, n) == WalkEnd(f, a, size, cur, n)
    decreases n
  {
    if n > 0 {
      assert HeaderAt(b, cur) == HeaderAt(a, cur);
      SameEnds(f, a, b, size, NextKip(f, a, cur), n - 1);
    }
  }

  /** Both walks of the whole image read the same headers and binaries. */
  ghost predicate Agree(f: Format, img: seq<Byte>, size: nat, n: nat) {
    && size <= |img| && Walks(f, img, size, INI_HEADER, n) && WalkEnd(f, img, size, INI_HEADER, n) <= |img|
    && InPlace(f, img, size, INI_HEADER, n) == Kips(f, img, size, INI_HEADER, n)
  }

  lemma PackedAgrees(f: Format, img: seq<Byte>, size: nat, n: nat)
    requires size <= |img| && Packed(f, img, size, INI_HEADER, n)
    ensures Agree(f, img, size, n)
  {
    InPlaceTracks(f, img, img, size, INI_HEADER, INI_HEADER, n);
  }

  lemma OverrunMisreads(f: Format, img: seq<Byte>, size: nat, n: nat) returns (b: seq<Byte>)
    requires size <= |img| && Walks(f, img, size, INI_HEADER, n) && n > 0
    requires size < WalkEnd(f, img, size, INI_HEADER, n) <= |img|
    ensures SameBelow(img, b, size) && !Agree(f, b, size, n)
  {
    var e := WalkEnd(f, img, size, INI_HEADER, n) - 1;
    var c := img[e := if img[e] == 0 then 1 else 0];
    AlwaysMoves(f, img, size, n);
    InPlaceIgnores(f, img, c, size, INI_HEADER, n, e);
    PlainSees(f, img, c, size, INI_HEADER, n, e);
    b := if Agree(f, img, size, n) then c else img;
  }

  /** Given the bytes below the size, the two walks agree whatever follows them exactly if the last
      binary, too, ends within the size. */
  lemma WalksAgreeExactly(f: Format, img: seq<Byte>, size: nat, n: nat)
    requires size <= |img| && Walks(f, img, size, INI_HEADER, n) && WalkEnd(f, img, size, INI_HEADER, n) <= |img| && n > 0
    ensures (forall b {:trigger SameBelow(img, b, size)} :: SameBelow(img, b, size) ==> Agree(f, b, size, n))
            <==> Packed(f, img, size, INI_HEADER, n)
  {
    if Packed(f, img, size, INI_HEADER, n) {
      forall b | SameBelow(img, b, size) ensures Agree(f, b, size, n) {
        SameEnds(f, img, b, size, INI_HEADER, n);
        PackedAgrees(f, b, size, n);
      }
    } else {
      var b := OverrunMisreads(f, img, size, n);
    }
  }

  // ----- How far the loader gets -----

  datatype Verdict = Loaded | BadHeader | Misfit | Overrun | NoMemory

  /** What stops the compacting walk at `cur`: a bad header, a process area that cannot hold the
      binary, or a binary that reaches behind the last page of the image. */
  function Check(f: Format, img: seq<Byte>, size: nat, cur: nat): Verdict
    requires size <= |img|
  {
    if cur + KIP_HEADER > size || !f.valid(HeaderAt(img, cur)) then BadHeader
    else if !Fits(f, HeaderAt(img, cur)) then Misfit
    else if NextInPlace(f, img, cur) > AlignUp(size) then Overrun
    else Loaded
  }

  /** What stops it at all. */
  function Judge(f: Format, img: seq<Byte>, size: nat, cur: nat, n: nat): Verdict
    requires size <= |img|
    decreases n
  {
    if n == 0 then Loaded
    else if Check(f, img, size, cur) != Loaded then Check(f, img, size, cur)
    else Judge(f, Shifted(img, size, cur), size, NextInPlace(f, img, cur), n - 1)
  }

  predicate Fits(f: Format, h: seq<Byte>) { f.pages(h) > 0 && f.binary(h) <= f.pages(h) * PAGE }

  /** For an image that the header walk accepts, the compacting walk meets no bad header, and it
      reaches behind the image's last page exactly if its end lies there. */
  lemma {:induction false} WalkedJudged(f: Format, orig: seq<Byte>, img: seq<Byte>, size: nat, pos: nat, cur: nat, n: nat)
    requires Tracks(orig, img, size, pos, cur) && Walks(f, orig, size, pos, n) && (n == 0 ==> cur <= AlignUp(size))
    ensures Judge(f, img, size, cur, n) in {Loaded, Misfit, Overrun}
    ensures Judge(f, img, size, cur, n) == Loaded ==> InPlaceEnd(f, img, size, cur, n) <= AlignUp(size)
    ensures Judge(f, img, size, cur, n) == Overrun ==> AlignUp(size) < InPlaceEnd(f, img, size, cur, n)
    ensures WalkEnd(f, orig, size, pos, n) <= size ==> Judge(f, img, size, cur, n) != Overrun
    decreases n
  {
    if n > 0 {
      ShiftTracks(orig, img, size, pos, cur);
      InPlaceTracks(f, orig, img, size, pos, cur, n);
      var next := NextInPlace(f, img, cur);
      if n > 1 || next <= AlignUp(size) {
        WalkedJudged(f, orig, Shifted(img, size, cur), size, NextKip(f, orig, pos), next, n - 1);
      }
    }
  }

  /** Every process area can hold its binary. */
  predicate WalkFits(f: Format, img: seq<Byte>, end: nat, cur: nat, n: nat)
    requires end <= |img| && Walks(f, img, end, cur, n)
    decreases n
  {
    n == 0 || (Fits(f, HeaderAt(img, cur)) && WalkFits(f, img, end, NextKip(f, img, cur), n - 1))
  }

  lemma {:induction false} FittingJudged(f: Format, orig: seq<Byte>, img: seq<Byte>, size: nat, pos: nat, cur: nat, n: nat)
    requires Tracks(orig, img, size, pos, cur) && Walks(f, orig, size, pos, n) && WalkFits(f, orig, size, pos, n)
    ensures Judge(f, img, size, cur, n) != Misfit
    decreases n
  {
    if n > 0 {
      ShiftTracks(orig, img, size, pos, cur);
      FittingJudged(f, orig, Shifted(img, size, cur), size, NextKip(f, orig, pos), NextInPlace(f, img, cur), n - 1);
    }
  }

  /** A packed image whose processes can hold their binaries loads, and loads what the plain walk reads. */
  lemma PackedLoads(f: Format, img: seq<Byte>, size: nat, n: nat)
    requires size <= |img| && Packed(f, img, size, INI_HEADER, n) && WalkFits(f, img, size, INI_HEADER, n) && n > 0
    ensures Judge(f, img, size, INI_HEADER, n) == Loaded
    ensures InPlace(f, img, size, INI_HEADER, n) == Kips(f, img, size, INI_HEADER, n)
  {
    WalkedJudged(f, img, img, size, INI_HEADER, INI_HEADER, n);
    FittingJudged(f, img, img, size, INI_HEADER, INI_HEADER, n);
    PackedAgrees(f, img, size, n);
  }
}
