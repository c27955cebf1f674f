/** The initial-process image: a header and a packed sequence of KIPs (kernel initial processes),
    and the plain walk over it. */
module InitialImage {

  const PAGE: nat := 0x1000
  const INI_HEADER: nat := 0x10
  const KIP_HEADER: nat := 0x100
  const AREA: nat := 0xC0_0000

  type Byte = b: nat | b < 256

  /** The largest multiple of the page size up to `x`. */
  function AlignDown(x: nat): (r: nat)
    ensures r <= x < r + PAGE
  {
    x - x % PAGE
  }

  function AlignUp(x: nat): (r: nat)
    ensures x <= r < x + PAGE
  {
    AlignDown(x + PAGE - 1)
  }

  predicate Aligned(x: nat) { AlignDown(x) == x }

  /** What a KIP header says: whether it is valid, the size of the compressed binary behind it, the
      number of code pages of the process, how much secure memory the process needs, and what loading
      makes of the process area. */
  datatype Format = Format(
    valid: seq<Byte> -> bool,
    binary: seq<Byte> -> nat,
    pages: seq<Byte> -> nat,
    secure: seq<Byte> -> nat,
    load: (seq<Byte>, seq<Byte>) -> seq<Byte>)

  // ----- The plain walk -----

  datatype Kip = Kip(header: seq<Byte>, binary: seq<Byte>)

  /** The bytes of the KIP header at `cur`. */
  function HeaderAt(img: seq<Byte>, cur: nat): (h: seq<Byte>)
    requires cur + KIP_HEADER <= |img|
    ensures |h| == KIP_HEADER
  {
    img[cur..cur + KIP_HEADER]
  }

  /** `n` KIPs follow from `cur`, each header within `end` and valid. */
  predicate Walks(f: Format, img: seq<Byte>, end: nat, cur: nat, n: nat)
    requires end <= |img|
    decreases n
  {
    n == 0 || (cur + KIP_HEADER <= end && f.valid(HeaderAt(img, cur)) && Walks(f, img, end, NextKip(f, img, cur), n - 1))
  }

  function NextKip(f: Format, img: seq<Byte>, cur: nat): nat
    requires cur + KIP_HEADER <= |img|
  {
    cur + KIP_HEADER + f.binary(HeaderAt(img, cur))
  }

  function KipAt(f: Format, img: seq<Byte>, cur: nat): (k: Kip)
    requires cur + KIP_HEADER <= |img| && NextKip(f, img, cur) <= |img|
    ensures |k.header| == KIP_HEADER
  {
    Kip(HeaderAt(img, cur), img[cur + KIP_HEADER..NextKip(f, img, cur)])
  }

  /** Where the walk ends. */
  function WalkEnd(f: Format, img: seq<Byte>, end: nat, cur: nat, n: nat): nat
    requires end <= |img| && Walks(f, img, end, cur, n)
    decreases n
  {
    if n == 0 then cur else WalkEnd(f, img, end, NextKip(f, img, cur), n - 1)
  }

  /** Every header is valid and every binary, the last one included, lies within `end`. */
  predicate Packed(f: Format, img: seq<Byte>, end: nat, cur: nat, n: nat)
    requires end <= |img|
  {
    Walks(f, img, end, cur, n) && WalkEnd(f, img, end, cur, n) <= end
  }

  lemma {:induction false} WalkEndAfter(f: Format, img: seq<Byte>, end: nat, cur: nat, n: nat)
    requires end <= |img| && Walks(f, img, end, cur, n)
    ensures cur <= WalkEnd(f, img, end, cur, n)
    decreases n
  {
    if n > 0 { WalkEndAfter(f, img, end, NextKip(f, img, cur), n - 1); }
  }

  /** The KIPs the walk passes; the last binary may reach behind `end`. */
  function Kips(f: Format, img: seq<Byte>, end: nat, cur: nat, n: nat): (ks: seq<Kip>)
    requires end <= |img| && Walks(f, img, end, cur, n) && WalkEnd(f, img, end, cur, n) <= |img|
    ensures |ks| == n
    decreases n
  {
    if n == 0 then []
    else
      WalkEndAfter(f, img, end, NextKip(f, img, cur), n - 1);
      [KipAt(f, img, cur)] + Kips(f, img, end, NextKip(f, img, cur), n - 1)
  }

  function SumSecure(f: Format, img: seq<Byte>, end: nat, cur: nat, n: nat): nat
    requires end <= |img| && Walks(f, img, end, cur, n)
    decreases n
  {
    if n == 0 then 0 else f.secure(HeaderAt(img, cur)) + SumSecure(f, img, end, NextKip(f, img, cur), n - 1)
  }

  /** The walk of `LoadInitialProcessBinaryHeader`; it aborts at a bad header. */
  method LoadHeader(f: Format, image: array<Byte>, size: nat, n: nat) returns (ok: bool, secure: nat)
    requires size <= image.Length
    ensures ok <==> Walks(f, image[..], size, INI_HEADER, n)
    ensures ok ==> secure == SumSecure(f, image[..], size, INI_HEADER, n)
  {
    ghost var img := image[..];
    var current: nat, i: nat := INI_HEADER, 0;
    secure := 0;
    while i < n
      invariant i <= n
      invariant Walks(f, img, size, current, n - i) <==> Walks(f, img, size, INI_HEADER, n)
      invariant Walks(f, img, size, INI_HEADER, n) ==>
                  secure + SumSecure(f, img, size, current, n - i) == SumSecure(f, img, size, INI_HEADER, n)
    {
      if current + KIP_HEADER > size { return false, 0; }
      var h := image[current..current + KIP_HEADER];
      assert h == HeaderAt(img, current);
      if !f.valid(h) { return false, 0; }
      secure := secure + f.secure(h);
      current := current + KIP_HEADER + f.binary(h);
      i := i + 1;
    }
    return true, secure;
  }
}
