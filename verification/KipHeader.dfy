/** `KInitialProcessHeader`: the fields of a KIP header that decide the load, and an image that the
    header walk accepts and the compacting walk misreads. */
module KipHeader {
  import opened InitialImage
  import opened InPlaceWalk

  const KIP_MAGIC: nat := 0x3150_494B
  const INI_MAGIC: nat := 0x3149_4E49

  /** Unsigned 32-bit wrap-around. */
  function Wrap32(x: nat): (r: nat)
    ensures r <= x && r < 0x1_0000_0000
  {
    if x < 0x1_0000_0000 then x else Wrap32(x - 0x1_0000_0000)
  }

  /** Alignment of a 32-bit sum. */
  function AlignUp32(x: nat): nat { AlignDown(Wrap32(x + PAGE - 1)) }

  /** The little-endian word at offset `o`. */
  function WordAt(h: seq<Byte>, o: nat): nat {
    if o + 4 <= |h| then h[o] as nat + 0x100 * h[o + 1] as nat + 0x1_0000 * h[o + 2] as nat + 0x100_0000 * h[o + 3] as nat else 0
  }

  predicate IsKip(h: seq<Byte>) {
    WordAt(h, 0) == KIP_MAGIC
  }

  /** The compressed sizes of the three segments, added in 32 bits. */
  function BinarySize(h: seq<Byte>): nat {
    Wrap32(WordAt(h, 0x28) + WordAt(h, 0x38) + WordAt(h, 0x48))
  }

  /** `code_num_pages`: up to the end of the bss, or of the data if there is no bss. */
  function CodePages(h: seq<Byte>): nat {
    ((if WordAt(h, 0x54) > 0 then WordAt(h, 0x50) + WordAt(h, 0x54) else WordAt(h, 0x40) + WordAt(h, 0x44)) + PAGE - 1) / PAGE
  }

  /** The checks of `MakeCreateProcessParameter` on the segments; sums of two 32-bit numbers do not wrap there. */
  predicate SegmentsOk(h: seq<Byte>) {
    && WordAt(h, 0x20) == 0 && Aligned(WordAt(h, 0x30)) && Aligned(WordAt(h, 0x40))
    && WordAt(h, 0x20) + AlignUp(WordAt(h, 0x24)) <= WordAt(h, 0x30) && WordAt(h, 0x30) + AlignUp(WordAt(h, 0x34)) <= WordAt(h, 0x40)
    && WordAt(h, 0x40) + WordAt(h, 0x44) <= WordAt(h, 0x50)
  }

  /** `KInitialProcessReader::GetSize`: the address and the size are added in 32 bits. */
  function ReaderSize(h: seq<Byte>): nat {
    AlignUp32(if WordAt(h, 0x54) != 0 then WordAt(h, 0x50) + WordAt(h, 0x54) else WordAt(h, 0x40) + WordAt(h, 0x44))
  }

  predicate UsesSecureMemory(h: seq<Byte>) {
    |h| > 0x1F && (h[0x1F] / 0x20) % 2 == 1
  }

  function SecureSize(h: seq<Byte>): nat {
    if UsesSecureMemory(h) then ReaderSize(h) + AlignUp32(WordAt(h, 0x3C)) else 0
  }

  /** The format of real images; `load` stands for the decompression. */
  function KipFormat(load: (seq<Byte>, seq<Byte>) -> seq<Byte>): Format {
    Format(IsKip, BinarySize, CodePages, SecureSize, load)
  }

  // ----- Headers made of words -----

  type Word = w: nat | w < 0x1_0000_0000

  /** Byte `i` of a word, lowest first. */
  function ByteOf(w: Word, i: nat): Byte {
    if i == 0 then w % 0x100 else if i == 1 then w / 0x100 % 0x100 else if i == 2 then w / 0x1_0000 % 0x100 else w / 0x100_0000 % 0x100
  }

  /** The header that consists of these words. */
  function HeaderOf(ws: seq<Word>): (h: seq<Byte>)
    ensures |h| == 4 * |ws|
  {
    seq(4 * |ws|, i requires 0 <= i < 4 * |ws| => ByteOf(ws[i / 4], i % 4))
  }

  lemma BytesMake(w: Word)
    ensures w == ByteOf(w, 0) as nat + 0x100 * ByteOf(w, 1) as nat + 0x1_0000 * ByteOf(w, 2) as nat + 0x100_0000 * ByteOf(w, 3) as nat
  {
    assert w / 0x1_0000 == w / 0x100 / 0x100 && w / 0x100_0000 == w / 0x1_0000 / 0x100;
  }

  lemma ByteAt(ws: seq<Word>, k: nat, i: nat, o: nat)
    requires k < |ws| && i < 4 && o == 4 * k + i
    ensures HeaderOf(ws)[o] == ByteOf(ws[k], i)
  {
  }

  lemma WordOf(ws: seq<Word>, k: nat, o: nat)
    requires k < |ws| && o == 4 * k
    ensures WordAt(HeaderOf(ws), o) == ws[k]
  {
    ByteAt(ws, k, 0, o);
    ByteAt(ws, k, 1, o + 1);
    ByteAt(ws, k, 2, o + 2);
    ByteAt(ws, k, 3, o + 3);
    BytesMake(ws[k]);
  }

  datatype Segment = Segment(addr: Word, size: Word, packed: Word)

  /** What goes into a header. */
  datatype Plan = Plan(rx: Segment, ro: Segment, rw: Segment, bss: Segment, stack: Word, flags: Byte, caps: seq<Word>)

  function Made(p: Plan): (ws: seq<Word>)
    ensures |ws| == 64
  {
    seq(64, k requires 0 <= k < 64 => WordFor(p, k))
  }

  function WordFor(p: Plan, k: nat): Word {
    match k
    case 0 => KIP_MAGIC
    case 7 => 0x100_0000 * p.flags
    case 8 => p.rx.addr
    case 9 => p.rx.size
    case 10 => p.rx.packed
    case 12 => p.ro.addr
    case 13 => p.ro.size
    case 14 => p.ro.packed
    case 15 => p.stack
    case 16 => p.rw.addr
    case 17 => p.rw.size
    case 18 => p.rw.packed
    case 20 => p.bss.addr
    case 21 => p.bss.size
    case _ => if 32 <= k < 32 + |p.caps| then p.caps[k - 32] else 0
  }

  lemma FieldOf(p: Plan, k: nat, o: nat)
    requires k < 64 && o == 4 * k
    ensures WordAt(HeaderOf(Made(p)), o) == WordFor(p, k)
  {
    WordOf(Made(p), k, o);
  }

  lemma FlagsOf(p: Plan)
    ensures HeaderOf(Made(p))[0x1F] == p.flags
  {
    ByteAt(Made(p), 7, 3, 0x1F);
    assert Made(p)[7] == 0x100_0000 * p.flags;
  }

  lemma PagesCover(end: nat)
    ensures var n := (end + PAGE - 1) / PAGE; (n - 1) * PAGE < end <= n * PAGE && AlignUp(end) == n * PAGE
  {
  }

  /** Where the process ends. */
  function End(p: Plan): nat { if p.bss.size > 0 then p.bss.addr + p.bss.size else p.rw.addr + p.rw.size }

  /** A header says its magic number and the sum of the compressed sizes. */
  lemma MadeBinary(p: Plan)
    ensures var h := HeaderOf(Made(p));
            && |h| == KIP_HEADER && IsKip(h)
            && (p.rx.packed + p.ro.packed + p.rw.packed < 0x1_0000_0000 ==> BinarySize(h) == p.rx.packed + p.ro.packed + p.rw.packed)
  {
    FieldOf(p, 0, 0);
    FieldOf(p, 10, 0x28);
    FieldOf(p, 14, 0x38);
    FieldOf(p, 18, 0x48);
  }

  /** It says the pages that just cover the process. */
  lemma MadePages(p: Plan)
    ensures var h := HeaderOf(Made(p)); (CodePages(h) - 1) * PAGE < End(p) <= CodePages(h) * PAGE
  {
    EndOf(p);
    PagesCover(End(p));
  }

  lemma EndOf(p: Plan)
    ensures var h := HeaderOf(Made(p)); CodePages(h) == (End(p) + PAGE - 1) / PAGE && ReaderSize(h) == AlignUp32(End(p))
  {
    FieldOf(p, 16, 0x40);
    FieldOf(p, 17, 0x44);
    FieldOf(p, 20, 0x50);
    FieldOf(p, 21, 0x54);
  }

  /** It asks for secure memory for its code pages and its stack, if the flag is set. */
  lemma MadeSecure(p: Plan)
    requires End(p) + PAGE <= 0x1_0000_0000 && p.stack + PAGE <= 0x1_0000_0000
    ensures var h := HeaderOf(Made(p));
            && (UsesSecureMemory(h) <==> p.flags / 0x20 % 2 == 1)
            && SecureSize(h) == if p.flags / 0x20 % 2 == 1 then CodePages(h) * PAGE + AlignUp(p.stack) else 0
  {
    FlagsOf(p);
    StackOf(p);
    EndOf(p);
    PagesCover(End(p));
    Wrapless(End(p));
    Wrapless(p.stack);
  }

  lemma StackOf(p: Plan)
    ensures WordAt(HeaderOf(Made(p)), 0x3C) == p.stack
  {
    FieldOf(p, 15, 0x3C);
  }

  lemma Wrapless(x: nat)
    requires x + PAGE <= 0x1_0000_0000
    ensures AlignUp32(x) == AlignUp(x)
  {
  }

  /** Its segments are in order, each from a page boundary on and without overlap. */
  lemma MadeSegments(p: Plan)
    ensures SegmentsOk(HeaderOf(Made(p))) <==>
              && p.rx.addr == 0 && p.ro.addr % PAGE == 0 && p.rw.addr % PAGE == 0
              && p.rx.size <= p.ro.addr && p.ro.addr + p.ro.size <= p.rw.addr && p.rw.addr + p.rw.size <= p.bss.addr
  {
    FieldOf(p, 8, 0x20);
    FieldOf(p, 9, 0x24);
    FieldOf(p, 12, 0x30);
    FieldOf(p, 13, 0x34);
    FieldOf(p, 16, 0x40);
    FieldOf(p, 17, 0x44);
    FieldOf(p, 20, 0x50);
    InOrder(p.rx, p.ro, p.rw);
  }

  lemma InOrder(rx: Segment, ro: Segment, rw: Segment)
    ensures Aligned(ro.addr) <==> ro.addr % PAGE == 0
    ensures Aligned(rw.addr) <==> rw.addr % PAGE == 0
    ensures ro.addr % PAGE == 0 ==> (AlignUp(rx.size) <= ro.addr <==> rx.size <= ro.addr)
    ensures ro.addr % PAGE == 0 && rw.addr % PAGE == 0 ==> (ro.addr + AlignUp(ro.size) <= rw.addr <==> ro.addr + ro.size <= rw.addr)
  {
    if ro.addr % PAGE == 0 {
      AlignFits(rx.size, 0, ro.addr);
      if rw.addr % PAGE == 0 { AlignFits(ro.size, ro.addr, rw.addr); }
    }
  }

  /** Between page boundaries a size fits exactly if its pages do. */
  lemma AlignFits(size: nat, lo: nat, hi: nat)
    requires lo % PAGE == 0 && hi % PAGE == 0
    ensures lo + AlignUp(size) <= hi <==> lo + size <= hi
  {
  }

  // ----- An image that is misread -----

  const OVERRUN_SIZE: nat := INI_HEADER + KIP_HEADER

  /** The image header: the magic number `INI1`, the size, and one process. */
  function IniBytes(): seq<Byte> { [0x49, 0x4E, 0x49, 0x31, 0x10, 1, 0, 0, 1, 0, 0, 0, 0, 0, 0, 0] }

  /** An image that ends with the header of its one KIP, and one byte behind its end. */
  function OverrunImage(h: seq<Byte>, last: Byte): (img: seq<Byte>)
    requires |h| == KIP_HEADER
    ensures |img| == AREA && HeaderAt(img, INI_HEADER) == h && img[OVERRUN_SIZE] == last && img[..INI_HEADER] == IniBytes()
  {
    IniBytes() + h + [last] + seq(AREA - OVERRUN_SIZE - 1, _ => 0 as Byte)
  }

  lemma OverrunIni(h: seq<Byte>, last: Byte)
    requires |h| == KIP_HEADER
    ensures var img := OverrunImage(h, last); img[0] == 0x49 && WordAt(img, 0) == INI_MAGIC && WordAt(img, 4) == OVERRUN_SIZE && WordAt(img, 8) == 1
  {
    var img := OverrunImage(h, last);
    assert forall i :: 0 <= i < INI_HEADER ==> img[i] == img[..INI_HEADER][i];
  }

  /** If the header says that the binary is one byte, the header walk accepts the image and the load
      succeeds, but the process gets the first byte of the image's magic number. */
  lemma Misread(f: Format, h: seq<Byte>, last: Byte)
    requires |h| == KIP_HEADER && f.valid(h) && f.binary(h) == 1 && f.pages(h) == 1 && last != 0x49
    ensures var img := OverrunImage(h, last);
            && Walks(f, img, OVERRUN_SIZE, INI_HEADER, 1) && WalkEnd(f, img, OVERRUN_SIZE, INI_HEADER, 1) == OVERRUN_SIZE + 1
            && Judge(f, img, OVERRUN_SIZE, INI_HEADER, 1) == Loaded && !Agree(f, img, OVERRUN_SIZE, 1)
            && KipAt(f, img, INI_HEADER).binary == [last] && KipInPlace(f, img, OVERRUN_SIZE, INI_HEADER).binary == [0x49]
  {
    var img := OverrunImage(h, last);
    OverrunIni(h, last);
    assert NextKip(f, img, INI_HEADER) == OVERRUN_SIZE + 1;
    assert KipAt(f, img, INI_HEADER).binary == [last];
    assert KipInPlace(f, img, OVERRUN_SIZE, INI_HEADER).binary == [img[0]];
    assert Kips(f, img, OVERRUN_SIZE, INI_HEADER, 1)[0] == KipAt(f, img, INI_HEADER);
    assert InPlace(f, img, OVERRUN_SIZE, INI_HEADER, 1)[0] == KipInPlace(f, img, OVERRUN_SIZE, INI_HEADER);
  }

  /** A data segment of one byte, and padding in place of capabilities. */
  function OneByte(): Plan {
    Plan(Segment(0, 0, 0), Segment(0, 0, 0), Segment(0, 1, 1), Segment(1, 0, 0), 0, 0, seq(32, _ => 0xFFFF_FFFF as Word))
  }

  lemma OneByteHeader()
    ensures var h := HeaderOf(Made(OneByte())); |h| == KIP_HEADER && IsKip(h) && BinarySize(h) == 1 && CodePages(h) == 1 && SegmentsOk(h)
  {
    MadeBinary(OneByte());
    MadePages(OneByte());
    MadeSegments(OneByte());
  }

  lemma Padded(j: nat)
    requires 0x80 <= j < KIP_HEADER
    ensures HeaderOf(Made(OneByte()))[j] == 0xFF
  {
    ByteAt(Made(OneByte()), j / 4, j % 4, j);
  }

  /** An image with the right magic numbers, its own size and number of processes, acceptable segments
      and only padding for capabilities, that the header walk accepts and the loader misreads. */
  lemma RealImageMisread(load: (seq<Byte>, seq<Byte>) -> seq<Byte>, last: Byte)
    requires last != 0x49
    ensures var f, h := KipFormat(load), HeaderOf(Made(OneByte()));
            && |h| == KIP_HEADER && IsKip(h) && SegmentsOk(h) && (forall j :: 0x80 <= j < KIP_HEADER ==> h[j] == 0xFF)
            && var img := OverrunImage(h, last);
            && WordAt(img, 0) == INI_MAGIC && WordAt(img, 4) == OVERRUN_SIZE && WordAt(img, 8) == 1
            && Walks(f, img, OVERRUN_SIZE, INI_HEADER, 1) && WalkEnd(f, img, OVERRUN_SIZE, INI_HEADER, 1) == OVERRUN_SIZE + 1
            && Judge(f, img, OVERRUN_SIZE, INI_HEADER, 1) == Loaded && !Agree(f, img, OVERRUN_SIZE, 1)
            && KipAt(f, img, INI_HEADER).binary == [last] && KipInPlace(f, img, OVERRUN_SIZE, INI_HEADER).binary == [0x49]
  {
    OneByteHeader();
    forall j: nat | 0x80 <= j < KIP_HEADER ensures HeaderOf(Made(OneByte()))[j] == 0xFF { Padded(j); }
    OverrunIni(HeaderOf(Made(OneByte())), last);
    Misread(KipFormat(load), HeaderOf(Made(OneByte())), last);
  }
}
