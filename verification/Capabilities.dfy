/** The capability parser of a user process.

    A capability word names its kind by its number of trailing one bits.  What the kinds other than
    core-priority, system-call mask and map-region do is a parameter: whether they succeed. */
module Capabilities {
  import opened Basics
  import opened Digits

  const NUM_SVCS: nat := 0xC0
  const NUM_CORES: nat := 64
  const MASK_BITS: nat := 24

  /** The kinds of which `SetCapability` keeps only that they may be set once. */
  datatype OnceKind = ProgramType | KernelVersion | HandleTable | DebugFlags

  /** A capability word, decoded. */
  datatype Cap =
    | CorePriority(lowest: nat, highest: nat, minCore: nat, maxCore: nat)
    | SyscallMask(bits: set<nat>, index: nat)
    | MapRange(word: nat)
    | MapRegion(word: nat)
    | Once(kind: OnceKind, word: nat)
    | Other(word: nat)
    | Padding
    | Bad

  datatype Result = Success | InvalidArgument | InvalidCombination | InvalidCoreId | OutOfRange | Failed

  // ----- The parser on decoded words -----

  /** A contiguous range of bits. */
  function Bits(lo: nat, hi: nat): (r: set<nat>)
    ensures forall x :: x in r <==> lo <= x <= hi
    decreases hi + 1 - lo
  {
    if lo > hi then {} else {lo} + Bits(lo + 1, hi)
  }

  /** The system calls a mask word allows. */
  function SvcsOf(bits: set<nat>, index: nat): set<nat> { set i | i in bits :: MASK_BITS * index + i }

  /** The fields of `KCapabilities` and the parser's progress: the kinds and mask indices it has seen
      and the map-region words it has acted on. */
  datatype Caps = Caps(core: set<nat>, priority: set<nat>, svcs: set<nat>, sawCores: bool, seen: set<OnceKind>, indices: set<nat>, regions: seq<nat>)

  const EMPTY: Caps := Caps({}, {}, {}, false, {}, {}, [])

  function SetCorePriority(c: Caps, k: Cap): (Caps, Result)
    requires k.CorePriority?
  {
    if c.core != {} || c.priority != {} then (c, InvalidArgument)
    else if k.minCore > k.maxCore || k.highest > k.lowest then (c, InvalidCombination)
    else if k.maxCore >= NUM_CORES then (c, InvalidCoreId)
    else
      var c1 := c.(core := Bits(k.minCore, k.maxCore), priority := Bits(k.highest, k.lowest));
      if k.highest < 4 then (c1, InvalidArgument) else (c1, Success)
  }

  function SetSyscallMask(c: Caps, k: Cap): (Caps, Result)
    requires k.SyscallMask?
  {
    if k.index in c.indices then (c, InvalidCombination)
    else
      var c1 := c.(indices := c.indices + {k.index}, svcs := c.svcs + (set x | x in SvcsOf(k.bits, k.index) && x < NUM_SVCS));
      if exists x :: x in SvcsOf(k.bits, k.index) && x >= NUM_SVCS then (c1, OutOfRange) else (c1, Success)
  }

  /** `ok` is what the page table and the other collaborators answer. */
  function SetCapability(c: Caps, k: Cap, ok: bool): (Caps, Result) {
    match k
    case Bad => (c, InvalidArgument)
    case Padding => (c, Success)
    case CorePriority(_, _, _, _) => if c.sawCores then (c, InvalidCombination) else SetCorePriority(c.(sawCores := true), k)
    case SyscallMask(_, _) => SetSyscallMask(c, k)
    case MapRegion(w) => if ok then (c.(regions := c.regions + [w]), Success) else (c, Failed)
    case Once(kind, _) =>
      if kind in c.seen then (c, InvalidCombination) else (c.(seen := c.seen + {kind}), if ok then Success else Failed)
    case Other(_) => (c, if ok then Success else Failed)
    case MapRange(_) => (c, InvalidArgument)
  }

  /** `SetCapabilities`: map-range words come in pairs. */
  function Parse(c: Caps, ks: seq<Cap>, other: Cap -> bool): (Caps, Result)
    decreases |ks|
  {
    if ks == [] then (c, Success)
    else if ks[0].MapRange? then
      if |ks| < 2 || !ks[1].MapRange? then (c, InvalidCombination)
      else if !other(ks[0]) then (c, Failed)
      else Parse(c, ks[2..], other)
    else
      var (c1, r) := SetCapability(c, ks[0], other(ks[0]));
      if r != Success then (c1, r) else Parse(c1, ks[1..], other)
  }

  /** The parse of what is left from word `i` on. */
  lemma ParseAt(c: Caps, ks: seq<Cap>, i: nat, k: Cap, other: Cap -> bool)
    requires i < |ks| && ks[i] == k
    ensures Parse(c, ks[i..], other) ==
            if k.MapRange? then
              if i + 1 == |ks| || !ks[i + 1].MapRange? then (c, InvalidCombination)
              else if !other(k) then (c, Failed)
              else Parse(c, ks[i + 2..], other)
            else
              var (c1, r) := SetCapability(c, k, other(k));
              if r != Success then (c1, r) else Parse(c1, ks[i + 1..], other)
  {
    assert ks[i..][1..] == ks[i + 1..];
    if i + 1 < |ks| { assert ks[i..][2..] == ks[i + 2..]; }
  }

  // ----- What an accepted list means -----

  function CorePriorities(ks: seq<Cap>): seq<Cap> {
    if ks == [] then [] else (if ks[0].CorePriority? then [ks[0]] else []) + CorePriorities(ks[1..])
  }

  function Masks(ks: seq<Cap>): seq<Cap> {
    if ks == [] then [] else (if ks[0].SyscallMask? then [ks[0]] else []) + Masks(ks[1..])
  }

  /** The words `CheckCapabilities` inspects: it looks at every word. */
  function Regions(ks: seq<Cap>): seq<nat> {
    if ks == [] then [] else (if ks[0].MapRegion? then [ks[0].word] else []) + Regions(ks[1..])
  }

  function AllSvcs(ms: seq<Cap>): set<nat> {
    if ms == [] then {} else (if ms[0].SyscallMask? then SvcsOf(ms[0].bits, ms[0].index) else {}) + AllSvcs(ms[1..])
  }

  /** Every mask index is new, given the indices used before. */
  predicate NewIndices(ms: seq<Cap>, used: set<nat>) {
    ms == [] || (ms[0].SyscallMask? && ms[0].index !in used && NewIndices(ms[1..], used + {ms[0].index}))
  }

  /** What the declared cores and priorities make of the masks. */
  ghost predicate Declared(c: Caps, c': Caps, cps: seq<Cap>) {
    if cps == [] then c'.core == c.core && c'.priority == c.priority
    else
      && |cps| == 1 && cps[0].CorePriority? && c.core == {} && c.priority == {} && !c.sawCores
      && cps[0].minCore <= cps[0].maxCore < NUM_CORES && 4 <= cps[0].highest <= cps[0].lowest
      && c'.core == Bits(cps[0].minCore, cps[0].maxCore) && c'.priority == Bits(cps[0].highest, cps[0].lowest)
  }

  ghost predicate Accounts(c: Caps, c': Caps, ks: seq<Cap>) {
    && c'.regions == c.regions + Regions(ks)
    && c'.svcs == c.svcs + AllSvcs(Masks(ks)) && NewIndices(Masks(ks), c.indices)
    && Declared(c, c', CorePriorities(ks))
  }

  /** A pair of map-range words holds nothing else. */
  lemma PairSkips(ks: seq<Cap>)
    requires |ks| >= 2 && ks[0].MapRange? && ks[1].MapRange?
    ensures Regions(ks) == Regions(ks[2..]) && Masks(ks) == Masks(ks[2..]) && CorePriorities(ks) == CorePriorities(ks[2..])
  {
    assert ks[1..][1..] == ks[2..] && ks[1..][0] == ks[1];
  }

  lemma {:induction false} ParseAccounts(c: Caps, ks: seq<Cap>, other: Cap -> bool)
    requires Parse(c, ks, other).1 == Success
    ensures Accounts(c, Parse(c, ks, other).0, ks)
    decreases |ks|
  {
    if ks != [] {
      if ks[0].MapRange? {
        PairSkips(ks);
        ParseAccounts(c, ks[2..], other);
      } else {
        var c1 := SetCapability(c, ks[0], other(ks[0])).0;
        ParseAccounts(c1, ks[1..], other);
        OneAccounts(c, c1, Parse(c, ks, other).0, ks[0], ks[1..], other(ks[0]));
        assert ks == [ks[0]] + ks[1..];
      }
    }
  }

  lemma OneAccounts(c: Caps, c1: Caps, c2: Caps, k: Cap, ks: seq<Cap>, ok: bool)
    requires SetCapability(c, k, ok) == (c1, Success) && Accounts(c1, c2, ks)
    ensures Accounts(c, c2, [k] + ks)
  {
    FirstCounts(k, ks);
    if k.SyscallMask? {
      MaskAccounts(c, c1, c2, k, ks);
    } else if k.CorePriority? {
      CoresAccount(c, c1, c2, k, ks);
    } else if k.MapRegion? {
      RegionAccounts(c, c1, c2, k.word, ks);
    } else {
      OtherAccounts(c, c1, c2, ks);
    }
  }

  /** The other kinds change nothing that is accounted for. */
  lemma OtherAccounts(c: Caps, c1: Caps, c2: Caps, ks: seq<Cap>)
    requires c1 == c.(seen := c1.seen) && Accounts(c1, c2, ks)
    ensures Accounts(c, c2, ks)
  {
  }

  lemma RegionAccounts(c: Caps, c1: Caps, c2: Caps, w: nat, ks: seq<Cap>)
    requires c1 == c.(regions := c.regions + [w]) && Accounts(c1, c2, ks)
    ensures c2.regions == c.regions + ([w] + Regions(ks))
    ensures c2.svcs == c.svcs + AllSvcs(Masks(ks)) && NewIndices(Masks(ks), c.indices) && Declared(c, c2, CorePriorities(ks))
  {
    assert (c.regions + [w]) + Regions(ks) == c.regions + ([w] + Regions(ks));
  }

  lemma MaskAccounts(c: Caps, c1: Caps, c2: Caps, k: Cap, ks: seq<Cap>)
    requires k.SyscallMask? && SetSyscallMask(c, k) == (c1, Success) && Accounts(c1, c2, ks)
    ensures c2.svcs == c.svcs + AllSvcs([k] + Masks(ks)) && NewIndices([k] + Masks(ks), c.indices)
    ensures c2.regions == c.regions + Regions(ks) && Declared(c, c2, CorePriorities(ks))
  {
    assert (set x | x in SvcsOf(k.bits, k.index) && x < NUM_SVCS) == SvcsOf(k.bits, k.index);
    FirstMask(k, Masks(ks), c.indices);
  }

  lemma CoresAccount(c: Caps, c1: Caps, c2: Caps, k: Cap, ks: seq<Cap>)
    requires k.CorePriority? && !c.sawCores && SetCorePriority(c.(sawCores := true), k) == (c1, Success) && Accounts(c1, c2, ks)
    ensures Declared(c, c2, [k] + CorePriorities(ks))
    ensures c2.regions == c.regions + Regions(ks) && c2.svcs == c.svcs + AllSvcs(Masks(ks)) && NewIndices(Masks(ks), c.indices)
  {
    assert k.minCore in c1.core;
  }

  /** What the first word adds to the lists. */
  lemma FirstCounts(k: Cap, ks: seq<Cap>)
    ensures Regions([k] + ks) == if k.MapRegion? then [k.word] + Regions(ks) else Regions(ks)
    ensures Masks([k] + ks) == if k.SyscallMask? then [k] + Masks(ks) else Masks(ks)
    ensures CorePriorities([k] + ks) == if k.CorePriority? then [k] + CorePriorities(ks) else CorePriorities(ks)
  {
    assert ([k] + ks)[1..] == ks;
  }

  lemma FirstMask(k: Cap, ms: seq<Cap>, used: set<nat>)
    requires k.SyscallMask?
    ensures AllSvcs([k] + ms) == SvcsOf(k.bits, k.index) + AllSvcs(ms)
    ensures NewIndices([k] + ms, used) <==> k.index !in used && NewIndices(ms, used + {k.index})
  {
    assert ([k] + ms)[1..] == ms;
  }

  /** For every list a user process gets accepted: at most one word declares cores and priorities,
      and the masks are exactly its contiguous ranges, without the four kernel priorities, or empty;
      the allowed system calls are the union of the declared masks, whose indices differ; and the
      map-region words acted on are exactly those in the list. */
  lemma AcceptedMeans(ks: seq<Cap>, other: Cap -> bool)
    requires Parse(EMPTY, ks, other).1 == Success
    ensures var c := Parse(EMPTY, ks, other).0;
            && Declared(EMPTY, c, CorePriorities(ks)) && (forall p :: p in c.priority ==> 4 <= p)
            && c.svcs == AllSvcs(Masks(ks)) && NewIndices(Masks(ks), {})
            && c.regions == Regions(ks)
  {
    ParseAccounts(EMPTY, ks, other);
  }

  /** No word is bad, every word that asks a collaborator has its consent, and no kind that may be set once
      comes twice or was set before. */
  ghost predicate Clean(c: Caps, ks: seq<Cap>, other: Cap -> bool) {
    && (forall i :: 0 <= i < |ks| ==> !ks[i].Bad? && (ks[i].MapRegion? || ks[i].Once? || ks[i].Other? ==> other(ks[i])))
    && (forall i :: 0 <= i < |ks| && ks[i].Once? ==> ks[i].kind !in c.seen)
    && (forall i, j :: 0 <= i < j < |ks| && ks[i].Once? && ks[j].Once? ==> ks[i].kind != ks[j].kind)
  }

  // ----- Exactly which lists are accepted -----

  /** Map-range words come in pairs, each with consent. */
  predicate Paired(ks: seq<Cap>, other: Cap -> bool) {
    if ks == [] then true
    else if ks[0].MapRange? then |ks| >= 2 && ks[1].MapRange? && other(ks[0]) && Paired(ks[2..], other)
    else Paired(ks[1..], other)
  }

  predicate CoresFit(k: Cap) {
    k.CorePriority? && k.minCore <= k.maxCore < NUM_CORES && 4 <= k.highest <= k.lowest
  }

  /** At most one word declares cores and priorities, only if none did before, and it fits. */
  ghost predicate CoresOnce(c: Caps, cps: seq<Cap>) {
    cps == [] || (|cps| == 1 && CoresFit(cps[0]) && !c.sawCores && c.core == {} && c.priority == {})
  }

  ghost predicate MasksFit(ms: seq<Cap>) {
    forall i, x :: 0 <= i < |ms| && ms[i].SyscallMask? && x in SvcsOf(ms[i].bits, ms[i].index) ==> x < NUM_SVCS
  }

  ghost predicate Acceptable(c: Caps, ks: seq<Cap>, other: Cap -> bool) {
    && Paired(ks, other) && Clean(c, ks, other) && CoresOnce(c, CorePriorities(ks))
    && NewIndices(Masks(ks), c.indices) && MasksFit(Masks(ks))
  }

  /** One word that is not a map range is accepted exactly if it is acceptable where it stands. */
  lemma WordAcceptable(c: Caps, k: Cap, ks: seq<Cap>, other: Cap -> bool)
    requires !k.MapRange?
    ensures Acceptable(c, [k] + ks, other) <==>
              SetCapability(c, k, other(k)).1 == Success && Acceptable(SetCapability(c, k, other(k)).0, ks, other)
  {
    var l, c1 := [k] + ks, SetCapability(c, k, other(k)).0;
    assert l[1..] == ks;
    FirstCounts(k, ks);
    CleanWord(c, k, ks, other);
    if k.SyscallMask? { MaskAcceptable(c, k, ks); }
    else if k.CorePriority? { CoreAcceptable(c, k, CorePriorities(ks)); }
  }

  lemma CleanWord(c: Caps, k: Cap, ks: seq<Cap>, other: Cap -> bool)
    ensures Clean(c, [k] + ks, other) <==>
              && Clean(if k.Once? then c.(seen := c.seen + {k.kind}) else c, ks, other)
              && !k.Bad? && (k.MapRegion? || k.Once? || k.Other? ==> other(k)) && (k.Once? ==> k.kind !in c.seen)
  {
    var l := [k] + ks;
    assert forall i :: 0 < i < |l| ==> l[i] == ks[i - 1];
    if Clean(c, l, other) {
      forall i | 0 <= i < |ks| ensures ks[i] == l[i + 1] {}
      forall i | 0 <= i < |ks| && ks[i].Once? ensures ks[i].kind !in c.seen && (k.Once? ==> ks[i].kind != k.kind) { assert l[0] == k && ks[i] == l[i + 1]; }
      forall i, j | 0 <= i < j < |ks| && ks[i].Once? && ks[j].Once? ensures ks[i].kind != ks[j].kind { assert ks[i] == l[i + 1] && ks[j] == l[j + 1]; }
    }
  }

  lemma MaskAcceptable(c: Caps, k: Cap, ks: seq<Cap>)
    requires k.SyscallMask?
    ensures var (c1, r) := SetSyscallMask(c, k);
            NewIndices([k] + Masks(ks), c.indices) && MasksFit([k] + Masks(ks)) <==>
              r == Success && NewIndices(Masks(ks), c1.indices) && MasksFit(Masks(ks))
  {
    var ms, l := Masks(ks), [k] + Masks(ks);
    FirstMask(k, ms, c.indices);
    assert forall i :: 0 < i < |l| ==> l[i] == ms[i - 1];
    if MasksFit(l) {
      forall i, x | 0 <= i < |ms| && ms[i].SyscallMask? && x in SvcsOf(ms[i].bits, ms[i].index) ensures x < NUM_SVCS { assert ms[i] == l[i + 1]; }
      assert l[0] == k;
    }
  }

  lemma CoreAcceptable(c: Caps, k: Cap, cps: seq<Cap>)
    requires k.CorePriority?
    ensures CoresOnce(c, [k] + cps) <==>
              !c.sawCores && SetCorePriority(c.(sawCores := true), k).1 == Success && CoresOnce(SetCorePriority(c.(sawCores := true), k).0, cps)
  {
    assert [k] + cps != [] && ([k] + cps)[0] == k;
  }

  lemma PairAcceptable(c: Caps, ks: seq<Cap>, other: Cap -> bool)
    requires |ks| >= 2 && ks[0].MapRange? && ks[1].MapRange?
    ensures Acceptable(c, ks, other) <==> other(ks[0]) && Acceptable(c, ks[2..], other)
  {
    PairSkips(ks);
    assert ks[1..] == [ks[1]] + ks[2..] && ks == [ks[0]] + ks[1..];
    CleanWord(c, ks[0], ks[1..], other);
    CleanWord(c, ks[1], ks[2..], other);
  }

  /** A list is accepted if and only if its map ranges are paired, its words are clean, at most one fitting
      word declares cores and priorities, and its masks have different indices. */
  lemma {:induction false} AcceptedExactly(c: Caps, ks: seq<Cap>, other: Cap -> bool)
    ensures Parse(c, ks, other).1 == Success <==> Acceptable(c, ks, other)
    decreases |ks|
  {
    if ks != [] {
      if !ks[0].MapRange? {
        assert ks == [ks[0]] + ks[1..];
        WordAcceptable(c, ks[0], ks[1..], other);
        AcceptedExactly(SetCapability(c, ks[0], other(ks[0])).0, ks[1..], other);
      } else if |ks| >= 2 && ks[1].MapRange? {
        PairAcceptable(c, ks, other);
        AcceptedExactly(c, ks[2..], other);
      }
    }
  }

  /** Masks with different indices are disjoint. */
  lemma MasksDisjoint(v: Cap, w: Cap)
    requires v.SyscallMask? && w.SyscallMask? && v.index != w.index
    requires (forall i :: i in v.bits ==> i < MASK_BITS) && (forall i :: i in w.bits ==> i < MASK_BITS)
    ensures SvcsOf(v.bits, v.index) !! SvcsOf(w.bits, w.index)
  {
  }

  // ----- The masks of a list -----

  /** The word allows system call `x`. */
  ghost predicate Grants(k: Cap, x: nat) { k.SyscallMask? && x in SvcsOf(k.bits, k.index) }

  ghost predicate SomeGrants(ks: seq<Cap>, x: nat) { exists i :: 0 <= i < |ks| && Grants(ks[i], x) }

  lemma {:induction false} GrantsAll(ks: seq<Cap>, x: nat)
    ensures x in AllSvcs(Masks(ks)) <==> SomeGrants(ks, x)
    decreases |ks|
  {
    if ks != [] {
      GrantsAll(ks[1..], x);
      assert ks == [ks[0]] + ks[1..];
      FirstCounts(ks[0], ks[1..]);
      if ks[0].SyscallMask? { FirstMask(ks[0], Masks(ks[1..]), {}); }
      FirstGrants(ks, x);
    }
  }

  lemma FirstGrants(ks: seq<Cap>, x: nat)
    requires ks != []
    ensures SomeGrants(ks, x) <==> Grants(ks[0], x) || SomeGrants(ks[1..], x)
  {
    if SomeGrants(ks, x) { var i :| 0 <= i < |ks| && Grants(ks[i], x); assert i > 0 ==> ks[i] == ks[1..][i - 1]; }
    if SomeGrants(ks[1..], x) { var i :| 0 <= i < |ks[1..]| && Grants(ks[1..][i], x); assert ks[i + 1] == ks[1..][i]; }
  }

  /** The indices used before the rest of a list. */
  function Used(k: Cap, used: set<nat>): set<nat> { if k.SyscallMask? then used + {k.index} else used }

  lemma RestNew(k: Cap, ks: seq<Cap>, used: set<nat>)
    requires NewIndices(Masks([k] + ks), used)
    ensures NewIndices(Masks(ks), Used(k, used)) && (k.SyscallMask? ==> k.index !in used)
  {
    FirstCounts(k, ks);
    if k.SyscallMask? { FirstMask(k, Masks(ks), used); }
  }

  /** An index that is used before is not declared again. */
  lemma {:induction false} UsedNotAgain(ks: seq<Cap>, used: set<nat>, j: nat)
    requires NewIndices(Masks(ks), used) && j < |ks| && ks[j].SyscallMask?
    ensures ks[j].index !in used
    decreases |ks|
  {
    assert ks == [ks[0]] + ks[1..];
    RestNew(ks[0], ks[1..], used);
    if j > 0 { UsedNotAgain(ks[1..], Used(ks[0], used), j - 1); }
  }

  /** Two masks of the list have different indices. */
  lemma {:induction false} IndicesDiffer(ks: seq<Cap>, used: set<nat>, i: nat, j: nat)
    requires NewIndices(Masks(ks), used) && i < j < |ks| && ks[i].SyscallMask? && ks[j].SyscallMask?
    ensures ks[i].index != ks[j].index
    decreases |ks|
  {
    assert ks == [ks[0]] + ks[1..];
    RestNew(ks[0], ks[1..], used);
    if i > 0 { IndicesDiffer(ks[1..], Used(ks[0], used), i - 1, j - 1); }
    else { UsedNotAgain(ks[1..], Used(ks[0], used), j - 1); }
  }

  // ----- Capability words -----

  type Word = w: nat | w < 0x1_0000_0000

  function TrailingOnes(w: nat): nat { if w % 2 == 0 then 0 else 1 + TrailingOnes(w / 2) }

  function Field(w: Word, index: nat, count: nat): nat { w / Pow2(index) % Pow2(count) }

  function BitsOf(mask: nat, n: nat): (r: set<nat>)
    ensures forall i: nat :: i in r <==> i < n && Bit(mask, i)
  {
    if n == 0 then {} else BitsOf(mask, n - 1) + if Bit(mask, n - 1) then {n - 1} else {}
  }

  /** `GetCapabilityType` and the fields of each kind. */
  function Decode(w: Word): Cap {
    match TrailingOnes(w)
    case 3 => CorePriority(Field(w, 4, 6), Field(w, 10, 6), Field(w, 16, 8), Field(w, 24, 8))
    case 4 => SyscallMask(BitsOf(Field(w, 5, 24), MASK_BITS), Field(w, 29, 3))
    case 6 => MapRange(w)
    case 7 => Other(w)
    case 10 => MapRegion(w)
    case 11 => Other(w)
    case 13 => Once(ProgramType, w)
    case 14 => Once(KernelVersion, w)
    case 15 => Once(HandleTable, w)
    case 16 => Once(DebugFlags, w)
    case 32 => Padding
    case _ => Bad
  }

  function DecodeAll(ws: seq<Word>): (ks: seq<Cap>)
    ensures |ks| == |ws| && forall i :: 0 <= i < |ks| ==> ks[i] == Decode(ws[i])
  {
    if ws == [] then [] else [Decode(ws[0])] + DecodeAll(ws[1..])
  }

  // ----- What the words encode -----

  lemma {:induction false} TrailingExact(w: nat, n: nat)
    ensures TrailingOnes(w) == n <==> w % (2 * Pow2(n)) == Pow2(n) - 1
    decreases n
  {
    Halve(w, Pow2(n));
    if w % 2 == 1 && n > 0 { TrailingExact(w / 2, n - 1); }
  }

  lemma TrailingIs(w: nat, n: nat, m: nat)
    requires m == Pow2(n)
    ensures TrailingOnes(w) == n <==> w % (2 * m) == m - 1
  {
    TrailingExact(w, n);
  }

  lemma TrailingKinds(w: Word)
    ensures TrailingOnes(w) == 3 <==> w % 0x10 == 7
    ensures TrailingOnes(w) == 4 <==> w % 0x20 == 0xF
    ensures TrailingOnes(w) == 6 <==> w % 0x80 == 0x3F
    ensures TrailingOnes(w) == 7 <==> w % 0x100 == 0x7F
    ensures TrailingOnes(w) == 10 <==> w % 0x800 == 0x3FF
    ensures TrailingOnes(w) == 11 <==> w % 0x1000 == 0x7FF
  {
    Powers();
    TrailingIs(w, 3, 8);
    TrailingIs(w, 4, 0x10);
    TrailingIs(w, 6, 0x40);
    TrailingIs(w, 7, 0x80);
    TrailingIs(w, 10, 0x400);
    TrailingIs(w, 11, 0x800);
  }

  lemma TrailingAll(w: Word)
    ensures TrailingOnes(w) == 32 <==> w == 0xFFFF_FFFF
  {
    Powers();
    TrailingIs(w, 32, 0x1_0000_0000);
  }

  lemma TrailingOnce(w: Word)
    ensures TrailingOnes(w) == 13 <==> w % 0x4000 == 0x1FFF
    ensures TrailingOnes(w) == 14 <==> w % 0x8000 == 0x3FFF
    ensures TrailingOnes(w) == 15 <==> w % 0x1_0000 == 0x7FFF
    ensures TrailingOnes(w) == 16 <==> w % 0x2_0000 == 0xFFFF
  {
    Powers();
    TrailingIs(w, 13, 0x2000);
    TrailingIs(w, 14, 0x4000);
    TrailingIs(w, 15, 0x8000);
    TrailingIs(w, 16, 0x1_0000);
  }

  /** The kinds of words, by their lowest bits. */
  lemma DecodeKinds(w: Word)
    ensures Decode(w).CorePriority? <==> w % 0x10 == 7
    ensures Decode(w).SyscallMask? <==> w % 0x20 == 0xF
    ensures Decode(w).MapRange? <==> w % 0x80 == 0x3F
    ensures Decode(w).MapRegion? <==> w % 0x800 == 0x3FF
    ensures Decode(w).Other? <==> w % 0x100 == 0x7F || w % 0x1000 == 0x7FF
    ensures Decode(w).Padding? <==> w == 0xFFFF_FFFF
    ensures Decode(w) == Once(ProgramType, w) <==> w % 0x4000 == 0x1FFF
    ensures Decode(w) == Once(KernelVersion, w) <==> w % 0x8000 == 0x3FFF
    ensures Decode(w) == Once(HandleTable, w) <==> w % 0x1_0000 == 0x7FFF
    ensures Decode(w) == Once(DebugFlags, w) <==> w % 0x2_0000 == 0xFFFF
  {
    TrailingKinds(w);
    TrailingOnce(w);
    TrailingAll(w);
  }

  /** Core and priority limits as a word. */
  function CoreWord(lowest: nat, highest: nat, minCore: nat, maxCore: nat): Word
    requires lowest < 0x40 && highest < 0x40 && minCore < 0x100 && maxCore < 0x100
  {
    7 + 0x10 * lowest + 0x400 * highest + 0x1_0000 * minCore + 0x100_0000 * maxCore
  }

  lemma CoreFields(lowest: nat, highest: nat, minCore: nat, maxCore: nat)
    requires lowest < 0x40 && highest < 0x40 && minCore < 0x100 && maxCore < 0x100
    ensures var w := CoreWord(lowest, highest, minCore, maxCore);
            && w % 0x10 == 7 && w / 0x10 % 0x40 == lowest && w / 0x400 % 0x40 == highest
            && w / 0x1_0000 % 0x100 == minCore && w / 0x100_0000 % 0x100 == maxCore
  {
    var w := CoreWord(lowest, highest, minCore, maxCore);
    var c := minCore + 0x100 * maxCore;
    var b := highest + 0x40 * c;
    DivUnique(w, 0x10, lowest + 0x40 * b, 7);
    DivUnique(lowest + 0x40 * b, 0x40, b, lowest);
    DivUnique(w, 0x400, b, 7 + 0x10 * lowest);
    DivUnique(b, 0x40, c, highest);
    DivUnique(w, 0x1_0000, c, 7 + 0x10 * lowest + 0x400 * highest);
    DivUnique(c, 0x100, maxCore, minCore);
    DivUnique(w, 0x100_0000, maxCore, 7 + 0x10 * lowest + 0x400 * highest + 0x1_0000 * minCore);
  }

  /** Decoding takes exactly the limits out of their word. */
  lemma CoreRoundTrip(lowest: nat, highest: nat, minCore: nat, maxCore: nat)
    requires lowest < 0x40 && highest < 0x40 && minCore < 0x100 && maxCore < 0x100
    ensures Decode(CoreWord(lowest, highest, minCore, maxCore)) == CorePriority(lowest, highest, minCore, maxCore)
  {
    var w := CoreWord(lowest, highest, minCore, maxCore);
    CoreFields(lowest, highest, minCore, maxCore);
    Powers();
    TrailingIs(w, 3, 8);
  }

  /** The system calls `24 * index + i` for which `bs[i]` is set, as a word. */
  function MaskWord(bs: seq<bool>, index: nat): Word
    requires |bs| == MASK_BITS && index < 8
  {
    NumberBelow(bs);
    Powers();
    15 + 0x20 * Number(bs) + 0x2000_0000 * index
  }

  lemma MaskFields(m: nat, index: nat)
    requires m < 0x100_0000 && index < 8
    ensures var w := 15 + 0x20 * m + 0x2000_0000 * index;
            w < 0x1_0000_0000 && w % 0x20 == 15 && w / 0x20 % 0x100_0000 == m && w / 0x2000_0000 % 8 == index
  {
    var w := 15 + 0x20 * m + 0x2000_0000 * index;
    DivUnique(w, 0x20, m + 0x100_0000 * index, 15);
    DivUnique(m + 0x100_0000 * index, 0x100_0000, index, m);
    DivUnique(w, 0x2000_0000, index, 15 + 0x20 * m);
  }

  /** Decoding takes exactly the set digits of the mask, and the index, out of their word. */
  lemma MaskRoundTrip(bs: seq<bool>, index: nat)
    requires |bs| == MASK_BITS && index < 8
    ensures var k := Decode(MaskWord(bs, index)); k.SyscallMask? && k.index == index && forall i: nat :: i in k.bits <==> i < |bs| && bs[i]
  {
    var w := MaskWord(bs, index);
    NumberBelow(bs);
    Powers();
    MaskFields(Number(bs), index);
    TrailingIs(w, 4, 0x10);
    assert Decode(w) == SyscallMask(BitsOf(Number(bs), MASK_BITS), index);
    forall i: nat ensures i in BitsOf(Number(bs), MASK_BITS) <==> i < |bs| && bs[i] { NumberBit(bs, i); }
  }

  /** A list of one word of limits is accepted exactly if the limits are in order, the cores exist and no
      kernel priority is named, and then grants exactly these cores and priorities. */
  lemma CoreListAccepted(lowest: nat, highest: nat, minCore: nat, maxCore: nat, other: Cap -> bool)
    requires lowest < 0x40 && highest < 0x40 && minCore < 0x100 && maxCore < 0x100
    ensures var r := Parse(EMPTY, DecodeAll([CoreWord(lowest, highest, minCore, maxCore)]), other);
            && (r.1 == Success <==> minCore <= maxCore < 64 && 4 <= highest <= lowest)
            && (r.1 == Success ==>
                  && (forall c: nat :: c in r.0.core <==> minCore <= c <= maxCore)
                  && (forall p: nat :: p in r.0.priority <==> highest <= p <= lowest) && r.0.svcs == {} && r.0.regions == [])
  {
    var w := CoreWord(lowest, highest, minCore, maxCore);
    CoreRoundTrip(lowest, highest, minCore, maxCore);
    var ks := DecodeAll([w]);
    assert ks == [Decode(w)] && ks[1..] == [];
    assert Parse(EMPTY, ks, other) ==
           (var (c1, r) := SetCapability(EMPTY, ks[0], other(ks[0])); if r != Success then (c1, r) else (c1, Success));
  }

  // ----- What accepted words mean -----

  /** Every system call is allowed by at most one word. */
  ghost predicate GrantedOnce(ks: seq<Cap>) {
    forall i, j, x {:trigger Grants(ks[i], x), Grants(ks[j], x)} :: 0 <= i < j < |ks| && Grants(ks[i], x) ==> !Grants(ks[j], x)
  }

  lemma NewGrantOnce(ws: seq<Word>)
    requires NewIndices(Masks(DecodeAll(ws)), {})
    ensures GrantedOnce(DecodeAll(ws))
  {
    var ks := DecodeAll(ws);
    forall i, j, x | 0 <= i < j < |ks| && Grants(ks[i], x) ensures !Grants(ks[j], x) {
      if Grants(ks[j], x) {
        IndicesDiffer(ks, {}, i, j);
        DecodedMask(ws[i]);
        DecodedMask(ws[j]);
        MasksDisjoint(ks[i], ks[j]);
      }
    }
  }

  /** If a list of words is accepted, the system calls are those its mask words allow, each allowed
      by exactly one of them, and the regions acted on are all region words of the list. */
  lemma AcceptedWords(ws: seq<Word>, other: Cap -> bool)
    requires Parse(EMPTY, DecodeAll(ws), other).1 == Success
    ensures var c := Parse(EMPTY, DecodeAll(ws), other).0;
            && (forall x :: x in c.svcs <==> SomeGrants(DecodeAll(ws), x)) && c.regions == Regions(DecodeAll(ws))
    ensures GrantedOnce(DecodeAll(ws))
  {
    var ks := DecodeAll(ws);
    AcceptedMeans(ks, other);
    forall x: nat ensures x in AllSvcs(Masks(ks)) <==> SomeGrants(ks, x) { GrantsAll(ks, x); }
    NewGrantOnce(ws);
  }

  // ----- The parser in place -----

  class KCapabilities {
    var caps: Caps

    constructor ()
      ensures caps == EMPTY
    {
      caps := EMPTY;
    }

    /** The mask loops of `SetCorePriorityCapability`. */
    method SetRange(lo: nat, hi: nat) returns (r: set<nat>)
      ensures r == Bits(lo, hi)
    {
      r := {};
      var x := lo;
      while x <= hi
        invariant lo <= x && r + Bits(x, hi) == Bits(lo, hi)
        decreases hi + 1 - x
      {
        r := r + {x};
        x := x + 1;
      }
    }

    method SetCore(k: Cap) returns (r: Result)
      requires k.CorePriority?
      modifies this
      ensures (caps, r) == SetCorePriority(old(caps), k)
    {
      if caps.core != {} || caps.priority != {} { return InvalidArgument; }
      if k.minCore > k.maxCore || k.highest > k.lowest { return InvalidCombination; }
      if k.maxCore >= NUM_CORES { return InvalidCoreId; }
      var core := SetRange(k.minCore, k.maxCore);
      var priority := SetRange(k.highest, k.lowest);
      caps := caps.(core := core, priority := priority);
      if priority * {0, 1, 2, 3} != {} {
        assert k.highest < 4;
        return InvalidArgument;
      }
      assert k.highest in priority;
      return Success;
    }

    /** The system-call loop of `SetSyscallMaskCapability`. */
    method AllowSvcs(k: Cap) returns (r: Result)
      requires k.SyscallMask? && k.index < 8 && forall i :: i in k.bits ==> i < MASK_BITS
      modifies this
      ensures (caps, r) == SetSyscallMask(old(caps), k)
    {
      if k.index in caps.indices { return InvalidCombination; }
      ghost var c := caps;
      caps := caps.(indices := caps.indices + {k.index});
      var i := 0;
      while i < MASK_BITS
        invariant 0 <= i <= MASK_BITS
        invariant caps == c.(indices := c.indices + {k.index}, svcs := c.svcs + (set j | j in k.bits && j < i :: MASK_BITS * k.index + j))
      {
        if i in k.bits { caps := caps.(svcs := caps.svcs + {MASK_BITS * k.index + i}); }
        i := i + 1;
      }
      assert (set j | j in k.bits && j < MASK_BITS :: MASK_BITS * k.index + j) == SvcsOf(k.bits, k.index);
      assert (set x | x in SvcsOf(k.bits, k.index) && x < NUM_SVCS) == SvcsOf(k.bits, k.index);
      return Success;
    }

    method Set(k: Cap, ok: bool) returns (r: Result)
      requires k.SyscallMask? ==> k.index < 8 && forall i :: i in k.bits ==> i < MASK_BITS
      modifies this
      ensures (caps, r) == SetCapability(old(caps), k, ok)
    {
      match k {
        case Bad => return InvalidArgument;
        case Padding => return Success;
        case CorePriority(_, _, _, _) =>
          if caps.sawCores { return InvalidCombination; }
          caps := caps.(sawCores := true);
          r := SetCore(k);
        case SyscallMask(_, _) => r := AllowSvcs(k);
        case MapRegion(w) =>
          if !ok { return Failed; }
          caps := caps.(regions := caps.regions + [w]);
          return Success;
        case Once(kind, _) =>
          if kind in caps.seen { return InvalidCombination; }
          caps := caps.(seen := caps.seen + {kind});
          return if ok then Success else Failed;
        case Other(_) => return if ok then Success else Failed;
        case MapRange(_) => return InvalidArgument;
      }
    }

    /** `CheckCapabilities`: looks at every word, and stops at a region without backing. */
    method CheckCapabilities(ws: seq<Word>, backed: nat -> bool) returns (r: Result, inspected: seq<nat>)
      ensures r == Success <==> AllBacked(Regions(DecodeAll(ws)), backed)
      ensures r == Success ==> inspected == Regions(DecodeAll(ws))
    {
      ghost var ks := DecodeAll(ws);
      assert ks[0..] == ks;
      inspected := [];
      var i := 0;
      while i < |ws|
        invariant 0 <= i <= |ws| && inspected + Regions(ks[i..]) == Regions(ks)
        invariant AllBacked(Regions(ks[i..]), backed) <==> AllBacked(Regions(ks), backed)
      {
        var k := Decode(ws[i]);
        RegionsStep(ks, i, k, inspected, backed);
        if k.MapRegion? {
          if !backed(k.word) { return OutOfRange, inspected; }
          inspected := inspected + [k.word];
        }
        i := i + 1;
      }
      return Success, inspected;
    }

    /** `SetCapabilities`. */
    method SetCapabilities(ws: seq<Word>, other: Cap -> bool) returns (r: Result)
      modifies this
      ensures (caps, r) == Parse(old(caps), DecodeAll(ws), other)
    {
      ghost var ks := DecodeAll(ws);
      assert ks[0..] == ks;
      var i := 0;
      while i < |ws|
        invariant 0 <= i <= |ws| && Parse(caps, ks[i..], other) == Parse(old(caps), ks, other)
      {
        var k := Decode(ws[i]);
        ParseAt(caps, ks, i, k, other);
        if k.MapRange? {
          i := i + 1;
          if i == |ws| { return InvalidCombination; }
          if !Decode(ws[i]).MapRange? { return InvalidCombination; }
          if !other(k) { return Failed; }
        } else {
          DecodedMask(ws[i]);
          r := Set(k, other(k));
          if r != Success { return; }
        }
        i := i + 1;
      }
      return Success;
    }

    /** A user process gets its capabilities: the words are checked before the process is made, and
        parsed when it is initialised. */
    method Admit(ws: seq<Word>, backed: nat -> bool, other: Cap -> bool) returns (r: Result)
      modifies this
      ensures r == Success <==> AllBacked(Regions(DecodeAll(ws)), backed) && Parse(EMPTY, DecodeAll(ws), other).1 == Success
      ensures r == Success ==> AllBacked(caps.regions, backed) && forall x :: x in caps.svcs <==> SomeGrants(DecodeAll(ws), x)
      ensures r == Success ==> GrantedOnce(DecodeAll(ws))
    {
      ghost var inspected;
      r, inspected := CheckCapabilities(ws, backed);
      if r != Success { return; }
      caps := EMPTY;
      r := SetCapabilities(ws, other);
      if r == Success {
        AcceptedWords(ws, other);
        assert caps.regions == inspected;
      }
    }
  }

  predicate AllBacked(rs: seq<nat>, backed: nat -> bool) { rs == [] || (backed(rs[0]) && AllBacked(rs[1..], backed)) }

  lemma RegionsStep(ks: seq<Cap>, i: nat, k: Cap, done: seq<nat>, backed: nat -> bool)
    requires i < |ks| && ks[i] == k
    ensures k.MapRegion? ==> done + Regions(ks[i..]) == (done + [k.word]) + Regions(ks[i + 1..])
    ensures k.MapRegion? ==> (AllBacked(Regions(ks[i..]), backed) <==> backed(k.word) && AllBacked(Regions(ks[i + 1..]), backed))
    ensures !k.MapRegion? ==> Regions(ks[i..]) == Regions(ks[i + 1..])
  {
    assert ks[i..] == [k] + ks[i + 1..];
    FirstCounts(k, ks[i + 1..]);
    if k.MapRegion? {
      var rest := Regions(ks[i + 1..]);
      assert ([k.word] + rest)[1..] == rest && done + ([k.word] + rest) == (done + [k.word]) + rest;
    }
  }

  lemma DecodedMask(w: Word)
    ensures Decode(w).SyscallMask? ==> Decode(w).index < 8 && forall i :: i in Decode(w).bits ==> i < MASK_BITS
  {
    assert Pow2(3) == 2 * Pow2(2) && Pow2(2) == 2 * Pow2(1) && Pow2(1) == 2 * Pow2(0);
  }
}
