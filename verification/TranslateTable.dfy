/** The open-addressing translation cache against a finite map.

    A slot is searched from the home slot of the key on; the last slot of the table is only ever
    used as a home slot, and a search that would pass it aborts. */
module TranslateTable {
  import opened Basics
  import opened Digits

  datatype Entry = Entry(key: nat, value: nat)

  // ----- Hashing -----

  function Xor(a: nat, b: nat): nat
    decreases a + b
  {
    if a == 0 && b == 0 then 0 else 2 * Xor(a / 2, b / 2) + (a % 2 + b % 2) % 2
  }

  /** Digit by digit, exclusive or. */
  lemma {:induction false} XorBit(a: nat, b: nat, i: nat)
    ensures Bit(Xor(a, b), i) <==> Bit(a, i) != Bit(b, i)
    decreases i
  {
    if i > 0 {
      assert Xor(a, b) / 2 == Xor(a / 2, b / 2);
      XorBit(a / 2, b / 2, i - 1);
    }
  }

  /** The home slot: the upper bits of the key, without its two lowest, folded over the lower ones. */
  function Hash(size: nat, key: nat): (h: nat)
    requires size > 0
    ensures h < size
  {
    var merged := key / 4;
    Xor(merged / size, merged) % size
  }

  /** In a table of `Pow2(n)` slots, each digit of the home slot is the exclusive or of two digits of the
      key, `n` apart; the two lowest digits of the key have no part in it. */
  lemma HashDigits(n: nat, key: nat, i: nat)
    ensures Bit(Hash(Pow2(n), key), i) <==> i < n && Bit(key, i + 2) != Bit(key, n + i + 2)
  {
    var merged := key / 4;
    HighIs(merged, n);
    var x := Xor(High(merged, n), merged);
    LowIs(x, n);
    BitLow(x, n, i);
    XorBit(High(merged, n), merged, i);
    BitHigh(merged, n, i);
    assert merged == key / 2 / 2 == High(key / 2, 1) == High(key, 2);
    BitHigh(key, 2, i);
    BitHigh(key, 2, n + i);
  }

  /** The size of a table and the home slots of the keys. */
  datatype Shape = Shape(size: nat, home: nat -> nat)

  function TableShape(size: nat): (sh: Shape)
    requires size > 0
    ensures sh.size == size && forall k :: sh.home(k) == Hash(size, k)
  {
    Shape(size, k => Hash(size, k))
  }

  ghost predicate Fits(es: seq<Entry>, sh: Shape) {
    0 < sh.size <= |es| && forall k :: sh.home(k) < sh.size
  }

  // ----- Searching -----

  /** The first slot from `i` on that is empty or has the key; none if the search would abort. */
  function Find(es: seq<Entry>, size: nat, key: nat, i: nat): (r: Option<nat>)
    requires i < size <= |es|
    ensures r.Some? ==> i <= r.value < size && (es[r.value].key == 0 || es[r.value].key == key)
    ensures r.Some? ==> (r.value == i || r.value < size - 1) && forall j :: i <= j < r.value ==> es[j].key != 0 && es[j].key != key
    ensures r.None? ==> forall j :: i <= j < size && (j == i || j < size - 1) ==> es[j].key != 0 && es[j].key != key
    decreases size - i
  {
    if es[i].key == 0 || es[i].key == key then Some(i)
    else if i + 1 >= size - 1 then None
    else Find(es, size, key, i + 1)
  }

  function Slot(es: seq<Entry>, sh: Shape, key: nat): Option<nat>
    requires Fits(es, sh)
  {
    Find(es, sh.size, key, sh.home(key))
  }

  /** The slot holds a key, behind a run of used slots that starts at the key's home. */
  ghost predicate Reached(es: seq<Entry>, sh: Shape, i: nat)
    requires Fits(es, sh) && i < sh.size
  {
    var h := sh.home(es[i].key);
    h <= i && (i == h || i < sh.size - 1) && forall j :: h <= j < i ==> es[j].key != 0
  }

  /** Keys are unique and every probe run is free of gaps. */
  ghost predicate Sound(es: seq<Entry>, sh: Shape)
    requires Fits(es, sh)
  {
    && (forall i, j :: 0 <= i < j < sh.size && es[i].key != 0 ==> es[i].key != es[j].key)
    && (forall i {:trigger Reached(es, sh, i)} :: 0 <= i < sh.size && es[i].key != 0 ==> Reached(es, sh, i))
  }

  /** A search ends at the slot of the key. */
  lemma SlotOfKey(es: seq<Entry>, sh: Shape, key: nat, i: nat)
    requires Fits(es, sh) && Sound(es, sh) && key != 0 && i < sh.size && es[i].key == key
    ensures Slot(es, sh, key) == Some(i)
  {
    assert Reached(es, sh, i);
    var r := Slot(es, sh, key);
    assert r.Some? ==> r.value <= i;
  }

  // ----- The map -----

  /** The table holds exactly the bindings of `m`. */
  ghost predicate Holds(es: seq<Entry>, sh: Shape, m: map<nat, nat>)
    requires Fits(es, sh)
  {
    && (forall i {:trigger es[i]} :: 0 <= i < sh.size && es[i].key != 0 ==> es[i].key in m && m[es[i].key] == es[i].value)
    && (forall k {:trigger Stored(es, sh, k)} :: k in m ==> Stored(es, sh, k))
    && 0 !in m
  }

  ghost predicate Stored(es: seq<Entry>, sh: Shape, k: nat)
    requires sh.size <= |es|
  {
    exists i :: 0 <= i < sh.size && es[i].key == k
  }

  function LookupIn(es: seq<Entry>, sh: Shape, key: nat): nat
    requires Fits(es, sh)
  {
    var s := Slot(es, sh, key);
    if s.Some? && es[s.value].key == key then es[s.value].value else 0
  }

  lemma LookupCorrect(es: seq<Entry>, sh: Shape, m: map<nat, nat>, key: nat)
    requires Fits(es, sh) && Sound(es, sh) && Holds(es, sh, m) && key != 0
    ensures LookupIn(es, sh, key) == if key in m then m[key] else 0
  {
    if key in m {
      assert Stored(es, sh, key);
      var i :| 0 <= i < sh.size && es[i].key == key;
      SlotOfKey(es, sh, key, i);
    }
  }

  /** Writing to the slot a search ended at. */
  lemma StoreCorrect(es: seq<Entry>, sh: Shape, m: map<nat, nat>, key: nat, value: nat)
    requires Fits(es, sh) && Sound(es, sh) && Holds(es, sh, m) && key != 0 && Slot(es, sh, key).Some?
    ensures var es' := es[Slot(es, sh, key).value := Entry(key, value)];
            Sound(es', sh) && Holds(es', sh, m[key := value])
  {
    var s := Slot(es, sh, key).value;
    var es' := es[s := Entry(key, value)];
    forall i | 0 <= i < sh.size && es[i].key == key ensures i == s { SlotOfKey(es, sh, key, i); }
    forall i | 0 <= i < sh.size && es'[i].key != 0 ensures Reached(es', sh, i) {
      assert i != s ==> Reached(es, sh, i);
    }
    forall k | k in m[key := value] ensures Stored(es', sh, k) {
      if k == key { assert es'[s].key == k; }
      else {
        assert Stored(es, sh, k);
        var i :| 0 <= i < sh.size && es[i].key == k;
        assert es'[i].key == k;
      }
    }
  }

  // ----- Whole runs -----

  datatype Op = Put(key: nat, value: nat) | GetOrPut(key: nat, value: nat) | Lookup(key: nat)

  /** The table after an operation and what the operation returns; none if it aborts. */
  function Step(es: seq<Entry>, sh: Shape, op: Op): (r: Option<(seq<Entry>, nat)>)
    requires Fits(es, sh)
    ensures r.Some? ==> |r.value.0| == |es|
  {
    var s := Slot(es, sh, op.key);
    match op
    case Put(k, v) => if s.None? then None else Some((es[s.value := Entry(k, v)], 1))
    case GetOrPut(k, v) =>
      if s.None? then None
      else Some((if es[s.value].key == k && es[s.value].value != 0 then es else es[s.value := Entry(k, v)], 2 * s.value + 1))
    case Lookup(k) => Some((es, LookupIn(es, sh, k)))
  }

  function MapStep(m: map<nat, nat>, op: Op): map<nat, nat> {
    match op
    case Put(k, v) => m[k := v]
    case GetOrPut(k, v) => if k in m && m[k] != 0 then m else m[k := v]
    case Lookup(_) => m
  }

  /** Used slots keep their keys. */
  ghost predicate Kept(es: seq<Entry>, es': seq<Entry>) {
    |es'| == |es| && forall i :: 0 <= i < |es| && es[i].key != 0 ==> es'[i].key == es[i].key
  }

  lemma StepCorrect(es: seq<Entry>, sh: Shape, m: map<nat, nat>, op: Op)
    requires Fits(es, sh) && Sound(es, sh) && Holds(es, sh, m) && op.key != 0 && Step(es, sh, op).Some?
    ensures var (es', r) := Step(es, sh, op).value;
            && Sound(es', sh) && Holds(es', sh, MapStep(m, op)) && Kept(es, es')
            && (op.Lookup? ==> r == if op.key in m then m[op.key] else 0)
            && (op.GetOrPut? ==> r % 2 == 1 && r / 2 < sh.size && es'[r / 2].key == op.key)
  {
    var s := Slot(es, sh, op.key);
    if op.Lookup? { LookupCorrect(es, sh, m, op.key); }
    else {
      StoreCorrect(es, sh, m, op.key, op.value);
      if op.key in m {
        assert Stored(es, sh, op.key);
        var i :| 0 <= i < sh.size && es[i].key == op.key;
        SlotOfKey(es, sh, op.key, i);
      }
    }
  }

  function Run(es: seq<Entry>, sh: Shape, ops: seq<Op>): (r: Option<seq<Entry>>)
    requires Fits(es, sh)
    ensures r.Some? ==> |r.value| == |es|
    decreases |ops|
  {
    if ops == [] then Some(es)
    else
      var n := Step(es, sh, ops[0]);
      if n.None? then None else Run(n.value.0, sh, ops[1..])
  }

  function MapRun(m: map<nat, nat>, ops: seq<Op>): map<nat, nat>
    decreases |ops|
  {
    if ops == [] then m else MapRun(MapStep(m, ops[0]), ops[1..])
  }

  /** Over every run that does not abort the table is the map, and used slots keep their keys. */
  lemma {:induction false} RunCorrect(es: seq<Entry>, sh: Shape, m: map<nat, nat>, ops: seq<Op>)
    requires Fits(es, sh) && Sound(es, sh) && Holds(es, sh, m) && (forall op :: op in ops ==> op.key != 0)
    requires Run(es, sh, ops).Some?
    ensures var es' := Run(es, sh, ops).value;
            Sound(es', sh) && Holds(es', sh, MapRun(m, ops)) && Kept(es, es')
    decreases |ops|
  {
    if ops != [] {
      assert ops[0] in ops;
      StepCorrect(es, sh, m, ops[0]);
      RunCorrect(Step(es, sh, ops[0]).value.0, sh, MapStep(m, ops[0]), ops[1..]);
    }
  }

  /** A key's slot number is the same in all later calls, and those calls do not abort. */
  lemma SlotNumberStable(es: seq<Entry>, sh: Shape, m: map<nat, nat>, key: nat, v: nat, ops: seq<Op>, w: nat)
    requires Fits(es, sh) && Sound(es, sh) && Holds(es, sh, m) && key != 0 && (forall op :: op in ops ==> op.key != 0)
    requires Step(es, sh, GetOrPut(key, v)).Some? && Run(Step(es, sh, GetOrPut(key, v)).value.0, sh, ops).Some?
    ensures var (es1, number) := Step(es, sh, GetOrPut(key, v)).value;
            var again := Step(Run(es1, sh, ops).value, sh, GetOrPut(key, w));
            again.Some? && again.value.1 == number
  {
    var (es1, number) := Step(es, sh, GetOrPut(key, v)).value;
    StepCorrect(es, sh, m, GetOrPut(key, v));
    RunCorrect(es1, sh, MapStep(m, GetOrPut(key, v)), ops);
    SlotOfKey(Run(es1, sh, ops).value, sh, key, number / 2);
  }

  /** An operation aborts exactly if the key is absent and its probe run is full. */
  lemma AbortsExactly(es: seq<Entry>, sh: Shape, m: map<nat, nat>, op: Op)
    requires Fits(es, sh) && Sound(es, sh) && Holds(es, sh, m) && op.key != 0
    ensures Step(es, sh, op).None? <==>
              && !op.Lookup? && op.key !in m
              && var h := sh.home(op.key); forall j :: h <= j < sh.size && (j == h || j < sh.size - 1) ==> es[j].key != 0
  {
    if op.key in m {
      assert Stored(es, sh, op.key);
      var i :| 0 <= i < sh.size && es[i].key == op.key;
      SlotOfKey(es, sh, op.key, i);
    }
  }

  // ----- The table in place -----

  class Table {
    const size: nat
    const entries: array<Entry>

    ghost predicate Valid()
      reads this, entries
    {
      0 < size && entries.Length == size + 10 && Sound(entries[..], TableShape(size))
    }

    constructor (bits: nat)
      ensures Valid() && fresh(entries) && size == Pow2(bits) && Holds(entries[..], TableShape(size), map[])
    {
      size := Pow2(bits);
      entries := new Entry[Pow2(bits) + 10](_ => Entry(0, 0));
      new;
      entries[size + 9] := Entry(0xFFFF_FFFF_FFFF_FFFF, 0);
    }

    method Clear()
      requires Valid()
      modifies entries
      ensures Valid() && Holds(entries[..], TableShape(size), map[])
    {
      for i := 0 to entries.Length
        invariant forall j :: 0 <= j < i ==> entries[j] == Entry(0, 0)
      {
        entries[i] := Entry(0, 0);
      }
    }

    /** The probe loop that the writing operations share. */
    method Probe(key: nat) returns (r: Option<nat>)
      requires 0 < size <= entries.Length
      ensures r == Slot(entries[..], TableShape(size), key)
    {
      ghost var es := entries[..];
      var index := Hash(size, key);
      while true
        invariant index < size && Find(es, size, key, index) == Slot(es, TableShape(size), key)
        decreases size - index
      {
        if entries[index].key == 0 || entries[index].key == key { return Some(index); }
        index := index + 1;
        if index >= size - 1 { return None; }
      }
    }

    /** False stands for the abort. */
    method Put(key: nat, value: nat) returns (ok: bool)
      requires Valid() && key != 0
      modifies entries
      ensures var n := Step(old(entries[..]), TableShape(size), Op.Put(key, value));
              ok == n.Some? && entries[..] == if ok then n.value.0 else old(entries[..])
      ensures forall m :: old(Holds(entries[..], TableShape(size), m)) ==> Holds(entries[..], TableShape(size), if ok then m[key := value] else m)
      ensures Valid()
    {
      ghost var es := entries[..];
      var s := Probe(key);
      if s.None? { return false; }
      forall m | Holds(es, TableShape(size), m) ensures Holds(es[s.value := Entry(key, value)], TableShape(size), m[key := value]) {
        StoreCorrect(es, TableShape(size), m, key, value);
      }
      entries[s.value] := Entry(key, value);
      StoreKeepsSound(es, TableShape(size), key, value);
      return true;
    }

    method GetOrPut(key: nat, value: nat) returns (r: nat)
      requires Valid() && key != 0
      modifies entries
      ensures var n := Step(old(entries[..]), TableShape(size), Op.GetOrPut(key, value));
              r == (if n.Some? then n.value.1 else 0) && entries[..] == if n.Some? then n.value.0 else old(entries[..])
      ensures Valid()
    {
      ghost var es := entries[..];
      var s := Probe(key);
      if s.None? { return 0; }
      var i := s.value;
      if entries[i].key == key && entries[i].value != 0 { return 2 * i + 1; }
      entries[i] := Entry(key, value);
      StoreKeepsSound(es, TableShape(size), key, value);
      return 2 * i + 1;
    }

    method Lookup(key: nat) returns (v: nat)
      requires Valid() && key != 0
      ensures v == LookupIn(entries[..], TableShape(size), key)
      ensures forall m :: Holds(entries[..], TableShape(size), m) ==> v == if key in m then m[key] else 0
    {
      ghost var es := entries[..];
      var index := Hash(size, key);
      v := 0;
      while true
        invariant index < size && Find(es, size, key, index) == Slot(es, TableShape(size), key)
        decreases size - index
      {
        var c := entries[index].key;
        if c == key { v := entries[index].value; break; }
        index := index + 1;
        if index >= size - 1 || c == 0 { break; }
      }
      assert v == LookupIn(es, TableShape(size), key);
      forall m | Holds(es, TableShape(size), m) ensures v == if key in m then m[key] else 0 { LookupCorrect(es, TableShape(size), m, key); }
    }
  }

  /** Any sound table holds some map, so storing keeps it sound. */
  lemma StoreKeepsSound(es: seq<Entry>, sh: Shape, key: nat, value: nat)
    requires Fits(es, sh) && Sound(es, sh) && key != 0 && Slot(es, sh, key).Some?
    ensures Sound(es[Slot(es, sh, key).value := Entry(key, value)], sh)
  {
    var ks := set i | 0 <= i < sh.size && es[i].key != 0 :: es[i].key;
    var m := map k | k in ks :: LookupIn(es, sh, k);
    forall i | 0 <= i < sh.size && es[i].key != 0 ensures es[i].key in m && m[es[i].key] == es[i].value {
      SlotOfKey(es, sh, es[i].key, i);
    }
    forall k | k in m ensures Stored(es, sh, k) {}
    StoreCorrect(es, sh, m, key, value);
  }
}
