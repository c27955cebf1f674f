/** Use counters and pseudo-instruction chains of the IR.

    Instructions are numbered; `insts` holds the live ones.  A pseudo instruction reads a flag of
    the definition in its argument 0 and hangs in that definition's chain. */
module UseDef {
  import opened Basics

  type Id = nat

  datatype OpCode =
    | GetCarry | GetOverFlow | GetNegate | GetZero | GetNZCV | GetNegZero | GetAllFlags
    | Plain(code: nat)

  predicate IsPseudo(op: OpCode) { !op.Plain? }

  /** An argument slot: only values and lambdas of a value refer to a definition. */
  datatype Slot = Void | Value(def: Id) | LambdaValue(def: Id) | LambdaImm(imm: int) | OperandOp(code: nat) | Data(bits: int)

  const MAX_ARGS: nat := 4

  function Def(s: Slot): Option<Id> {
    match s
    case Value(d) => Some(d)
    case LambdaValue(d) => Some(d)
    case _ => None
  }

  /** `numUse` is an 8-bit counter. */
  datatype Inst = Inst(op: OpCode, slots: seq<Slot>, numUse: nat, next: Option<Id>)

  type Insts = map<Id, Inst>

  // ----- Field updates -----

  function SetSlot(x: Inst, j: nat, s: Slot): Inst
    requires j < |x.slots|
  {
    x.(slots := x.slots[j := s])
  }

  function SetNext(x: Inst, n: Option<Id>): Inst { x.(next := n) }

  function Bump(x: Inst, n: int): Inst { x.(numUse := (x.numUse + n) % 256) }

  // ----- What the counters and chains stand for -----

  /** The slots that refer to `d`. */
  ghost function Uses(p: Insts, d: Id): set<(Id, nat)> {
    set i, j | i in p && 0 <= j < |p[i].slots| && Def(p[i].slots[j]) == Some(d) :: (i, j)
  }

  ghost predicate Counted(p: Insts, terminals: map<Id, nat>, d: Id)
    requires d in p
  {
    d in terminals && p[d].numUse == (|Uses(p, d)| + terminals[d]) % 256
  }

  /** The links from `first` on run through exactly `c`. */
  ghost predicate Chain(p: Insts, first: Option<Id>, c: seq<Id>)
    decreases c
  {
    if c == [] then first == None
    else first == Some(c[0]) && c[0] in p && Chain(p, p[c[0]].next, c[1..])
  }

  /** `i` is a live pseudo instruction on `d`. */
  predicate Attached(p: Insts, i: Id, d: Id) {
    i in p && IsPseudo(p[i].op) && |p[i].slots| == MAX_ARGS && p[i].slots[0] == Value(d)
  }

  /** The chain of a definition lists the pseudo instructions on it. */
  ghost predicate ChainOk(p: Insts, chains: map<Id, seq<Id>>, d: Id)
    requires d in p
  {
    && d in chains && Chain(p, p[d].next, chains[d]) && NoDup(chains[d])
    && (forall i {:trigger Attached(p, i, d)} :: i in chains[d] <==> Attached(p, i, d))
  }

  /** Slots refer to live instructions; a pseudo instruction refers to at most one, a definition
      that is no pseudo instruction itself, through argument 0. */
  ghost predicate InstOk(p: Insts, i: Id)
    requires i in p
  {
    && |p[i].slots| == MAX_ARGS
    && (forall j :: 0 <= j < MAX_ARGS && Def(p[i].slots[j]).Some? ==> Def(p[i].slots[j]).value in p)
    && (IsPseudo(p[i].op) ==>
          && (forall j :: 1 <= j < MAX_ARGS ==> Def(p[i].slots[j]) == None) && !p[i].slots[0].LambdaValue?
          && (p[i].slots[0].Value? ==> !IsPseudo(p[p[i].slots[0].def].op))
          && (!p[i].slots[0].Value? ==> p[i].next == None))
  }

  ghost predicate Valid(p: Insts, chains: map<Id, seq<Id>>, terminals: map<Id, nat>) {
    && (forall i {:trigger InstOk(p, i)} :: i in p ==> InstOk(p, i))
    && (forall d {:trigger Counted(p, terminals, d)} :: d in p ==> Counted(p, terminals, d))
    && (forall d {:trigger ChainOk(p, chains, d)} :: d in p && !IsPseudo(p[d].op) ==> ChainOk(p, chains, d))
  }

  // ----- Chains -----

  lemma {:induction false} ChainFrame(p: Insts, p': Insts, first: Option<Id>, c: seq<Id>)
    requires Chain(p, first, c) && forall x :: x in c ==> x in p && x in p' && p'[x].next == p[x].next
    ensures Chain(p', first, c)
    decreases c
  {
    if c != [] { ChainFrame(p, p', p[c[0]].next, c[1..]); }
  }

  lemma {:induction false} NoDupAppend(c: seq<Id>, i: Id)
    requires NoDup(c) && i !in c
    ensures NoDup(c + [i])
  {
    if c != [] {
      assert (c + [i])[1..] == c[1..] + [i];
      NoDupAppend(c[1..], i);
    }
  }

  /** Hanging `i` on the last element. */
  lemma {:induction false} ChainAppend(p: Insts, p': Insts, first: Option<Id>, c: seq<Id>, i: Id)
    requires Chain(p, first, c) && c != [] && NoDup(c) && i !in c && i in p' && p'[i].next == None
    requires forall x :: x in c ==> x in p && x in p' && p'[x].next == if x == c[|c| - 1] then Some(i) else p[x].next
    ensures Chain(p', first, c + [i])
    decreases c
  {
    assert (c + [i])[1..] == c[1..] + [i];
    if |c| == 1 {
      assert c[1..] == [] && ([] + [i])[1..] == [] && p'[c[0]].next == Some(i);
      assert Chain(p', Some(i), [i]) by { assert [i][1..] == []; }
      assert c[1..] + [i] == [i];
    } else {
      assert c[|c| - 1] == c[1..][|c| - 2] && c[|c| - 1] in c[1..];
      ChainAppend(p, p', p[c[0]].next, c[1..], i);
    }
  }

  function Without(c: seq<Id>, i: Id): (r: seq<Id>)
    ensures forall x :: x in r ==> x in c && x != i
    ensures forall x :: x in c && x != i ==> x in r
  {
    if c == [] then [] else if c[0] == i then Without(c[1..], i) else [c[0]] + Without(c[1..], i)
  }

  lemma {:induction false} WithoutAbsent(c: seq<Id>, i: Id)
    requires i !in c
    ensures Without(c, i) == c
  {
    if c != [] { WithoutAbsent(c[1..], i); assert c == [c[0]] + c[1..]; }
  }

  lemma {:induction false} NoDupWithout(c: seq<Id>, i: Id)
    requires NoDup(c)
    ensures NoDup(Without(c, i))
  {
    if c != [] {
      NoDupWithout(c[1..], i);
      if c[0] != i { assert Without(c, i)[1..] == Without(c[1..], i); }
    }
  }

  // ----- Adding a use -----

  /** The instruction that gets the link when `i` joins the chain. */
  function Last(d: Id, c: seq<Id>): Id { if c == [] then d else c[|c| - 1] }

  /** `Use`: count the use, and hang a pseudo instruction at the end of the chain. */
  function Hook(p: Insts, c: seq<Id>, i: Id, d: Id): Insts
    requires i in p && d in p && Last(d, c) in p
  {
    var p1 := p[d := Bump(p[d], 1)];
    if IsPseudo(p[i].op) then p1[Last(d, c) := SetNext(p1[Last(d, c)], Some(i))] else p1
  }

  /** What differs between two programs that agree in everything but one slot and links and counts. */
  ghost predicate SlotSet(p: Insts, p': Insts, i: Id, j: nat, s: Slot) {
    && p'.Keys == p.Keys && i in p && j < |p[i].slots|
    && (forall x {:trigger p'[x]} :: x in p ==>
          p'[x].op == p[x].op && p'[x].slots == if x == i then p[i].slots[j := s] else p[x].slots)
  }

  lemma UsesSet(p: Insts, p': Insts, i: Id, j: nat, s: Slot, e: Id)
    requires SlotSet(p, p', i, j, s)
    ensures Uses(p', e) == (Uses(p, e) - {(i, j)}) + (if Def(s) == Some(e) then {(i, j)} else {})
    ensures (i, j) in Uses(p, e) <==> Def(p[i].slots[j]) == Some(e)
  {
    forall u ensures u in Uses(p', e) <==> u in (Uses(p, e) - {(i, j)}) + (if Def(s) == Some(e) then {(i, j)} else {}) {
      if u.0 in p { assert p'[u.0].op == p[u.0].op; }
    }
  }

  /** The counters after one more use. */
  lemma CountedAdd(p: Insts, p': Insts, terminals: map<Id, nat>, i: Id, j: nat, s: Slot, e: Id)
    requires SlotSet(p, p', i, j, s) && Def(p[i].slots[j]) == None && e in p && Counted(p, terminals, e)
    requires p'[e].numUse == if Def(s) == Some(e) then (p[e].numUse + 1) % 256 else p[e].numUse
    ensures Counted(p', terminals, e)
  {
    UsesAdd(p, p', i, j, s, e);
    AddMod(|Uses(p, e)| + terminals[e], 1);
  }

  lemma UsesAdd(p: Insts, p': Insts, i: Id, j: nat, s: Slot, e: Id)
    requires SlotSet(p, p', i, j, s) && Def(p[i].slots[j]) == None
    ensures |Uses(p', e)| == |Uses(p, e)| + if Def(s) == Some(e) then 1 else 0
  {
    UsesSet(p, p', i, j, s, e);
    OneMore(Uses(p, e), Uses(p', e), (i, j), Def(s) == Some(e));
  }

  lemma OneMore(a: set<(Id, nat)>, b: set<(Id, nat)>, u: (Id, nat), more: bool)
    requires u !in a && b == (a - {u}) + (if more then {u} else {})
    ensures |b| == |a| + if more then 1 else 0
  {
    assert a - {u} == a;
  }

  lemma AddMod(a: int, b: int)
    ensures (a % 256 + b) % 256 == (a + b) % 256
  {
  }

  lemma ChainOkAdd(p: Insts, p': Insts, chains: map<Id, seq<Id>>, i: Id, j: nat, s: Slot, e: Id)
    requires SlotSet(p, p', i, j, s) && Def(p[i].slots[j]) == None && e in p && InstOk(p, i) && ChainOk(p, chains, e)
    requires Attached(p', i, e) ==> Attached(p, i, e)
    requires p'[e].next == p[e].next && forall x :: x in chains[e] ==> x in p && p'[x].next == p[x].next
    ensures ChainOk(p', chains, e)
  {
    ChainFrame(p, p', p[e].next, chains[e]);
    forall x ensures x in chains[e] <==> Attached(p', x, e) {
      assert x in chains[e] <==> Attached(p, x, e);
      if x in p { assert p'[x].op == p[x].op; }
    }
  }

  /** Whether a slot value may be stored: pseudo instructions take one plain value, in argument 0. */
  predicate Storable(p: Insts, i: Id, j: nat, s: Slot)
    requires i in p
  {
    && j < MAX_ARGS && (Def(s).Some? ==> Def(s).value in p)
    && (IsPseudo(p[i].op) && Def(s).Some? ==> j == 0 && s.Value? && !IsPseudo(p[s.def].op))
  }

  /** The chain that an instruction joins with a use of `d`. */
  ghost function ChainOf(p: Insts, chains: map<Id, seq<Id>>, i: Id, d: Id): seq<Id>
    requires i in p
  {
    if IsPseudo(p[i].op) && d in chains then chains[d] else []
  }

  ghost function Joined(p: Insts, chains: map<Id, seq<Id>>, i: Id, d: Id): map<Id, seq<Id>>
    requires i in p
  {
    if IsPseudo(p[i].op) then chains[d := ChainOf(p, chains, i, d) + [i]] else chains
  }

  /** Store a slot value and record the use. */
  ghost function AddUse(p: Insts, chains: map<Id, seq<Id>>, i: Id, j: nat, s: Slot): Insts
    requires i in p && j < |p[i].slots| && Def(s).Some? && Def(s).value in p && Last(Def(s).value, ChainOf(p, chains, i, Def(s).value)) in p
  {
    Hook(p[i := SetSlot(p[i], j, s)], ChainOf(p, chains, i, Def(s).value), i, Def(s).value)
  }

  lemma LastKnown(p: Insts, chains: map<Id, seq<Id>>, terminals: map<Id, nat>, i: Id, d: Id)
    requires Valid(p, chains, terminals) && i in p && d in p && (IsPseudo(p[i].op) ==> !IsPseudo(p[d].op))
    ensures var c := ChainOf(p, chains, i, d);
            && Last(d, c) in p && (c != [] ==> Attached(p, Last(d, c), d)) && forall x :: x in c ==> Attached(p, x, d)
  {
    if IsPseudo(p[i].op) {
      assert ChainOk(p, chains, d);
      assert forall x :: x in chains[d] ==> Attached(p, x, d);
      assert chains[d] != [] ==> chains[d][|chains[d]| - 1] in chains[d];
    }
  }

  /** What `AddUse` changes: one slot, one counter and, for a pseudo instruction, one link. */
  ghost predicate Added(p: Insts, p': Insts, i: Id, j: nat, s: Slot, d: Id, last: Id) {
    && SlotSet(p, p', i, j, s)
    && (forall x {:trigger p'[x].numUse} :: x in p ==> p'[x].numUse == if x == d then (p[x].numUse + 1) % 256 else p[x].numUse)
    && (forall x {:trigger p'[x].next} :: x in p ==> p'[x].next == if IsPseudo(p[i].op) && x == last then Some(i) else p[x].next)
  }

  lemma AddUseShape(p: Insts, chains: map<Id, seq<Id>>, i: Id, j: nat, s: Slot)
    requires i in p && j < |p[i].slots| && Def(s).Some? && Def(s).value in p && Last(Def(s).value, ChainOf(p, chains, i, Def(s).value)) in p
    ensures Added(p, AddUse(p, chains, i, j, s), i, j, s, Def(s).value, Last(Def(s).value, ChainOf(p, chains, i, Def(s).value)))
  {
  }

  /** Storing a slot value where there was none, with its use, keeps counters and chains right. */
  lemma AddUseValid(p: Insts, chains: map<Id, seq<Id>>, terminals: map<Id, nat>, i: Id, j: nat, s: Slot)
    requires Valid(p, chains, terminals) && i in p && Storable(p, i, j, s) && Def(s).Some? && j < |p[i].slots| && Def(p[i].slots[j]) == None
    ensures Last(Def(s).value, ChainOf(p, chains, i, Def(s).value)) in p
    ensures Valid(AddUse(p, chains, i, j, s), Joined(p, chains, i, Def(s).value), terminals)
  {
    LastKnown(p, chains, terminals, i, Def(s).value);
    AddUseShape(p, chains, i, j, s);
    AddedValid(p, AddUse(p, chains, i, j, s), chains, terminals, i, j, s);
  }

  lemma AddedValid(p: Insts, p': Insts, chains: map<Id, seq<Id>>, terminals: map<Id, nat>, i: Id, j: nat, s: Slot)
    requires Valid(p, chains, terminals) && i in p && Storable(p, i, j, s) && Def(s).Some? && j < |p[i].slots| && Def(p[i].slots[j]) == None
    requires Added(p, p', i, j, s, Def(s).value, Last(Def(s).value, ChainOf(p, chains, i, Def(s).value)))
    ensures Valid(p', Joined(p, chains, i, Def(s).value), terminals)
  {
    var d := Def(s).value;
    var last := Last(d, ChainOf(p, chains, i, d));
    LastKnown(p, chains, terminals, i, d);
    forall e | e in p' ensures Counted(p', terminals, e) {
      assert Counted(p, terminals, e);
      CountedAdd(p, p', terminals, i, j, s, e);
    }
    assert InstOk(p, last);
    forall e | e in p' ensures InstOk(p', e) { AddInstOk(p, p', i, j, s, e, last); }
    forall e | e in p' && !IsPseudo(p'[e].op) ensures ChainOk(p', Joined(p, chains, i, d), e) {
      assert p'[e].op == p[e].op;
      AddChainOk(p, p', chains, terminals, i, j, s, e);
    }
  }

  lemma AddChainOk(p: Insts, p': Insts, chains: map<Id, seq<Id>>, terminals: map<Id, nat>, i: Id, j: nat, s: Slot, e: Id)
    requires Valid(p, chains, terminals) && i in p && Storable(p, i, j, s) && Def(s).Some? && j < |p[i].slots| && Def(p[i].slots[j]) == None
    requires Added(p, p', i, j, s, Def(s).value, Last(Def(s).value, ChainOf(p, chains, i, Def(s).value)))
    requires e in p && !IsPseudo(p[e].op)
    ensures ChainOk(p', Joined(p, chains, i, Def(s).value), e)
  {
    var d := Def(s).value;
    LastKnown(p, chains, terminals, i, d);
    assert ChainOk(p, chains, e) && InstOk(p, i);
    if IsPseudo(p[i].op) && e == d { JoinsChain(p, p', chains, i, d); }
    else {
      forall x | x in chains[e] ensures x in p && p'[x].next == p[x].next { assert Attached(p, x, e); }
      ChainOkAdd(p, p', chains, i, j, s, e);
    }
  }

  lemma AddInstOk(p: Insts, p': Insts, i: Id, j: nat, s: Slot, e: Id, last: Id)
    requires (forall x {:trigger InstOk(p, x)} :: x in p ==> InstOk(p, x)) && e in p && last in p && InstOk(p, last)
    requires i in p && Storable(p, i, j, s) && Def(s).Some? && Added(p, p', i, j, s, Def(s).value, last) && Def(p[i].slots[j]) == None
    requires IsPseudo(p[i].op) && IsPseudo(p[last].op) ==> p[last].slots[0].Value?
    ensures InstOk(p', e)
  {
    assert InstOk(p, e) && InstOk(p, i) && p'[e].op == p[e].op;
  }

  lemma JoinsChain(p: Insts, p': Insts, chains: map<Id, seq<Id>>, i: Id, d: Id)
    requires i in p && d in p && IsPseudo(p[i].op) && !IsPseudo(p[d].op) && InstOk(p, i) && ChainOk(p, chains, d) && !p[i].slots[0].Value?
    requires SlotSet(p, p', i, 0, Value(d))
    requires forall x :: x in p ==> p'[x].next == if x == Last(d, chains[d]) then Some(i) else p[x].next
    ensures ChainOk(p', chains[d := chains[d] + [i]], d)
  {
    var c := chains[d];
    assert !Attached(p, i, d) && i !in c;
    NoDupAppend(c, i);
    forall x | x in c ensures x in p && x != d { assert Attached(p, x, d); }
    if c == [] {
      assert c + [i] == [i] && [i][1..] == [];
    } else { ChainAppend(p, p', p[d].next, c, i); }
    forall x ensures x in c + [i] <==> Attached(p', x, d) {
      assert x in c <==> Attached(p, x, d);
      if x in p { assert p'[x].op == p[x].op; }
    }
  }

  // ----- Pseudo instructions on pseudo instructions -----

  /** The chains of all definitions that are no pseudo instructions are right. */
  ghost predicate ChainsOk(p: Insts, chains: map<Id, seq<Id>>) {
    forall d {:trigger ChainOk(p, chains, d)} :: d in p && !IsPseudo(p[d].op) ==> ChainOk(p, chains, d)
  }

  lemma {:induction false} ChainUnique(p: Insts, first: Option<Id>, c: seq<Id>, c': seq<Id>)
    requires Chain(p, first, c) && Chain(p, first, c')
    ensures c == c'
    decreases c
  {
    if c != [] && c' != [] {
      ChainUnique(p, p[c[0]].next, c[1..], c'[1..]);
      assert c == [c[0]] + c[1..] && c' == [c'[0]] + c'[1..];
    }
  }

  /** From a member of a chain on, the links end where the chain ends. */
  lemma {:induction false} TailEnds(p: Insts, first: Option<Id>, c: seq<Id>, d: Id, t: seq<Id>)
    requires Chain(p, first, c) && d in c && d in p && Chain(p, p[d].next, t)
    ensures Last(d, t) == c[|c| - 1]
    decreases c
  {
    assert c == [c[0]] + c[1..];
    if c[0] == d {
      ChainUnique(p, p[d].next, c[1..], t);
    } else { TailEnds(p, p[c[0]].next, c[1..], d, t); }
  }

  /** A pseudo instruction that hangs in no chain. */
  predicate Loose(p: Insts, i: Id) { i in p && IsPseudo(p[i].op) && |p[i].slots| == MAX_ARGS && Def(p[i].slots[0]) == None }

  /** What `Use` by a pseudo instruction changes. */
  lemma HookShape(p: Insts, i: Id, d: Id, c: seq<Id>)
    requires i in p && d in p && Last(d, c) in p && IsPseudo(p[i].op) && |p[i].slots| == MAX_ARGS
    ensures var p' := Hook(p[i := SetSlot(p[i], 0, Value(d))], c, i, d); Added(p, p', i, 0, Value(d), d, Last(d, c))
  {
  }

  lemma LastIn(p: Insts, d: Id, c: seq<Id>)
    requires d in p && Chain(p, p[d].next, c)
    ensures Last(d, c) in p
    decreases c
  {
    if c != [] {
      LastIn(p, c[0], c[1..]);
      assert Last(d, c) == Last(c[0], c[1..]);
    }
  }

  /** A use by a pseudo instruction, which walks the links `c` of the definition, leaves all chains
      right if and only if the definition is not a pseudo instruction on something itself. */
  lemma PseudoUseExact(p: Insts, chains: map<Id, seq<Id>>, terminals: map<Id, nat>, i: Id, d: Id, c: seq<Id>)
    requires Valid(p, chains, terminals) && Loose(p, i) && d in p && Chain(p, p[d].next, c)
    ensures Last(d, c) in p
    ensures var p' := Hook(p[i := SetSlot(p[i], 0, Value(d))], c, i, d);
            (exists chains' :: ChainsOk(p', chains')) <==> !IsPseudo(p[d].op) || Loose(p, d)
  {
    LastIn(p, d, c);
    assert InstOk(p, i) && InstOk(p, d);
    var p' := Hook(p[i := SetSlot(p[i], 0, Value(d))], c, i, d);
    HookShape(p, i, d, c);
    if !IsPseudo(p[d].op) {
      assert ChainOk(p, chains, d);
      ChainUnique(p, p[d].next, c, chains[d]);
      AddedValid(p, p', chains, terminals, i, 0, Value(d));
      assert ChainsOk(p', Joined(p, chains, i, d));
    } else if Loose(p, d) {
      assert c == [];
      LooseUse(p, p', chains, terminals, i, d);
      assert ChainsOk(p', chains);
    } else {
      if chains' :| ChainsOk(p', chains') { StrayUse(p, p', chains, chains', terminals, i, d, c); }
    }
  }

  /** A definition that hangs nowhere: no other chain is touched. */
  lemma LooseUse(p: Insts, p': Insts, chains: map<Id, seq<Id>>, terminals: map<Id, nat>, i: Id, d: Id)
    requires Valid(p, chains, terminals) && Loose(p, i) && Loose(p, d) && Added(p, p', i, 0, Value(d), d, d)
    ensures ChainsOk(p', chains)
  {
    forall e | e in p' && !IsPseudo(p'[e].op) ensures ChainOk(p', chains, e) {
      assert p'[e].op == p[e].op && ChainOk(p, chains, e) && InstOk(p, i);
      forall x | x in chains[e] ensures x in p && p'[x].next == p[x].next { assert Attached(p, x, e); }
      ChainOkAdd(p, p', chains, i, 0, Value(d), e);
    }
  }

  /** A definition that hangs in a chain: the user gets into that chain, where it does not belong. */
  lemma StrayUse(p: Insts, p': Insts, chains: map<Id, seq<Id>>, chains': map<Id, seq<Id>>, terminals: map<Id, nat>, i: Id, d: Id, c: seq<Id>)
    requires Valid(p, chains, terminals) && Loose(p, i) && Added(p, p', i, 0, Value(d), d, Last(d, c))
    requires d in p && IsPseudo(p[d].op) && !Loose(p, d) && Chain(p, p[d].next, c)
    ensures !ChainsOk(p', chains')
  {
    assert InstOk(p, d) && InstOk(p, i);
    var x := p[d].slots[0].def;
    assert ChainOk(p, chains, x) && Attached(p, d, x);
    var l := chains[x];
    TailEnds(p, p[x].next, l, d, c);
    forall y | y in l ensures y in p && y != x && y != i { assert Attached(p, y, x); }
    assert l[|l| - 1] in l;
    ChainAppend(p, p', p[x].next, l, i);
    assert i in l + [i] && !Attached(p', i, x);
    if ChainsOk(p', chains') {
      assert p'[x].op == p[x].op && ChainOk(p', chains', x);
      ChainUnique(p', p'[x].next, l + [i], chains'[x]);
    }
  }

  // ----- Dropping a use -----

  /** The instruction whose link leads to `i`. */
  function Before(d: Id, c: seq<Id>, i: Id): Id {
    if |c| < 2 || c[0] == i then d else if c[1] == i then c[0] else Before(d, c[1..], i)
  }

  /** `UnUse`: uncount the use, and take a pseudo instruction out of the chain. */
  function Unhook(p: Insts, c: seq<Id>, i: Id, d: Id): Insts
    requires i in p && d in p && Before(d, c, i) in p
  {
    var p1 := p[d := Bump(p[d], -1)];
    if IsPseudo(p[i].op) then
      var p2 := p1[Before(d, c, i) := SetNext(p1[Before(d, c, i)], p1[i].next)];
      p2[i := SetNext(p2[i], None)]
    else p1
  }

  /** What dropping a use changes: one slot, one counter and, for a pseudo instruction, two links. */
  ghost predicate Dropped(p: Insts, p': Insts, i: Id, j: nat, d: Id, before: Id) {
    && SlotSet(p, p', i, j, Void)
    && (forall x {:trigger p'[x].numUse} :: x in p ==> p'[x].numUse == if x == d then (p[x].numUse - 1) % 256 else p[x].numUse)
    && (forall x {:trigger p'[x].next} :: x in p ==>
          p'[x].next == if !IsPseudo(p[i].op) then p[x].next else if x == i then None else if x == before then p[i].next else p[x].next)
  }

  lemma CountedDrop(p: Insts, p': Insts, terminals: map<Id, nat>, i: Id, j: nat, e: Id)
    requires SlotSet(p, p', i, j, Void) && Def(p[i].slots[j]).Some? && e in p && Counted(p, terminals, e)
    requires p'[e].numUse == if Def(p[i].slots[j]) == Some(e) then (p[e].numUse - 1) % 256 else p[e].numUse
    ensures Counted(p', terminals, e)
  {
    UsesDrop(p, p', i, j, e);
    AddMod(|Uses(p, e)| + terminals[e], -1);
  }

  lemma UsesDrop(p: Insts, p': Insts, i: Id, j: nat, e: Id)
    requires SlotSet(p, p', i, j, Void)
    ensures |Uses(p', e)| == |Uses(p, e)| - if Def(p[i].slots[j]) == Some(e) then 1 else 0
  {
    UsesSet(p, p', i, j, Void, e);
    if Def(p[i].slots[j]) != Some(e) { assert Uses(p, e) - {(i, j)} == Uses(p, e); }
  }

  lemma {:induction false} BeforeIn(d: Id, c: seq<Id>, i: Id)
    ensures Before(d, c, i) == d || Before(d, c, i) in c
    decreases c
  {
    if |c| >= 2 && c[0] != i && c[1] != i { BeforeIn(d, c[1..], i); }
  }

  /** Seen from the first element, the search for the predecessor is the same. */
  lemma {:induction false} BeforeShift(d: Id, c: seq<Id>, i: Id)
    requires i in c && c[0] != i
    ensures Before(d, c, i) == Before(c[0], c[1..], i)
    ensures Before(d, c, i) in c
    decreases c
  {
    assert c == [c[0]] + c[1..];
    if c[1] != i {
      BeforeShift(d, c[1..], i);
      BeforeShift(c[0], c[1..], i);
    }
  }

  /** Unhooking `i`: its predecessor skips it. */
  lemma {:induction false} ChainUnhook(p: Insts, p': Insts, d: Id, c: seq<Id>, i: Id)
    requires d in p && d in p' && Chain(p, p[d].next, c) && NoDup(c) && i in c && d !in c && i in p
    requires forall x :: x in c && x != i ==> x in p && x in p' && p'[x].next == if x == Before(d, c, i) then p[i].next else p[x].next
    requires p'[d].next == if d == Before(d, c, i) then p[i].next else p[d].next
    ensures Chain(p', p'[d].next, Without(c, i))
    decreases c
  {
    assert c == [c[0]] + c[1..];
    if c[0] == i {
      WithoutAbsent(c[1..], i);
      ChainFrame(p, p', p[i].next, c[1..]);
    } else {
      BeforeShift(d, c, i);
      ChainUnhook(p, p', c[0], c[1..], i);
      assert Without(c, i)[1..] == Without(c[1..], i);
    }
  }

  /** The chain of a definition that is not concerned. */
  lemma ChainOkDrop(p: Insts, p': Insts, chains: map<Id, seq<Id>>, i: Id, j: nat, e: Id)
    requires SlotSet(p, p', i, j, Void) && e in p && InstOk(p, i) && ChainOk(p, chains, e) && !Attached(p, i, e)
    requires p'[e].next == p[e].next && forall x :: x in chains[e] ==> x in p && p'[x].next == p[x].next
    ensures ChainOk(p', chains, e)
  {
    ChainFrame(p, p', p[e].next, chains[e]);
    forall x ensures x in chains[e] <==> Attached(p', x, e) {
      assert x in chains[e] <==> Attached(p, x, e);
      if x in p { assert p'[x].op == p[x].op; }
    }
  }

  lemma LeavesChain(p: Insts, p': Insts, chains: map<Id, seq<Id>>, i: Id, d: Id)
    requires Attached(p, i, d) && d in p && !IsPseudo(p[d].op) && ChainOk(p, chains, d)
    requires Dropped(p, p', i, 0, d, Before(d, chains[d], i))
    ensures ChainOk(p', chains[d := Without(chains[d], i)], d)
  {
    var c := chains[d];
    assert i in c;
    forall x | x in c ensures x in p && x != d { assert Attached(p, x, d); }
    ChainUnhook(p, p', d, c, i);
    NoDupWithout(c, i);
    forall x ensures x in Without(c, i) <==> Attached(p', x, d) {
      assert x in c <==> Attached(p, x, d);
      if x in p { assert p'[x].op == p[x].op; }
    }
  }

  ghost function Left(p: Insts, chains: map<Id, seq<Id>>, i: Id, d: Id): map<Id, seq<Id>>
    requires i in p
  {
    if IsPseudo(p[i].op) then chains[d := Without(ChainOf(p, chains, i, d), i)] else chains
  }

  lemma DropChainOk(p: Insts, p': Insts, chains: map<Id, seq<Id>>, terminals: map<Id, nat>, i: Id, j: nat, d: Id, e: Id)
    requires Valid(p, chains, terminals) && i in p && j < |p[i].slots| && Def(p[i].slots[j]) == Some(d) && e in p && !IsPseudo(p[e].op)
    requires Dropped(p, p', i, j, d, Before(d, ChainOf(p, chains, i, d), i))
    ensures ChainOk(p', Left(p, chains, i, d), e)
  {
    assert InstOk(p, i) && ChainOk(p, chains, e);
    if IsPseudo(p[i].op) {
      assert ChainOk(p, chains, d) && Attached(p, i, d);
      if e == d { LeavesChain(p, p', chains, i, d); } else { OtherChain(p, p', chains, i, d, e); }
    } else {
      forall x | x in chains[e] ensures x in p { assert Attached(p, x, e); }
      ChainOkDrop(p, p', chains, i, j, e);
    }
  }

  lemma OtherChain(p: Insts, p': Insts, chains: map<Id, seq<Id>>, i: Id, d: Id, e: Id)
    requires Attached(p, i, d) && d in p && e in p && d != e && !IsPseudo(p[d].op) && !IsPseudo(p[e].op)
    requires InstOk(p, i) && ChainOk(p, chains, d) && ChainOk(p, chains, e) && Dropped(p, p', i, 0, d, Before(d, chains[d], i))
    ensures ChainOk(p', chains[d := Without(chains[d], i)], e)
  {
    BeforeIn(d, chains[d], i);
    var before := Before(d, chains[d], i);
    assert before != d ==> Attached(p, before, d);
    forall x | x in chains[e] ensures x in p && p'[x].next == p[x].next { assert Attached(p, x, e); }
    ChainOkDrop(p, p', chains, i, 0, e);
  }

  lemma DropInstOk(p: Insts, p': Insts, i: Id, j: nat, d: Id, before: Id, e: Id)
    requires (forall x {:trigger InstOk(p, x)} :: x in p ==> InstOk(p, x)) && e in p
    requires i in p && j < |p[i].slots| && Def(p[i].slots[j]) == Some(d) && Dropped(p, p', i, j, d, before) && before in p
    requires IsPseudo(p[i].op) && IsPseudo(p[before].op) ==> Attached(p, before, d)
    ensures InstOk(p', e)
  {
    assert InstOk(p, e) && InstOk(p, i) && p'[e].op == p[e].op;
  }

  /** Taking a use away keeps counters and chains right. */
  lemma DroppedValid(p: Insts, p': Insts, chains: map<Id, seq<Id>>, terminals: map<Id, nat>, i: Id, j: nat, d: Id)
    requires Valid(p, chains, terminals) && i in p && j < |p[i].slots| && Def(p[i].slots[j]) == Some(d)
    requires Dropped(p, p', i, j, d, Before(d, ChainOf(p, chains, i, d), i)) && Before(d, ChainOf(p, chains, i, d), i) in p
    ensures Valid(p', Left(p, chains, i, d), terminals)
  {
    var before := Before(d, ChainOf(p, chains, i, d), i);
    LinkKnown(p, chains, terminals, i, j, d);
    forall e | e in p' ensures Counted(p', terminals, e) {
      assert Counted(p, terminals, e);
      CountedDrop(p, p', terminals, i, j, e);
    }
    forall e | e in p' ensures InstOk(p', e) { DropInstOk(p, p', i, j, d, before, e); }
    forall e | e in p' && !IsPseudo(p'[e].op) ensures ChainOk(p', Left(p, chains, i, d), e) {
      assert p'[e].op == p[e].op;
      DropChainOk(p, p', chains, terminals, i, j, d, e);
    }
  }

  lemma LinkKnown(p: Insts, chains: map<Id, seq<Id>>, terminals: map<Id, nat>, i: Id, j: nat, d: Id)
    requires Valid(p, chains, terminals) && i in p && j < |p[i].slots| && Def(p[i].slots[j]) == Some(d)
    ensures d in p && var before := Before(d, ChainOf(p, chains, i, d), i);
            before in p && (IsPseudo(p[i].op) && IsPseudo(p[before].op) ==> Attached(p, before, d))
  {
    assert InstOk(p, i);
    if IsPseudo(p[i].op) {
      assert ChainOk(p, chains, d);
      BeforeIn(d, chains[d], i);
      assert forall x :: x in chains[d] ==> Attached(p, x, d);
    }
  }

  // ----- Slots without definitions -----

  /** Replacing one slot without a definition by another changes no use. */
  lemma PlainValid(p: Insts, p': Insts, chains: map<Id, seq<Id>>, terminals: map<Id, nat>, i: Id, j: nat, s: Slot)
    requires Valid(p, chains, terminals) && SlotSet(p, p', i, j, s) && Def(s) == None && Def(p[i].slots[j]) == None
    requires forall x {:trigger p'[x].numUse} :: x in p ==> p'[x].numUse == p[x].numUse && p'[x].next == p[x].next
    ensures Valid(p', chains, terminals)
  {
    forall e | e in p' ensures InstOk(p', e) && Counted(p', terminals, e) {
      assert InstOk(p, e) && Counted(p, terminals, e);
      PlainInstOk(p, p', terminals, i, j, s, e);
    }
    forall e | e in p' && !IsPseudo(p'[e].op) ensures ChainOk(p', chains, e) {
      assert p'[e].op == p[e].op && p'[e].numUse == p[e].numUse && ChainOk(p, chains, e) && InstOk(p, i);
      PlainChainOk(p, p', chains, i, j, s, e);
    }
  }

  lemma PlainInstOk(p: Insts, p': Insts, terminals: map<Id, nat>, i: Id, j: nat, s: Slot, e: Id)
    requires SlotSet(p, p', i, j, s) && Def(s) == None && Def(p[i].slots[j]) == None && e in p && InstOk(p, e) && Counted(p, terminals, e)
    requires p'[e].numUse == p[e].numUse && p'[e].next == p[e].next
    ensures InstOk(p', e) && Counted(p', terminals, e)
  {
    assert p'[e].op == p[e].op;
    assert IsPseudo(p[e].op) && p[e].slots[0].Value? ==> p'[p[e].slots[0].def].op == p[p[e].slots[0].def].op;
    UsesAdd(p, p', i, j, s, e);
  }

  lemma PlainChainOk(p: Insts, p': Insts, chains: map<Id, seq<Id>>, i: Id, j: nat, s: Slot, e: Id)
    requires SlotSet(p, p', i, j, s) && Def(s) == None && Def(p[i].slots[j]) == None && e in p && InstOk(p, i) && ChainOk(p, chains, e)
    requires forall x {:trigger p'[x].numUse} :: x in p ==> p'[x].numUse == p[x].numUse && p'[x].next == p[x].next
    ensures ChainOk(p', chains, e)
  {
    assert p'[e].numUse == p[e].numUse && p'[i].op == p[i].op;
    forall x | x in chains[e] ensures x in p && p'[x].next == p[x].next {
      assert Attached(p, x, e);
      assert p'[x].numUse == p[x].numUse;
    }
    ChainOkAdd(p, p', chains, i, j, s, e);
  }

  /** The program as if the slot were empty. */
  ghost function Cleared(p: Insts, i: Id, j: nat): Insts
    requires i in p && j < |p[i].slots|
  {
    p[i := SetSlot(p[i], j, Void)]
  }

  lemma UnhookShape(p: Insts, c: seq<Id>, i: Id, j: nat, d: Id)
    requires i in p && d in p && j < |p[i].slots| && Before(d, c, i) in p && (IsPseudo(p[i].op) ==> Before(d, c, i) != i)
    ensures Dropped(p, Cleared(Unhook(p, c, i, d), i, j), i, j, d, Before(d, c, i))
  {
    var p' := Cleared(Unhook(p, c, i, d), i, j);
    forall x | x in p ensures UnhookedAt(p, p', i, j, d, Before(d, c, i), x) {}
  }

  ghost predicate UnhookedAt(p: Insts, p': Insts, i: Id, j: nat, d: Id, before: Id, x: Id)
    requires i in p && j < |p[i].slots| && x in p
  {
    && x in p' && p'[x].op == p[x].op && p'[x].slots == (if x == i then p[i].slots[j := Void] else p[x].slots)
    && p'[x].numUse == (if x == d then (p[x].numUse - 1) % 256 else p[x].numUse)
    && p'[x].next == if !IsPseudo(p[i].op) then p[x].next else if x == i then None else if x == before then p[i].next else p[x].next
  }

  lemma UnhookValid(p: Insts, chains: map<Id, seq<Id>>, terminals: map<Id, nat>, i: Id, j: nat, d: Id)
    requires Valid(p, chains, terminals) && i in p && j < |p[i].slots| && Def(p[i].slots[j]) == Some(d)
    ensures d in p && Before(d, ChainOf(p, chains, i, d), i) in p
    ensures var p' := Unhook(p, ChainOf(p, chains, i, d), i, d);
            && p'.Keys == p.Keys && (forall x {:trigger p'[x]} :: x in p ==> p'[x].op == p[x].op && p'[x].slots == p[x].slots)
            && Valid(Cleared(p', i, j), Left(p, chains, i, d), terminals)
  {
    var c := ChainOf(p, chains, i, d);
    LinkKnown(p, chains, terminals, i, j, d);
    assert InstOk(p, i);
    if IsPseudo(p[i].op) { assert ChainOk(p, chains, d); BeforeOther(d, c, i); }
    UnhookShape(p, c, i, j, d);
    DroppedValid(p, Cleared(Unhook(p, c, i, d), i, j), chains, terminals, i, j, d);
  }

  /** Only the slots of `i` change, and they become `slots`. */
  ghost predicate OnlySlots(p: Insts, p': Insts, i: Id, slots: seq<Slot>) {
    && i in p && p'.Keys == p.Keys && p'[i].slots == slots
    && (forall x {:trigger p'[x]} :: x in p' ==> p'[x].op == p[x].op && (x != i ==> p'[x].slots == p[x].slots))
  }

  lemma OnlySlotsTrans(p: Insts, q: Insts, r: Insts, i: Id)
    requires i in q && i in r && OnlySlots(p, q, i, q[i].slots) && OnlySlots(q, r, i, r[i].slots)
    ensures OnlySlots(p, r, i, r[i].slots)
  {
    forall x | x in r ensures r[x].op == p[x].op && (x != i ==> r[x].slots == p[x].slots) { assert q[x].op == p[x].op; }
  }

  lemma StorableKept(p: Insts, q: Insts, i: Id, args: seq<Arg>, n: nat, index: nat)
    requires i in q && OnlySlots(p, q, i, q[i].slots) && n < |args| && index == |Flat(args[..n])|
    requires index + |SlotsOf(args[n])| <= MAX_ARGS
    requires forall k :: 0 <= k < |Flat(args)| && k < MAX_ARGS ==> Storable(p, i, k, Flat(args)[k])
    ensures forall m :: 0 <= m < |SlotsOf(args[n])| ==> Storable(q, i, index + m, SlotsOf(args[n])[m])
  {
    FlatAt(args, n, index);
    forall m | 0 <= m < |SlotsOf(args[n])| ensures Storable(q, i, index + m, SlotsOf(args[n])[m]) {
      assert Storable(p, i, index + m, Flat(args)[index + m]);
    }
  }

  // ----- The program -----

  class Program {
    var insts: Insts
    var nextId: Id
    ghost var chains: map<Id, seq<Id>>
    ghost var terminals: map<Id, nat>

    ghost predicate Ok()
      reads this
    {
      Valid(insts, chains, terminals) && forall i :: i in insts ==> i < nextId
    }

    constructor ()
      ensures Ok() && insts == map[]
    {
      insts, nextId, chains, terminals := map[], 0, map[], map[];
    }

    /** `Use`. */
    method Use(i: Id, d: Id)
      requires i in insts && d in insts
      requires IsPseudo(insts[i].op) ==> d in chains && Chain(insts, insts[d].next, chains[d])
      modifies this`insts
      ensures Last(d, ChainOf(old(insts), chains, i, d)) in old(insts)
      ensures insts == Hook(old(insts), ChainOf(old(insts), chains, i, d), i, d)
    {
      ghost var p := insts;
      insts := insts[d := Bump(insts[d], 1)];
      if IsPseudo(insts[i].op) {
        ghost var c, k := chains[d], 0;
        var x := d;
        while insts[x].next.Some?
          invariant 0 <= k <= |c| && x in p && insts == p[d := Bump(p[d], 1)]
          invariant Chain(p, p[x].next, c[k..]) && x == if k == 0 then d else c[k - 1]
          decreases |c| - k
        {
          x := insts[x].next.value;
          k := k + 1;
        }
        insts := insts[x := SetNext(insts[x], Some(i))];
      }
    }

    /** `UnUse`. */
    method UnUse(i: Id, d: Id)
      requires i in insts && d in insts
      requires IsPseudo(insts[i].op) ==> d in chains && Chain(insts, insts[d].next, chains[d]) && i in chains[d]
      modifies this`insts
      ensures Before(d, ChainOf(old(insts), chains, i, d), i) in old(insts)
      ensures insts == Unhook(old(insts), ChainOf(old(insts), chains, i, d), i, d)
    {
      ghost var p := insts;
      insts := insts[d := Bump(insts[d], -1)];
      if IsPseudo(insts[i].op) {
        ghost var c, k := chains[d], 0;
        var x := d;
        while insts[x].next != Some(i)
          invariant 0 <= k < |c| && x in p && insts == p[d := Bump(p[d], -1)] && i in c[k..]
          invariant Chain(p, p[x].next, c[k..]) && Before(x, c[k..], i) == Before(d, c, i)
          decreases |c| - k
        {
          BeforeShift(x, c[k..], i);
          assert c[k..][1..] == c[k + 1..];
          x := insts[x].next.value;
          k := k + 1;
        }
        insts := insts[x := SetNext(insts[x], insts[i].next)];
        insts := insts[i := SetNext(insts[i], None)];
      }
    }

    /** `DestroyArg`: afterwards everything is right but for the slot, which still has its old value. */
    method DestroyArg(i: Id, j: nat)
      requires Ok() && i in insts && j < MAX_ARGS
      modifies this`insts, this`chains
      ensures insts.Keys == old(insts).Keys && j < |insts[i].slots| && Valid(Cleared(insts, i, j), chains, terminals)
      ensures forall x {:trigger insts[x]} :: x in insts ==> insts[x].op == old(insts)[x].op && insts[x].slots == old(insts)[x].slots
      ensures ChainsAfter(old(insts), old(chains), chains, i, Def(old(insts)[i].slots[j]))
    {
      ghost var p := insts;
      assert InstOk(p, i);
      match Def(insts[i].slots[j])
      case None => PlainValid(p, Cleared(p, i, j), chains, terminals, i, j, Void);
      case Some(d) =>
        if IsPseudo(p[i].op) { assert ChainOk(p, chains, d) && Attached(p, i, d); }
        UnUse(i, d);
        UnhookValid(p, chains, terminals, i, j, d);
        chains := Left(p, chains, i, d);
    }

    /** `SetArg` for everything but operands. */
    method SetArg(i: Id, j: nat, s: Slot)
      requires Ok() && i in insts && Storable(insts, i, j, s)
      modifies this`insts, this`chains
      ensures Ok() && insts.Keys == old(insts).Keys && SlotSet(old(insts), insts, i, j, s)
      ensures chains == ChainsWith(old(insts), old(chains), i, j, s)
    {
      ghost var p := insts;
      assert InstOk(p, i);
      DestroyArg(i, j);
      ghost var q := Cleared(insts, i, j);
      SetTwice(insts[i], j, s);
      assert forall x {:trigger q[x]} :: x in q ==> q[x].op == p[x].op && q[x].slots == if x == i then p[i].slots[j := Void] else p[x].slots;
      Fill(i, j, s, q);
      assert p[i].slots[j := Void][j := s] == p[i].slots[j := s];
    }

    /** Store into a slot whose old value no longer counts. */
    method Fill(i: Id, j: nat, s: Slot, ghost q: Insts)
      requires Valid(q, chains, terminals) && i in q && Storable(q, i, j, s) && |q[i].slots| == MAX_ARGS && q[i].slots[j] == Void
      requires i in insts && j < |insts[i].slots| && insts[i := SetSlot(insts[i], j, s)] == q[i := SetSlot(q[i], j, s)]
      modifies this`insts, this`chains
      ensures Valid(insts, chains, terminals) && SlotSet(q, insts, i, j, s)
      ensures chains == if Def(s).Some? then Joined(q, old(chains), i, Def(s).value) else old(chains)
    {
      insts := insts[i := SetSlot(insts[i], j, s)];
      match Def(s)
      case None => PlainValid(q, insts, chains, terminals, i, j, s);
      case Some(d) =>
        LastKnown(q, chains, terminals, i, d);
        UseReady(q, insts, chains, terminals, i, j, s, d);
        Use(i, d);
        AddUseValid(q, chains, terminals, i, j, s);
        AddUseShape(q, chains, i, j, s);
        chains := Joined(q, chains, i, d);
    }

    method New(op: OpCode) returns (i: Id)
      requires Ok()
      modifies this
      ensures Ok() && i !in old(insts) && insts == old(insts)[i := Fresh(op)]
      ensures chains == old(chains)[i := []] && terminals == old(terminals)[i := 0]
    {
      i := nextId;
      NewValid(insts, chains, terminals, i, op);
      insts, nextId := insts[i := Fresh(op)], i + 1;
      chains, terminals := chains[i := []], terminals[i := 0];
    }

    /** `SetArg` for operands: the operator and both sides take three slots. */
    method SetOperand(i: Id, j: nat, code: nat, left: Slot, right: Slot)
      requires Ok() && i in insts && j + 2 < MAX_ARGS && Storable(insts, i, j + 1, left) && Storable(insts, i, j + 2, right)
      modifies this`insts, this`chains
      ensures Ok() && |old(insts)[i].slots| == MAX_ARGS
      ensures OnlySlots(old(insts), insts, i, old(insts)[i].slots[j := OperandOp(code)][j + 1 := left][j + 2 := right])
    {
      assert InstOk(insts, i);
      SetArg(i, j, OperandOp(code));
      SetArg(i, j + 1, left);
      SetArg(i, j + 2, right);
    }

    /** `SetArgs`: each argument goes behind the slots of the ones before it.  The model stops in front
        of the first argument that would be stored behind the last slot, after `n` arguments. */
    method SetArgs(i: Id, args: seq<Arg>) returns (n: nat)
      requires Ok() && i in insts && forall k :: 0 <= k < |Flat(args)| && k < MAX_ARGS ==> Storable(insts, i, k, Flat(args)[k])
      modifies this`insts, this`chains
      ensures Ok() && |old(insts)[i].slots| == MAX_ARGS && n <= |args|
      ensures |Flat(args[..n])| <= MAX_ARGS && (n < |args| ==> |Flat(args[..n + 1])| > MAX_ARGS)
      ensures n == |args| <==> |args| + 2 * Operands(args) <= MAX_ARGS
      ensures OnlySlots(old(insts), insts, i, Flat(args[..n]) + old(insts)[i].slots[|Flat(args[..n])|..])
    {
      n := FillSlots(i, args);
      Stopped(args, n);
    }

    method FillSlots(i: Id, args: seq<Arg>) returns (n: nat)
      requires Ok() && i in insts && forall k :: 0 <= k < |Flat(args)| && k < MAX_ARGS ==> Storable(insts, i, k, Flat(args)[k])
      modifies this`insts, this`chains
      ensures Ok() && |old(insts)[i].slots| == MAX_ARGS && n <= |args|
      ensures |Flat(args[..n])| <= MAX_ARGS && (n < |args| ==> |Flat(args[..n + 1])| > MAX_ARGS)
      ensures OnlySlots(old(insts), insts, i, Flat(args[..n]) + old(insts)[i].slots[|Flat(args[..n])|..])
    {
      ghost var p := insts;
      assert InstOk(p, i);
      n := 0;
      var index := 0;
      assert args[..0] == [];
      while n < |args|
        invariant 0 <= n <= |args| && Ok() && index == |Flat(args[..n])| <= MAX_ARGS
        invariant OnlySlots(p, insts, i, Flat(args[..n]) + p[i].slots[index..])
      {
        FlatNext(args, n);
        if index + |SlotsOf(args[n])| > MAX_ARGS { return; }
        index := StoreNext(i, args, n, index, p);
        n := n + 1;
      }
    }

    /** Store argument `n`, which fits behind the ones before it. */
    method StoreNext(i: Id, args: seq<Arg>, n: nat, index: nat, ghost p: Insts) returns (next: nat)
      requires Ok() && n < |args| && index == |Flat(args[..n])| && index + |SlotsOf(args[n])| <= MAX_ARGS
      requires i in p && |p[i].slots| == MAX_ARGS && OnlySlots(p, insts, i, Flat(args[..n]) + p[i].slots[index..])
      requires forall k :: 0 <= k < |Flat(args)| && k < MAX_ARGS ==> Storable(p, i, k, Flat(args)[k])
      modifies this`insts, this`chains
      ensures Ok() && next == index + |SlotsOf(args[n])|
      ensures OnlySlots(p, insts, i, (Flat(args[..n]) + SlotsOf(args[n])) + p[i].slots[next..])
    {
      ghost var q := insts;
      FlatStep(Flat(args[..n]), SlotsOf(args[n]), p[i].slots, q[i].slots);
      StorableKept(p, q, i, args, n, index);
      next := SetOne(i, index, args[n]);
      OnlySlotsTrans(p, q, insts, i);
    }

    /** Store one argument and step over its slots. */
    method SetOne(i: Id, index: nat, a: Arg) returns (next: nat)
      requires Ok() && i in insts && index + |SlotsOf(a)| <= MAX_ARGS
      requires forall m :: 0 <= m < |SlotsOf(a)| ==> Storable(insts, i, index + m, SlotsOf(a)[m])
      modifies this`insts, this`chains
      ensures Ok() && |old(insts)[i].slots| == MAX_ARGS && next == index + |SlotsOf(a)|
      ensures OnlySlots(old(insts), insts, i, old(insts)[i].slots[..index] + (SlotsOf(a) + old(insts)[i].slots[next..]))
    {
      assert InstOk(insts, i);
      match a {
        case One(s) =>
          assert SlotsOf(a)[0] == s;
          SetArg(i, index, s);
          next := index + 1;
        case Operand(code, l, r) =>
          assert SlotsOf(a)[1] == l && SlotsOf(a)[2] == r;
          SetOperand(i, index, code, l, r);
          next := index + 3;
      }
    }

    /** `GetPseudoOperation`: the first pseudo instruction in the chain with this opcode. */
    method GetPseudo(d: Id, op: OpCode) returns (r: Option<Id>)
      requires Ok() && d in insts && !IsPseudo(insts[d].op)
      ensures d in chains && Earliest(insts, chains[d], op, r)
      ensures r.Some? ==> Attached(insts, r.value, d) && insts[r.value].op == op
      ensures r.None? ==> forall i :: Attached(insts, i, d) ==> insts[i].op != op
    {
      assert ChainOk(insts, chains, d);
      ghost var c, k := chains[d], 0;
      assert c[0..] == c;
      r := insts[d].next;
      while r.Some?
        invariant 0 <= k <= |c| && Chain(insts, r, c[k..]) && forall j :: 0 <= j < k ==> !HasOp(insts, c[j], op)
        decreases |c| - k
      {
        if insts[r.value].op == op { break; }
        assert c[k..][1..] == c[k + 1..];
        r, k := insts[r.value].next, k + 1;
      }
      assert r.Some? ==> c[k] == r.value;
    }

    /** A terminal uses a value. */
    method TerminalUse(d: Id)
      requires Ok() && d in insts
      modifies this`insts, this`terminals
      ensures Ok() && insts == old(insts)[d := Bump(old(insts)[d], 1)] && d in old(terminals) && terminals == old(terminals)[d := old(terminals)[d] + 1]
    {
      assert Counted(insts, terminals, d);
      BumpValid(insts, chains, terminals, d, 1);
      insts := insts[d := Bump(insts[d], 1)];
      terminals := terminals[d := terminals[d] + 1];
    }

    /** `~Inst`: the instruction gives up all its uses, and nobody else's slots change. */
    method Destroy(i: Id)
      requires Ok() && i in insts
      modifies this`insts, this`chains
      ensures Ok() && OnlySlots(old(insts), insts, i, [Void, Void, Void, Void])
      ensures forall d :: Uses(insts, d) == set u | u in old(Uses(insts, d)) && u.0 != i
    {
      ghost var p := insts;
      var j := 0;
      assert InstOk(insts, i);
      while j < MAX_ARGS
        invariant 0 <= j <= MAX_ARGS && Ok() && i in insts && |insts[i].slots| == MAX_ARGS && OnlySlots(p, insts, i, insts[i].slots)
        invariant forall k :: 0 <= k < j ==> insts[i].slots[k] == Void
      {
        ghost var q := insts;
        SetArg(i, j, Void);
        OnlySlotsTrans(p, q, insts, i);
        j := j + 1;
      }
      forall d ensures Uses(insts, d) == set u | u in Uses(p, d) && u.0 != i { UsesGivenUp(p, insts, i, d); }
    }

    /** `Block::DestroyInst`: everything stays right exactly if no other instruction uses this one. */
    method DestroyInst(i: Id)
      requires Ok() && i in insts
      modifies this`insts, this`chains
      ensures insts.Keys == old(insts).Keys - {i} && forall x :: x in insts ==> insts[x].slots == old(insts)[x].slots
      ensures Ok() <==> forall u :: u in old(Uses(insts, i)) ==> u.0 == i
    {
      ghost var was := Uses(insts, i);
      Destroy(i);
      assert Uses(insts, i) == {} <==> forall u :: u in was ==> u.0 == i by {
        assert Uses(insts, i) == set u | u in was && u.0 != i;
        if u :| u in was && u.0 != i { assert u in Uses(insts, i); }
      }
      RemoveExact(insts, chains, terminals, i);
      insts := insts - {i};
    }
  }

  lemma UsesGivenUp(p: Insts, p': Insts, i: Id, d: Id)
    requires OnlySlots(p, p', i, [Void, Void, Void, Void])
    ensures Uses(p', d) == set u | u in Uses(p, d) && u.0 != i
  {
    forall u ensures u in Uses(p', d) <==> u in Uses(p, d) && u.0 != i {
      assert u.0 in p' ==> p'[u.0].op == p[u.0].op;
    }
  }

  /** An argument of `SetArgs`. */
  datatype Arg = One(slot: Slot) | Operand(code: nat, left: Slot, right: Slot)

  function SlotsOf(a: Arg): seq<Slot> {
    match a
    case One(s) => [s]
    case Operand(c, l, r) => [OperandOp(c), l, r]
  }

  /** The slots of an argument list. */
  function Flat(args: seq<Arg>): seq<Slot> {
    if args == [] then [] else Flat(args[..|args| - 1]) + SlotsOf(args[|args| - 1])
  }

  lemma FlatNext(args: seq<Arg>, n: nat)
    requires n < |args|
    ensures Flat(args[..n + 1]) == Flat(args[..n]) + SlotsOf(args[n]) && Flat(args[..n + 1]) <= Flat(args)
  {
    assert args[..n + 1][..n] == args[..n];
    FlatPrefix(args, n + 1);
  }

  function Operands(args: seq<Arg>): nat {
    if args == [] then 0 else Operands(args[..|args| - 1]) + if args[|args| - 1].Operand? then 1 else 0
  }

  /** How many slots arguments take: they fit exactly if their number and twice the number of
      operands among them do. */
  lemma {:induction false} SlotCount(args: seq<Arg>)
    ensures |Flat(args)| == |args| + 2 * Operands(args)
  {
    if args != [] { SlotCount(args[..|args| - 1]); }
  }

  /** Storing goes on to the end exactly if the slots suffice. */
  lemma Stopped(args: seq<Arg>, n: nat)
    requires n <= |args| && |Flat(args[..n])| <= MAX_ARGS && (n < |args| ==> |Flat(args[..n + 1])| > MAX_ARGS)
    ensures n == |args| <==> |args| + 2 * Operands(args) <= MAX_ARGS
  {
    SlotCount(args);
    if n < |args| { FlatPrefix(args, n + 1); } else { assert args[..n] == args; }
  }

  /** Counting the arguments alone, as the static assertion does, does not keep them within the slots. */
  lemma ArgumentCountMisses()
    ensures exists args :: |args| <= MAX_ARGS < |Flat(args)|
  {
    var args := [One(Void), One(Void), Operand(0, Void, Void)];
    SlotCount(args);
    assert Operands(args) >= 1;
  }

  lemma FlatAt(args: seq<Arg>, n: nat, index: nat)
    requires n < |args| && index == |Flat(args[..n])|
    ensures index + |SlotsOf(args[n])| <= |Flat(args)|
    ensures forall m :: 0 <= m < |SlotsOf(args[n])| ==> SlotsOf(args[n])[m] == Flat(args)[index + m]
  {
    FlatNext(args, n);
    var f := Flat(args[..n + 1]);
    forall m | 0 <= m < |SlotsOf(args[n])| ensures SlotsOf(args[n])[m] == Flat(args)[index + m] { assert f[index + m] == Flat(args)[index + m]; }
  }

  lemma FlatStep(done: seq<Slot>, x: seq<Slot>, was: seq<Slot>, now: seq<Slot>)
    requires |done| + |x| <= |was| && now == done + was[|done|..]
    ensures now[..|done|] + (x + now[|done| + |x|..]) == (done + x) + was[|done| + |x|..]
  {
  }

  lemma {:induction false} FlatPrefix(args: seq<Arg>, n: nat)
    requires n <= |args|
    ensures Flat(args[..n]) <= Flat(args)
    decreases |args|
  {
    if n < |args| {
      var rest := args[..|args| - 1];
      FlatPrefix(rest, n);
      assert rest[..n] == args[..n];
    } else { assert args[..n] == args; }
  }

  /** `GetArg<Operand>` reads back what `SetArg` stored. */
  function GetOperand(slots: seq<Slot>, j: nat): Arg
    requires j + 2 < |slots| && slots[j].OperandOp?
  {
    Operand(slots[j].code, slots[j + 1], slots[j + 2])
  }

  lemma OperandRoundTrip(args: seq<Arg>, n: nat, rest: seq<Slot>)
    requires n < |args| && args[n].Operand?
    ensures var slots, j := Flat(args) + rest, |Flat(args[..n])|;
            j + 2 < |slots| && slots[j].OperandOp? && GetOperand(slots, j) == args[n]
  {
    FlatNext(args, n);
    var f := Flat(args[..n + 1]);
    assert f <= Flat(args) + rest;
  }

  function Fresh(op: OpCode): Inst { Inst(op, [Void, Void, Void, Void], 0, None) }

  lemma NewValid(p: Insts, chains: map<Id, seq<Id>>, terminals: map<Id, nat>, i: Id, op: OpCode)
    requires Valid(p, chains, terminals) && i !in p
    ensures Valid(p[i := Fresh(op)], chains[i := []], terminals[i := 0])
  {
    var p' := p[i := Fresh(op)];
    forall e | e in p' ensures InstOk(p', e) { if e in p { assert InstOk(p, e); } }
    forall e | e in p' ensures Counted(p', terminals[i := 0], e) {
      NewUses(p, i, op, e);
      if e in p { assert Counted(p, terminals, e); }
    }
    forall e | e in p' && !IsPseudo(p'[e].op) ensures ChainOk(p', chains[i := []], e) {
      if e in p {
        assert ChainOk(p, chains, e);
        SameChain(p, p', chains, chains[i := []], e);
      } else {
        forall x ensures !Attached(p', x, i) { if x in p { assert InstOk(p, x); } }
      }
    }
  }

  lemma NewUses(p: Insts, i: Id, op: OpCode, e: Id)
    requires i !in p && forall x {:trigger InstOk(p, x)} :: x in p ==> InstOk(p, x)
    ensures Uses(p[i := Fresh(op)], e) == Uses(p, e) && (e !in p ==> Uses(p, e) == {})
  {
    forall u | u in Uses(p, e) ensures e in p { assert InstOk(p, u.0); }
  }

  /** The pseudo instructions on `e` and their links are the same. */
  lemma SameChain(p: Insts, p': Insts, chains: map<Id, seq<Id>>, chains': map<Id, seq<Id>>, e: Id)
    requires e in p && e in p' && ChainOk(p, chains, e) && p'[e].next == p[e].next && e in chains' && chains'[e] == chains[e]
    requires forall x {:trigger Attached(p', x, e)} :: Attached(p', x, e) <==> Attached(p, x, e)
    requires forall x :: x in p && x in p' ==> p'[x].next == p[x].next
    ensures ChainOk(p', chains', e)
  {
    forall x | x in chains[e] ensures x in p && x in p' { assert Attached(p, x, e) && Attached(p', x, e); }
    ChainFrame(p, p', p[e].next, chains[e]);
  }

  lemma BumpValid(p: Insts, chains: map<Id, seq<Id>>, terminals: map<Id, nat>, d: Id, n: int)
    requires Valid(p, chains, terminals) && d in p && d in terminals && terminals[d] + n >= 0
    ensures Valid(p[d := Bump(p[d], n)], chains, terminals[d := terminals[d] + n])
  {
    var p', ts := p[d := Bump(p[d], n)], terminals[d := terminals[d] + n];
    forall e | e in p' ensures InstOk(p', e) { assert InstOk(p, e); }
    forall e | e in p' ensures Counted(p', ts, e) {
      assert Counted(p, terminals, e) && Uses(p', e) == Uses(p, e);
      AddMod(|Uses(p, e)| + terminals[e], n);
    }
    forall e | e in p' && !IsPseudo(p'[e].op) ensures ChainOk(p', chains, e) {
      assert ChainOk(p, chains, e);
      SameChain(p, p', chains, chains, e);
    }
  }

  lemma RemoveValid(p: Insts, chains: map<Id, seq<Id>>, terminals: map<Id, nat>, i: Id)
    requires Valid(p, chains, terminals) && i in p && Uses(p, i) == {} && |p[i].slots| == MAX_ARGS
    requires forall k :: 0 <= k < MAX_ARGS ==> p[i].slots[k] == Void
    ensures Valid(p - {i}, chains, terminals)
  {
    var p' := p - {i};
    forall e | e in p' ensures InstOk(p', e) {
      assert InstOk(p, e);
      forall k | 0 <= k < MAX_ARGS && Def(p[e].slots[k]).Some? ensures Def(p[e].slots[k]).value != i { assert (e, k) !in Uses(p, i); }
    }
    forall e | e in p' ensures Counted(p', terminals, e) { assert Counted(p, terminals, e) && Uses(p', e) == Uses(p, e); }
    forall e | e in p' && !IsPseudo(p'[e].op) ensures ChainOk(p', chains, e) {
      assert ChainOk(p, chains, e);
      SameChain(p, p', chains, chains, e);
    }
  }

  lemma RemoveExact(p: Insts, chains: map<Id, seq<Id>>, terminals: map<Id, nat>, i: Id)
    requires Valid(p, chains, terminals) && i in p && p[i].slots == [Void, Void, Void, Void]
    ensures Valid(p - {i}, chains, terminals) <==> Uses(p, i) == {}
  {
    if Uses(p, i) == {} { RemoveValid(p, chains, terminals, i); }
    else {
      var u :| u in Uses(p, i);
      assert !InstOk(p - {i}, u.0);
    }
  }

  /** `r` is the first element of `c` with the opcode, or there is none. */
  ghost predicate Earliest(p: Insts, c: seq<Id>, op: OpCode, r: Option<Id>) {
    match r
    case None => forall k :: 0 <= k < |c| ==> !HasOp(p, c[k], op)
    case Some(x) => exists k :: 0 <= k < |c| && c[k] == x && HasOp(p, x, op) && forall j :: 0 <= j < k ==> !HasOp(p, c[j], op)
  }

  predicate HasOp(p: Insts, i: Id, op: OpCode) { i in p && p[i].op == op }

  lemma SetTwice(x: Inst, j: nat, s: Slot)
    requires j < |x.slots|
    ensures SetSlot(SetSlot(x, j, Void), j, s) == SetSlot(x, j, s)
  {
    assert x.slots[j := Void][j := s] == x.slots[j := s];
  }

  /** Before the use is recorded, the chain of `d` is intact. */
  lemma UseReady(q: Insts, p: Insts, chains: map<Id, seq<Id>>, terminals: map<Id, nat>, i: Id, j: nat, s: Slot, d: Id)
    requires Valid(q, chains, terminals) && i in q && d in q && Storable(q, i, j, s) && Def(s) == Some(d) && j < |q[i].slots|
    requires p == q[i := SetSlot(q[i], j, s)]
    ensures IsPseudo(q[i].op) ==> d in chains && Chain(p, p[d].next, chains[d])
  {
    if IsPseudo(q[i].op) {
      assert ChainOk(q, chains, d);
      forall x | x in chains[d] ensures x in q && x in p && p[x].next == q[x].next { assert Attached(q, x, d); }
      ChainFrame(q, p, q[d].next, chains[d]);
    }
  }

  /** The chains after slot `j` of `i` has been set: `i` leaves the chain of the old definition and
      goes to the end of the chain of the new one. */
  ghost function ChainsWith(p: Insts, chains: map<Id, seq<Id>>, i: Id, j: nat, s: Slot): map<Id, seq<Id>>
    requires i in p && j < |p[i].slots|
  {
    var was := Def(p[i].slots[j]);
    var left := if was.Some? then Left(p, chains, i, was.value) else chains;
    if Def(s).Some? then Joined(p, left, i, Def(s).value) else left
  }

  /** How the chains change when a use of `d` by `i` goes away. */
  ghost predicate ChainsAfter(p: Insts, chains: map<Id, seq<Id>>, chains': map<Id, seq<Id>>, i: Id, d: Option<Id>)
    requires i in p
  {
    chains' == if d.Some? then Left(p, chains, i, d.value) else chains
  }

  lemma {:induction false} BeforeOther(d: Id, c: seq<Id>, i: Id)
    requires i != d && NoDup(c)
    ensures Before(d, c, i) != i
    decreases c
  {
    if |c| >= 2 && c[0] != i && c[1] != i { BeforeOther(d, c[1..], i); }
  }
}
