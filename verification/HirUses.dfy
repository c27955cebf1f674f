/** `HIRFunction::AppendInst`: the use lists of HIR values agree with the use counters. */
module HirUses {
  import opened Basics
  import opened UseDef

  /** The argument index that marks a use by a phi. */
  const USE_PHI: nat := 254

  type Use = (Id, nat)

  function NonPhi(us: seq<Use>): seq<Use> {
    if us == [] then [] else NonPhi(us[..|us| - 1]) + if us[|us| - 1].1 == USE_PHI then [] else [us[|us| - 1]]
  }

  lemma NonPhiAppend(us: seq<Use>, u: Use)
    ensures NonPhi(us + [u]) == if u.1 == USE_PHI then NonPhi(us) else NonPhi(us) + [u]
  {
    assert (us + [u])[..|us|] == us;
  }

  lemma {:induction false} DistinctSize(us: seq<Use>)
    requires Distinct(us)
    ensures |set u | u in us| == |us|
  {
    if us != [] {
      var init, last := us[..|us| - 1], us[|us| - 1];
      DistinctSize(init);
      assert us == init + [last];
      assert last !in init;
      assert (set u | u in us) == (set u | u in init) + {last};
    }
  }

  /** The list has each of the uses once, but for the slots of `i` from `j` on. */
  ghost predicate Lists(us: seq<Use>, all: set<Use>, i: Id, j: nat) {
    && Distinct(us)
    && (forall u {:trigger u in us} {:trigger u in all} :: u in us <==> u in all && !(u.0 == i && u.1 >= j))
  }

  /** The list has each slot that refers to `d` once. */
  ghost predicate Complete(p: Insts, us: seq<Use>, d: Id) {
    Distinct(NonPhi(us)) && (forall u {:trigger u in NonPhi(us)} :: u in NonPhi(us) <==> u in Uses(p, d))
  }

  lemma CompleteSize(p: Insts, us: seq<Use>, d: Id)
    requires Complete(p, us, d)
    ensures |NonPhi(us)| == |Uses(p, d)|
  {
    DistinctSize(NonPhi(us));
    assert (set u | u in NonPhi(us)) == Uses(p, d);
  }

  /** `i` is new, with the first `n` arguments in its slots, as many as fit, and nothing else changed. */
  ghost predicate Created(was: Insts, now: Insts, i: Id, op: OpCode, args: seq<Arg>, n: nat) {
    && i !in was && now.Keys == was.Keys + {i} && now[i].op == op
    && (forall x {:trigger now[x]} :: x in was ==> now[x].op == was[x].op && now[x].slots == was[x].slots)
    && n <= |args| && (n == |args| <==> |args| + 2 * Operands(args) <= MAX_ARGS) && |Flat(args[..n])| <= MAX_ARGS
    && now[i].slots == Flat(args[..n]) + seq(MAX_ARGS - |Flat(args[..n])|, _ => Void)
  }

  /** Lists have only grown, at their ends, by uses of `i`, and `i` has an empty list if it has a value. */
  ghost predicate Appended(was: map<Id, seq<Use>>, now: map<Id, seq<Use>>, i: Id, hasValue: bool) {
    && now.Keys == was.Keys + (if hasValue then {i} else {}) && (hasValue ==> i in now && now[i] == [])
    && (forall d {:trigger now[d]} :: d in was && d != i ==> Grown(was[d], now[d], i))
  }

  ghost predicate Grown(us: seq<Use>, vs: seq<Use>, i: Id) {
    us <= vs && forall k :: |us| <= k < |vs| ==> vs[k].0 == i && vs[k].1 < MAX_ARGS
  }

  class Function {
    const program: Program
    var uses: map<Id, seq<Use>>

    constructor (program: Program)
      requires program.Ok() && program.insts == map[]
      ensures this.program == program && uses == map[] && Ok()
    {
      this.program, this.uses := program, map[];
    }

    /** Every registered value's use list is complete. */
    ghost predicate Ok()
      reads this, program
    {
      program.Ok() && forall d {:trigger uses[d]} :: d in uses ==> d in program.insts && Complete(program.insts, uses[d], d)
    }

    /** The use counter of a registered value is the length of its list of non-phi uses plus its
        terminal uses, modulo the width of the counter. */
    lemma CounterMatches(d: Id)
      requires Ok() && d in uses
      ensures d in program.terminals
      ensures program.insts[d].numUse == (|NonPhi(uses[d])| + program.terminals[d]) % 256
      ensures |NonPhi(uses[d])| + program.terminals[d] <= 255 ==> program.insts[d].numUse == |NonPhi(uses[d])| + program.terminals[d]
    {
      CompleteSize(program.insts, uses[d], d);
      assert Counted(program.insts, program.terminals, d);
    }

    /** Create an instruction on live instructions, registered or not, and append it. */
    method Emit(op: OpCode, args: seq<Arg>, hasValue: bool) returns (i: Id, n: nat)
      requires Ok()
      requires forall k :: 0 <= k < |Flat(args)| && k < MAX_ARGS && Def(Flat(args)[k]).Some? ==>
                 && Def(Flat(args)[k]).value in program.insts
                 && (IsPseudo(op) ==> k == 0 && Flat(args)[k].Value? && !IsPseudo(program.insts[Flat(args)[k].def].op))
      modifies this, program
      ensures Ok() && Appended(old(uses), uses, i, hasValue) && Created(old(program.insts), program.insts, i, op, args, n)
    {
      ghost var p0 := program.insts;
      i, n := Create(op, args);
      ghost var p := program.insts;
      EmittedUses(p0, p, i);
      forall d | d in uses ensures d in p && Lists(NonPhi(uses[d]), Uses(p, d), i, 0) { assert Complete(p0, uses[d], d); }
      AppendInst(i, hasValue);
    }

    /** `Inst::Create`. */
    method Create(op: OpCode, args: seq<Arg>) returns (i: Id, n: nat)
      requires program.Ok()
      requires forall k :: 0 <= k < |Flat(args)| && k < MAX_ARGS && Def(Flat(args)[k]).Some? ==>
                 && Def(Flat(args)[k]).value in program.insts
                 && (IsPseudo(op) ==> k == 0 && Flat(args)[k].Value? && !IsPseudo(program.insts[Flat(args)[k].def].op))
      modifies program
      ensures program.Ok() && Created(old(program.insts), program.insts, i, op, args, n)
      ensures forall j :: 0 <= j < |program.insts[i].slots| ==> Def(program.insts[i].slots[j]) != Some(i)
    {
      ghost var p0 := program.insts;
      i := program.New(op);
      n := program.SetArgs(i, args);
      ghost var p, flat := program.insts, Flat(args[..n]);
      FlatPrefix(args, n);
      assert p[i].slots == flat + seq(MAX_ARGS - |flat|, _ => Void);
      forall j | 0 <= j < |p[i].slots| ensures Def(p[i].slots[j]) != Some(i) { assert j < |flat| ==> p[i].slots[j] == Flat(args)[j]; }
    }

    /** The use lists are complete but for the slots of `i` from `j` on. */
    ghost predicate Listing(i: Id, j: nat)
      reads this, program
    {
      Listed(program.insts, uses, i, j)
    }

    /** `HIRFunction::AppendInst`. */
    method AppendInst(i: Id, hasValue: bool)
      requires program.Ok() && i in program.insts && i !in uses && Uses(program.insts, i) == {} && Listing(i, 0)
      modifies this
      ensures Ok() && Appended(old(uses), uses, i, hasValue)
    {
      if hasValue { uses := uses[i := []]; }
      ghost var p := program.insts;
      assert InstOk(p, i);
      for j := 0 to MAX_ARGS
        invariant Appended(old(uses), uses, i, hasValue) && Listing(i, j)
      {
        NoteUse(i, j, old(uses), hasValue);
      }
      forall d | d in uses ensures Complete(p, uses[d], d) { ListsAll(p, uses[d], d, i); }
    }

    /** Note slot `j` in the list of the value it refers to, if that is registered. */
    method NoteUse(i: Id, j: nat, ghost was: map<Id, seq<Use>>, ghost hasValue: bool)
      requires i in program.insts && Uses(program.insts, i) == {} && j < |program.insts[i].slots| == MAX_ARGS
      requires Appended(was, uses, i, hasValue) && Listing(i, j)
      modifies this
      ensures Appended(was, uses, i, hasValue) && Listing(i, j + 1)
    {
      var s := Def(program.insts[i].slots[j]);
      ListedNext(program.insts, uses, i, j);
      if s.Some? && s.value in uses {
        UsesAt(program.insts, i, i, j);
        AppendedNext(was, uses, i, hasValue, s.value, j);
        uses := uses[s.value := uses[s.value] + [(i, j)]];
      }
    }

    /** `HIRPhi::AddInput`. */
    method AddPhiInput(phi: Id, d: Id)
      requires Ok() && d in uses
      modifies this
      ensures Ok() && uses == old(uses)[d := old(uses)[d] + [(phi, USE_PHI)]]
    {
      NonPhiAppend(uses[d], (phi, USE_PHI));
      ghost var p, before := program.insts, uses;
      uses := uses[d := uses[d] + [(phi, USE_PHI)]];
      forall e | e in uses ensures e in p && Complete(p, uses[e], e) { assert Complete(p, before[e], e); }
    }
  }

  ghost predicate Listed(p: Insts, uses: map<Id, seq<Use>>, i: Id, j: nat) {
    forall d {:trigger uses[d]} :: d in uses ==> d in p && Lists(NonPhi(uses[d]), Uses(p, d), i, j)
  }

  lemma ListedNext(p: Insts, uses: map<Id, seq<Use>>, i: Id, j: nat)
    requires i in p && j < |p[i].slots| == MAX_ARGS && Listed(p, uses, i, j)
    ensures var s := Def(p[i].slots[j]);
            Listed(p, if s.Some? && s.value in uses then uses[s.value := uses[s.value] + [(i, j)]] else uses, i, j + 1)
  {
    forall d | d in uses ensures Lists(NonPhi(if Def(p[i].slots[j]) == Some(d) then uses[d] + [(i, j)] else uses[d]), Uses(p, d), i, j + 1) {
      ListsNext(p, uses[d], d, i, j);
    }
  }

  lemma AppendedNext(was: map<Id, seq<Use>>, uses: map<Id, seq<Use>>, i: Id, hasValue: bool, d: Id, j: nat)
    requires Appended(was, uses, i, hasValue) && d in uses && d != i && j < MAX_ARGS
    ensures Appended(was, uses[d := uses[d] + [(i, j)]], i, hasValue)
  {
  }

  /** A new instruction adds uses of its own slots only, and nothing uses it yet. */
  lemma EmittedUses(p0: Insts, p: Insts, i: Id)
    requires i !in p0 && p.Keys == p0.Keys + {i} && forall x {:trigger InstOk(p0, x)} :: x in p0 ==> InstOk(p0, x)
    requires forall x {:trigger p[x]} :: x in p0 ==> p[x].slots == p0[x].slots
    requires forall j :: 0 <= j < |p[i].slots| ==> Def(p[i].slots[j]) != Some(i)
    ensures Uses(p, i) == {}
    ensures forall d, u {:trigger u in Uses(p, d)} :: u in Uses(p, d) && u.0 != i <==> u in Uses(p0, d)
  {
    forall x, j | x in p && 0 <= j < |p[x].slots| ensures Def(p[x].slots[j]) != Some(i) {
      if x in p0 { assert InstOk(p0, x); }
    }
  }

  lemma DistinctAppend(us: seq<Use>, u: Use)
    requires Distinct(us) && u !in us
    ensures Distinct(us + [u]) && forall v :: v in us + [u] <==> v in us || v == u
  {
  }

  lemma UsesAt(p: Insts, d: Id, i: Id, j: nat)
    requires i in p && j < |p[i].slots|
    ensures (i, j) in Uses(p, d) <==> Def(p[i].slots[j]) == Some(d)
  {
  }

  lemma ListsStep(us: seq<Use>, all: set<Use>, i: Id, j: nat)
    requires Lists(us, all, i, j)
    ensures Lists(if (i, j) in all then us + [(i, j)] else us, all, i, j + 1)
  {
    DistinctAppend(us, (i, j));
  }

  lemma ListsNext(p: Insts, us: seq<Use>, d: Id, i: Id, j: nat)
    requires Lists(NonPhi(us), Uses(p, d), i, j) && i in p && j < |p[i].slots| == MAX_ARGS
    ensures Lists(NonPhi(if Def(p[i].slots[j]) == Some(d) then us + [(i, j)] else us), Uses(p, d), i, j + 1)
  {
    NonPhiAppend(us, (i, j));
    UsesAt(p, d, i, j);
    ListsStep(NonPhi(us), Uses(p, d), i, j);
  }

  lemma ListsAll(p: Insts, us: seq<Use>, d: Id, i: Id)
    requires Lists(NonPhi(us), Uses(p, d), i, MAX_ARGS) && i in p && |p[i].slots| == MAX_ARGS
    ensures Complete(p, us, d)
  {
  }
}
