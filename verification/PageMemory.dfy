/** Physical memory by pages, and mappings of scattered pages to one run of addresses. */
module PageMemory {
  import opened Basics
  import opened InitialImage

  function PageOf(x: nat): (p: nat)
    ensures p * PAGE <= x < p * PAGE + PAGE
  {
    x / PAGE
  }

  lemma PageOfIs(x: nat, p: nat)
    requires p * PAGE <= x < p * PAGE + PAGE
    ensures PageOf(x) == p
  {
  }

  ghost function SetOf(ps: seq<nat>): set<nat> { set p | p in ps }

  /** The pages from `lo` up to `hi`. */
  ghost function Span(lo: nat, hi: nat): set<nat> { set p: nat | lo <= p < hi && Inside(p, lo, hi) }

  predicate Inside(p: nat, lo: nat, hi: nat) { lo <= p < hi }

  /** The pages exist in a memory of `n` bytes, and none is mapped twice. */
  ghost predicate Maps(ps: seq<nat>, n: nat) {
    Distinct(ps) && forall i :: 0 <= i < |ps| ==> (ps[i] + 1) * PAGE <= n
  }

  /** The physical address of byte `j` of a mapping. */
  function At(ps: seq<nat>, j: nat): (a: nat)
    requires j < |ps| * PAGE
    ensures ps[PageOf(j)] * PAGE <= a < ps[PageOf(j)] * PAGE + PAGE && PageOf(a) == ps[PageOf(j)]
  {
    ps[PageOf(j)] * PAGE + (j - PageOf(j) * PAGE)
  }

  lemma AtDistinct(ps: seq<nat>, i: nat, j: nat)
    requires Distinct(ps) && i < |ps| * PAGE && j < |ps| * PAGE && At(ps, i) == At(ps, j)
    ensures i == j
  {
    assert ps[PageOf(i)] == ps[PageOf(j)];
  }

  /** What a mapping of the pages shows. */
  function Seen(m: seq<Byte>, ps: seq<nat>): (t: seq<Byte>)
    requires Maps(ps, |m|)
    ensures |t| == |ps| * PAGE && forall j {:trigger t[j]} :: 0 <= j < |t| ==> t[j] == m[At(ps, j)]
  {
    seq(|ps| * PAGE, j requires 0 <= j < |ps| * PAGE => m[At(ps, j)])
  }

  /** Nothing has changed but bytes of the given pages. */
  ghost predicate Untouched(now: seq<Byte>, was: seq<Byte>, touched: set<nat>) {
    |now| == |was| && forall b: nat {:trigger now[b]} :: b < |now| && PageOf(b) !in touched ==> now[b] == was[b]
  }

  lemma UntouchedTrans(a: seq<Byte>, b: seq<Byte>, c: seq<Byte>, s: set<nat>, t: set<nat>)
    requires Untouched(b, a, s) && Untouched(c, b, t)
    ensures Untouched(c, a, s + t)
  {
    forall x: nat | x < |c| && PageOf(x) !in s + t ensures c[x] == a[x] { assert b[x] == a[x]; }
  }

  lemma UntouchedMore(a: seq<Byte>, b: seq<Byte>, s: set<nat>, t: set<nat>)
    requires Untouched(b, a, s) && s <= t
    ensures Untouched(b, a, t)
  {
  }

  lemma SeenSame(now: seq<Byte>, was: seq<Byte>, touched: set<nat>, ps: seq<nat>)
    requires Untouched(now, was, touched) && Maps(ps, |was|) && SetOf(ps) !! touched
    ensures Seen(now, ps) == Seen(was, ps)
  {
    forall j | 0 <= j < |ps| * PAGE ensures now[At(ps, j)] == was[At(ps, j)] { assert ps[PageOf(j)] in SetOf(ps); }
  }

  // ----- Writing -----

  /** A store through a mapping. */
  method Poke(mem: array<Byte>, ps: seq<nat>, j: nat, v: Byte)
    requires Maps(ps, mem.Length) && j < |ps| * PAGE
    modifies mem
    ensures Seen(mem[..], ps) == old(Seen(mem[..], ps))[j := v] && Untouched(mem[..], old(mem[..]), SetOf(ps))
  {
    ghost var was := mem[..];
    mem[At(ps, j)] := v;
    Poked(was, ps, j, v);
    assert mem[..] == was[At(ps, j) := v];
  }

  lemma Poked(m: seq<Byte>, ps: seq<nat>, j: nat, v: Byte)
    requires Maps(ps, |m|) && j < |ps| * PAGE
    ensures Seen(m[At(ps, j) := v], ps) == Seen(m, ps)[j := v] && Untouched(m[At(ps, j) := v], m, SetOf(ps))
  {
    var now := m[At(ps, j) := v];
    forall i | 0 <= i < |ps| * PAGE ensures Seen(now, ps)[i] == Seen(m, ps)[j := v][i] {
      if At(ps, i) == At(ps, j) { AtDistinct(ps, i, j); }
    }
    assert ps[PageOf(j)] in SetOf(ps);
  }

  /** The `len` bytes from `src` on have been moved down to `dst`. */
  ghost predicate Lowered(was: seq<Byte>, now: seq<Byte>, dst: nat, src: nat, len: nat) {
    && dst <= src && src + len <= |was| == |now|
    && forall j {:trigger now[j]} :: 0 <= j < |now| ==> now[j] == if dst <= j < dst + len then was[j + (src - dst)] else was[j]
  }

  /** `memmove` to lower addresses. */
  method MoveDown(mem: array<Byte>, dst: nat, src: nat, len: nat)
    requires dst <= src && src + len <= mem.Length
    modifies mem
    ensures Lowered(old(mem[..]), mem[..], dst, src, len)
  {
    var k := 0;
    while k < len
      invariant 0 <= k <= len
      invariant forall j :: dst <= j < dst + k ==> mem[j] == old(mem[j + (src - dst)])
      invariant forall j :: 0 <= j < dst || dst + k <= j < mem.Length ==> mem[j] == old(mem[j])
    {
      mem[dst + k] := mem[src + k];
      k := k + 1;
    }
  }

  /** `t` with `x` from `dst` on. */
  function Spliced(t: seq<Byte>, dst: nat, x: seq<Byte>): (r: seq<Byte>)
    requires dst + |x| <= |t|
    ensures |r| == |t| && forall j {:trigger r[j]} :: 0 <= j < |t| ==> r[j] == if dst <= j < dst + |x| then x[j - dst] else t[j]
  {
    seq(|t|, j requires 0 <= j < |t| => if dst <= j < dst + |x| then x[j - dst] else t[j])
  }

  /** `memcpy` of bytes outside the mapping into it. */
  method CopyIn(mem: array<Byte>, ps: seq<nat>, dst: nat, src: nat, len: nat)
    requires Maps(ps, mem.Length) && dst + len <= |ps| * PAGE && src + len <= mem.Length
    requires forall b: nat {:trigger PageOf(b)} :: src <= b < src + len ==> PageOf(b) !in SetOf(ps)
    modifies mem
    ensures Seen(mem[..], ps) == old(Spliced(Seen(mem[..], ps), dst, mem[src..src + len]))
    ensures Untouched(mem[..], old(mem[..]), SetOf(ps))
  {
    ghost var was, t := mem[..], Seen(mem[..], ps);
    var k := 0;
    while k < len
      invariant 0 <= k <= len && Untouched(mem[..], was, SetOf(ps))
      invariant Seen(mem[..], ps) == Spliced(t, dst, was[src..src + k])
    {
      assert PageOf(src + k) !in SetOf(ps) && mem[..][src + k] == was[src + k];
      Poke(mem, ps, dst + k, mem[src + k]);
      k := k + 1;
    }
  }

  /** `t` with the bytes from `d` up to `e` taken from `shift` bytes further down. */
  function Raised(t: seq<Byte>, d: nat, e: nat, shift: nat): (r: seq<Byte>)
    requires shift <= d <= e <= |t|
    ensures |r| == |t|
  {
    seq(|t|, j requires 0 <= j < |t| => if d <= j < e then t[j - shift] else t[j])
  }

  lemma RaiseMore(t: seq<Byte>, d: nat, e: nat, shift: nat)
    requires shift < d <= e <= |t|
    ensures Raised(t, d, e, shift)[d - 1 - shift] == t[d - 1 - shift]
    ensures Raised(t, d, e, shift)[d - 1 := t[d - 1 - shift]] == Raised(t, d - 1, e, shift)
  {
  }

  /** `memmove` from the start of a mapping to a higher address in it. */
  method MoveUp(mem: array<Byte>, ps: seq<nat>, dst: nat, len: nat)
    requires Maps(ps, mem.Length) && dst + len <= |ps| * PAGE
    modifies mem
    ensures Seen(mem[..], ps) == Raised(old(Seen(mem[..], ps)), dst, dst + len, dst)
    ensures Untouched(mem[..], old(mem[..]), SetOf(ps))
  {
    ghost var t := Seen(mem[..], ps);
    var k: nat := dst + len;
    assert Raised(t, k, k, dst) == t;
    while k > dst
      invariant dst <= k <= dst + len && Untouched(mem[..], old(mem[..]), SetOf(ps))
      invariant Seen(mem[..], ps) == Raised(t, k, dst + len, dst)
    {
      RaiseMore(t, k, dst + len, dst);
      var v := mem[At(ps, k - 1 - dst)];
      assert v == Seen(mem[..], ps)[k - 1 - dst];
      Poke(mem, ps, k - 1, v);
      k := k - 1;
    }
  }

  /** `memset` to zero from the start of a mapping. */
  method Clear(mem: array<Byte>, ps: seq<nat>, len: nat)
    requires Maps(ps, mem.Length) && len <= |ps| * PAGE
    modifies mem
    ensures forall j :: 0 <= j < |ps| * PAGE ==> Seen(mem[..], ps)[j] == if j < len then 0 else old(Seen(mem[..], ps))[j]
    ensures Untouched(mem[..], old(mem[..]), SetOf(ps))
  {
    ghost var t := Seen(mem[..], ps);
    var k := 0;
    while k < len
      invariant 0 <= k <= len && Untouched(mem[..], old(mem[..]), SetOf(ps))
      invariant forall j :: 0 <= j < |t| ==> Seen(mem[..], ps)[j] == if j < k then 0 else t[j]
    {
      Poke(mem, ps, k, 0);
      k := k + 1;
    }
  }

  /** Read a whole mapping. */
  method Peek(mem: array<Byte>, ps: seq<nat>) returns (t: seq<Byte>)
    requires Maps(ps, mem.Length)
    ensures t == Seen(mem[..], ps)
  {
    t := [];
    while |t| < |ps| * PAGE
      invariant |t| <= |ps| * PAGE && t == Seen(mem[..], ps)[..|t|]
    {
      t := t + [mem[At(ps, |t|)]];
    }
  }

  /** Write a whole mapping. */
  method Fill(mem: array<Byte>, ps: seq<nat>, t: seq<Byte>)
    requires Maps(ps, mem.Length) && |t| == |ps| * PAGE
    modifies mem
    ensures Seen(mem[..], ps) == t && Untouched(mem[..], old(mem[..]), SetOf(ps))
  {
    var k := 0;
    while k < |t|
      invariant 0 <= k <= |t| && Untouched(mem[..], old(mem[..]), SetOf(ps))
      invariant Seen(mem[..], ps)[..k] == t[..k]
    {
      Poke(mem, ps, k, t[k]);
      k := k + 1;
    }
  }
}
