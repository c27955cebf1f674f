/** Shared definitions. */
module Basics {

  datatype Option<+T> = None | Some(value: T)

  predicate NoDup<T(==)>(q: seq<T>) {
    q == [] || (q[0] !in q[1..] && NoDup(q[1..]))
  }

  ghost predicate Distinct<T>(s: seq<T>) { forall i, j :: 0 <= i < j < |s| ==> s[i] != s[j] }

  function Pow2(n: nat): (r: nat)
    ensures r > 0
  {
    if n == 0 then 1 else 2 * Pow2(n - 1)
  }
}
