/** What several models share. */
module Wrappers {
  datatype Option<+T> = None | Some(value: T)

  /** A word of a transcript. */
  type Token = string

  function Min(a: nat, b: nat): nat { if a <= b then a else b }

  function Max(a: int, b: int): int { if a >= b then a else b }

  /** How many elements satisfy `p`. */
  function Count<T>(xs: seq<T>, p: T -> bool): (n: nat)
    ensures n <= |xs|
  { if xs == [] then 0 else Count(xs[1..], p) + (if p(xs[0]) then 1 else 0) }

  lemma {:induction false} Member<T>(s: set<T>) returns (x: T)
    requires s != {}
    ensures x in s
  {
    x :| x in s;
  }
}
