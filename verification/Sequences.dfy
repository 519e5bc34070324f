/** Facts about sequences that several modules share. */
module Sequences {

  predicate NoDup<T(==)>(s: seq<T>) {
    forall i, j :: 0 <= i < j < |s| ==> s[i] != s[j]
  }

  function Concat<T>(parts: seq<seq<T>>): seq<T> {
    if parts == [] then [] else parts[0] + Concat(parts[1..])
  }

  lemma Reassociate<T>(a: seq<T>, b: seq<T>, c: seq<T>)
    ensures (a + b) + c == a + (b + c)
  {
  }

  function Iterate<T>(f: T -> T, x: T, n: nat): T {
    if n == 0 then x else f(Iterate(f, x, n - 1))
  }

  /** What every application carries from k to k + 1 holds of n applications. */
  lemma {:induction false} IterateKeeps<T(!new)>(f: T -> T, good: (T, nat) -> bool, x: T, n: nat)
    requires good(x, 0) && forall y, k: nat | good(y, k) :: good(f(y), k + 1)
    ensures good(Iterate(f, x, n), n)
  {
    if n > 0 {
      IterateKeeps(f, good, x, n - 1);
    }
  }
}
