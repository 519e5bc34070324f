/** Sorting and counting, for the sorted copies the sampler and the metrics take. */
module Order {

  predicate Ascending(s: seq<real>) {
    forall i, j :: 0 <= i <= j < |s| ==> s[i] <= s[j]
  }

  function Insert(x: real, s: seq<real>): (r: seq<real>)
    ensures |r| == |s| + 1
  {
    if s == [] then [x] else if x <= s[0] then [x] + s else [s[0]] + Insert(x, s[1..])
  }

  function Sort(s: seq<real>): (r: seq<real>)
    ensures |r| == |s|
  {
    if s == [] then [] else Insert(s[0], Sort(s[1..]))
  }

  /** How many entries satisfy p. */
  function Count(s: seq<real>, p: real -> bool): (n: nat)
    ensures n <= |s|
  {
    if s == [] then 0 else (if p(s[0]) then 1 else 0) + Count(s[1..], p)
  }

  predicate Floors(y: real, s: seq<real>) {
    forall i :: 0 <= i < |s| ==> y <= s[i]
  }

  lemma {:induction false} InsertKeepsFloor(x: real, s: seq<real>, y: real)
    requires Floors(y, s) && y <= x
    ensures Floors(y, Insert(x, s))
  {
    if s != [] && x > s[0] {
      InsertKeepsFloor(x, s[1..], y);
    }
  }

  lemma {:induction false} InsertKeepsOrder(x: real, s: seq<real>)
    requires Ascending(s)
    ensures Ascending(Insert(x, s))
  {
    if s != [] && x > s[0] {
      InsertKeepsOrder(x, s[1..]);
      InsertKeepsFloor(x, s[1..], s[0]);
    }
  }

  lemma {:induction false} SortIsAscending(s: seq<real>)
    ensures Ascending(Sort(s))
  {
    if s != [] {
      SortIsAscending(s[1..]);
      InsertKeepsOrder(s[0], Sort(s[1..]));
    }
  }

  lemma {:induction false} InsertKeepsCount(x: real, s: seq<real>, p: real -> bool)
    ensures Count(Insert(x, s), p) == Count(s, p) + if p(x) then 1 else 0
  {
    if s == [] {
    } else if x <= s[0] {
      assert ([x] + s)[1..] == s;
    } else {
      InsertKeepsCount(x, s[1..], p);
      assert ([s[0]] + Insert(x, s[1..]))[1..] == Insert(x, s[1..]);
    }
  }

  /** Sorting is a permutation: every property is satisfied as often as before. */
  lemma {:induction false} SortKeepsCount(s: seq<real>, p: real -> bool)
    ensures Count(Sort(s), p) == Count(s, p)
  {
    if s != [] {
      SortKeepsCount(s[1..], p);
      InsertKeepsCount(s[0], Sort(s[1..]), p);
    }
  }

  lemma {:induction false} CountConcat(a: seq<real>, b: seq<real>, p: real -> bool)
    ensures Count(a + b, p) == Count(a, p) + Count(b, p)
  {
    if a == [] {
      assert a + b == b;
    } else {
      assert (a + b)[1..] == a[1..] + b;
      CountConcat(a[1..], b, p);
    }
  }

  lemma {:induction false} CountAll(s: seq<real>, p: real -> bool)
    requires forall i :: 0 <= i < |s| ==> p(s[i])
    ensures Count(s, p) == |s|
  {
    if s != [] {
      CountAll(s[1..], p);
    }
  }

  lemma {:induction false} CountNone(s: seq<real>, p: real -> bool)
    requires forall i :: 0 <= i < |s| ==> !p(s[i])
    ensures Count(s, p) == 0
  {
    if s != [] {
      CountNone(s[1..], p);
    }
  }

  lemma {:induction false} CountMonotone(s: seq<real>, p: real -> bool, q: real -> bool)
    requires forall x :: p(x) ==> q(x)
    ensures Count(s, p) <= Count(s, q)
  {
    if s != [] {
      CountMonotone(s[1..], p, q);
    }
  }

  lemma {:induction false} CountMisses(s: seq<real>, p: real -> bool, i: nat)
    requires i < |s| && !p(s[i])
    ensures Count(s, p) < |s|
  {
    if i > 0 {
      CountMisses(s[1..], p, i - 1);
    }
  }

  lemma CountCut(t: seq<real>, k: nat, p: real -> bool)
    requires k <= |t|
    ensures Count(t, p) == Count(t[..k], p) + Count(t[k..], p)
  {
    CountConcat(t[..k], t[k..], p);
    assert t[..k] + t[k..] == t;
  }

  lemma CountSplit(t: seq<real>, lo: nat, hi: nat, p: real -> bool)
    requires lo <= hi <= |t|
    ensures Count(t, p) == Count(t[..lo], p) + Count(t[lo..hi], p) + Count(t[hi..], p)
  {
    CountCut(t, hi, p);
    CountCut(t[..hi], lo, p);
    assert t[..hi][..lo] == t[..lo];
    assert t[..hi][lo..] == t[lo..hi];
  }

  lemma CountOfStretch(t: seq<real>, lo: nat, hi: nat, p: real -> bool)
    requires lo <= hi <= |t|
    ensures (forall i :: lo <= i < hi ==> p(t[i])) ==> Count(t, p) >= hi - lo
    ensures (forall i :: lo <= i < hi ==> !p(t[i])) ==> Count(t, p) <= |t| - (hi - lo)
  {
    CountSplit(t, lo, hi, p);
    if forall i :: lo <= i < hi ==> p(t[i]) {
      CountAll(t[lo..hi], p);
    }
    if forall i :: lo <= i < hi ==> !p(t[i]) {
      CountNone(t[lo..hi], p);
    }
  }

  function AtMost(v: real): real -> bool { x => x <= v }
  function Below(v: real): real -> bool { x => x < v }
  function AtLeast(v: real): real -> bool { x => x >= v }
  function Above(v: real): real -> bool { x => x > v }

  /** The entry of rank r in ascending order. */
  function Ranked(s: seq<real>, r: nat): real
    requires r < |s|
  {
    Sort(s)[r]
  }

  lemma RankedCounts(s: seq<real>, t: seq<real>, r: nat, v: real)
    requires t == Sort(s) && r < |s| && v == t[r]
    ensures Count(s, AtMost(v)) >= r + 1 && Count(s, Below(v)) <= r
    ensures Count(s, AtLeast(v)) >= |s| - r && Count(s, Above(v)) < |s| - r
  {
    SortIsAscending(s);
    SortKeepsCount(s, AtMost(v));
    SortKeepsCount(s, Below(v));
    SortKeepsCount(s, AtLeast(v));
    SortKeepsCount(s, Above(v));
    CountOfStretch(t, 0, r + 1, AtMost(v));
    CountOfStretch(t, r, |t|, Below(v));
    CountOfStretch(t, r, |t|, AtLeast(v));
    CountOfStretch(t, 0, r + 1, Above(v));
  }

  /** At least r + 1 entries are at most the entry of rank r, and at most r are below it; at
      least n - r are at least it, and fewer than n - r are above it. */
  lemma RankCounts(s: seq<real>, r: nat)
    requires r < |s|
    ensures Count(s, AtMost(Ranked(s, r))) >= r + 1 && Count(s, Below(Ranked(s, r))) <= r
    ensures Count(s, AtLeast(Ranked(s, r))) >= |s| - r && Count(s, Above(Ranked(s, r))) < |s| - r
  {
    RankedCounts(s, Sort(s), r, Ranked(s, r));
  }
}
