/** Top-k and nucleus filtering of `sample_token`, over exact reals. */
module Sampling {
  import opened Softmax
  import opened Order

  // ---------------------------------------------------------------- top-k

  /** Logits after the top-k filter; an excluded entry is minus infinity. */
  function TopK(logits: seq<real>, k: int): (s: seq<Score>)
    ensures |s| == |logits|
  {
    if 0 < k < |logits| then
      var threshold := Threshold(logits, k);
      seq(|logits|, i requires 0 <= i < |logits| => if logits[i] < threshold then Excluded else At(logits[i]))
    else seq(|logits|, i requires 0 <= i < |logits| => At(logits[i]))
  }

  lemma CountedSomewhere(s: seq<real>, p: real -> bool) returns (i: nat)
    requires Count(s, p) > 0
    ensures i < |s| && p(s[i])
  {
    if p(s[0]) {
      i := 0;
    } else {
      i := CountedSomewhere(s[1..], p);
      i := i + 1;
    }
  }

  /** The k-th largest logit. */
  function Threshold(logits: seq<real>, k: int): real
    requires 0 < k < |logits|
  {
    Ranked(logits, KthPosition(logits, k))
  }

  /** The ascending position of the k-th largest of the logits. */
  function KthPosition(logits: seq<real>, k: int): (r: nat)
    requires 0 < k < |logits|
    ensures r + k == |logits|
  {
    |logits| - k
  }

  lemma SurvivorIff(logits: seq<real>, k: int, i: nat)
    requires 0 < k < |logits| && i < |logits|
    ensures TopK(logits, k)[i].At? <==> logits[i] >= Threshold(logits, k)
  {
  }

  lemma SurvivorCount(logits: seq<real>, k: int)
    requires 0 < k < |logits|
    ensures Count(logits, AtLeast(Threshold(logits, k))) >= k && Count(logits, Above(Threshold(logits, k))) < k
  {
    RankCounts(logits, KthPosition(logits, k));
  }

  /** Exactly the entries from the threshold up survive: at least k of them, fewer than k
      strictly above it. */
  lemma TopKSurvivors(logits: seq<real>, k: int)
    requires 0 < k < |logits|
    ensures var v := Threshold(logits, k);
            Count(logits, AtLeast(v)) >= k && Count(logits, Above(v)) < k
    ensures forall i :: 0 <= i < |logits| ==> (TopK(logits, k)[i].At? <==> logits[i] >= Threshold(logits, k))
  {
    SurvivorCount(logits, k);
    forall i: nat | i < |logits| ensures TopK(logits, k)[i].At? <==> logits[i] >= Threshold(logits, k) {
      SurvivorIff(logits, k, i);
    }
  }

  /** For every k: a token keeps its logit exactly when k is not positive or fewer than k tokens
      have a higher one. */
  lemma SurvivesIff(logits: seq<real>, k: int, i: nat)
    requires i < |logits|
    ensures TopK(logits, k)[i] ==
            if k <= 0 || Count(logits, Above(logits[i])) < k then At(logits[i]) else Excluded
  {
    var above := Above(logits[i]);
    if 0 < k < |logits| {
      var v := Threshold(logits, k);
      SurvivorCount(logits, k);
      if logits[i] >= v {
        CountMonotone(logits, above, Above(v));
      } else {
        CountMonotone(logits, AtLeast(v), above);
      }
    } else {
      CountMisses(logits, above, i);
    }
  }

  /** Something always survives. */
  lemma TopKIncluded(logits: seq<real>, k: int)
    requires logits != []
    ensures Included(TopK(logits, k))
  {
    if 0 < k < |logits| {
      SurvivorCount(logits, k);
      var i := CountedSomewhere(logits, AtLeast(Threshold(logits, k)));
      SurvivorIff(logits, k, i);
    } else {
      assert TopK(logits, k)[0].At?;
    }
  }

  // ---------------------------------------------------------------- permutations

  function Iota(n: nat): (s: seq<nat>)
    ensures |s| == n && forall i :: 0 <= i < n ==> s[i] == i
  {
    seq(n, i => i)
  }

  /** An index order: every index below n once. */
  ghost predicate Permutation(order: seq<nat>, n: nat) {
    multiset(order) == multiset(Iota(n))
  }

  lemma {:induction false} IotaOnce(n: nat, x: nat)
    ensures multiset(Iota(n))[x] == if x < n then 1 else 0
  {
    if n > 0 {
      assert Iota(n) == Iota(n - 1) + [n - 1];
      IotaOnce(n - 1, x);
    }
  }

  lemma PermutationIndices(order: seq<nat>, n: nat)
    requires Permutation(order, n)
    ensures |order| == n
    ensures forall i :: 0 <= i < n ==> order[i] < n
    ensures forall i, j :: 0 <= i < j < n ==> order[i] != order[j]
  {
    assert |order| == |multiset(order)| == |multiset(Iota(n))| == n;
    forall i | 0 <= i < n ensures order[i] < n {
      IotaOnce(n, order[i]);
      assert order[i] in multiset(order);
    }
    forall i, j | 0 <= i < j < n ensures order[i] != order[j] {
      IotaOnce(n, order[i]);
      assert order == order[..j] + order[j..];
      assert multiset(order) == multiset(order[..j]) + multiset(order[j..]);
      assert order[..j][i] == order[i] && order[j..][0] == order[j];
      assert order[i] in multiset(order[..j]) && order[j] in multiset(order[j..]);
    }
  }

  /** The entries of v visited in an index order. */
  function Along(order: seq<nat>, v: seq<real>): (s: seq<real>)
    requires forall i :: 0 <= i < |order| ==> order[i] < |v|
    ensures |s| == |order|
  {
    seq(|order|, i requires 0 <= i < |order| => v[order[i]])
  }

  lemma {:induction false} SumConcat(a: seq<real>, b: seq<real>)
    ensures Sum(a + b) == Sum(a) + Sum(b)
  {
    if b == [] {
      assert a + b == a;
    } else {
      assert (a + b)[..|a + b| - 1] == a + b[..|b| - 1];
      SumConcat(a, b[..|b| - 1]);
    }
  }

  /** A sum does not depend on the order of visiting. */
  lemma {:induction false} SumAlong(order: seq<nat>, v: seq<real>)
    requires Permutation(order, |v|)
    ensures forall i :: 0 <= i < |order| ==> order[i] < |v|
    ensures Sum(Along(order, v)) == Sum(v)
    decreases |v|
  {
    PermutationIndices(order, |v|);
    if v != [] {
      var n := |v| - 1;
      var j := WithoutLast(order, n);
      SumAlong(order[..j] + order[j + 1..], v[..n]);
      AlongWithout(order, v, j);
      var a, b := Along(order[..j], v), Along(order[j + 1..], v);
      SumConcat(a + [v[n]], b);
      SumConcat(a, [v[n]]);
      SumConcat(a, b);
    }
  }

  lemma WithoutLast(order: seq<nat>, n: nat) returns (j: nat)
    requires Permutation(order, n + 1)
    ensures j < |order| && order[j] == n && forall i :: 0 <= i < |order| ==> order[i] <= n && (i != j ==> order[i] < n)
    ensures Permutation(order[..j] + order[j + 1..], n)
  {
    PermutationIndices(order, n + 1);
    IotaOnce(n + 1, n);
    assert n in multiset(order);
    j :| 0 <= j < |order| && order[j] == n;
    SplitMultiset(order, j);
    assert Iota(n + 1) == Iota(n) + [n];
    SameWithout(multiset(order[..j] + order[j + 1..]), multiset(Iota(n)), n);
  }

  lemma SplitMultiset(order: seq<nat>, j: nat)
    requires j < |order|
    ensures multiset(order) == multiset(order[..j] + order[j + 1..]) + multiset{order[j]}
  {
    assert order == order[..j] + [order[j]] + order[j + 1..];
  }

  lemma SameWithout(a: multiset<nat>, b: multiset<nat>, x: nat)
    requires a + multiset{x} == b + multiset{x}
    ensures a == b
  {
    assert a == a + multiset{x} - multiset{x};
    assert b == b + multiset{x} - multiset{x};
  }

  lemma AlongWithout(order: seq<nat>, v: seq<real>, j: nat)
    requires j < |order| && v != [] && order[j] == |v| - 1
    requires forall i :: 0 <= i < |order| ==> order[i] < |v| && (i != j ==> order[i] < |v| - 1)
    ensures var less, n := order[..j] + order[j + 1..], |v| - 1;
            (forall i :: 0 <= i < |less| ==> less[i] < n) &&
            var a, b := Along(order[..j], v), Along(order[j + 1..], v);
            Along(less, v[..n]) == a + b && Along(order, v) == a + [v[n]] + b
  {
    var less := order[..j] + order[j + 1..];
    forall i | 0 <= i < |less| ensures less[i] == order[if i < j then i else i + 1] {
    }
  }

  // ---------------------------------------------------------------- top-p

  function Cumulative(sorted: seq<real>, i: nat): real
    requires i < |sorted|
  {
    Sum(sorted[..i + 1])
  }

  /** argmax of the negated mask: the first index whose cumulative mass exceeds p, else 0. */
  function FirstOver(sorted: seq<real>, p: real, i: nat): (m: nat)
    requires i <= |sorted|
    decreases |sorted| - i
    ensures m == 0 || i <= m < |sorted|
    ensures m != 0 ==> Cumulative(sorted, m) > p && forall j :: i <= j < m ==> Cumulative(sorted, j) <= p
  {
    if i == |sorted| then 0 else if Cumulative(sorted, i) > p then i else FirstOver(sorted, p, i + 1)
  }

  /** keep_mask after the boundary token is included. */
  predicate Keep(sorted: seq<real>, p: real, i: nat)
    requires i < |sorted|
  {
    Cumulative(sorted, i) <= p || i == FirstOver(sorted, p, 0)
  }

  lemma {:induction false} CumulativeGrows(sorted: seq<real>, i: nat, j: nat)
    requires i <= j < |sorted| && forall k :: 0 <= k < |sorted| ==> sorted[k] >= 0.0
    ensures Cumulative(sorted, i) <= Cumulative(sorted, j)
    decreases j - i
  {
    if i < j {
      CumulativeGrows(sorted, i, j - 1);
      assert sorted[..j + 1][..j] == sorted[..j];
    }
  }

  lemma {:induction false} SomeOver(sorted: seq<real>, p: real, i: nat)
    requires i < |sorted| && Cumulative(sorted, |sorted| - 1) > p
    ensures var m := FirstOver(sorted, p, i);
            i <= m < |sorted| && Cumulative(sorted, m) > p && forall j :: i <= j < m ==> Cumulative(sorted, j) <= p
    decreases |sorted| - i
  {
    if Cumulative(sorted, i) <= p {
      SomeOver(sorted, p, i + 1);
    }
  }

  /** The kept entries are the shortest prefix of the sorted order with mass above p; it has at
      least one entry, also for a negative p. */
  lemma KeptIsPrefix(sorted: seq<real>, p: real) returns (m: nat)
    requires sorted != [] && p < 1.0 && Sum(sorted) == 1.0
    requires forall k :: 0 <= k < |sorted| ==> sorted[k] >= 0.0
    ensures m < |sorted|
    ensures forall i :: 0 <= i < |sorted| ==> (Keep(sorted, p, i) <==> i <= m)
    ensures Sum(sorted[..m + 1]) > p && (m > 0 ==> Sum(sorted[..m]) <= p)
    ensures m > 0 ==> sorted[m] > 0.0
  {
    assert sorted[..|sorted|] == sorted;
    SomeOver(sorted, p, 0);
    m := FirstOver(sorted, p, 0);
    forall i | 0 <= i < |sorted| ensures Keep(sorted, p, i) <==> i <= m {
      if i > m {
        CumulativeGrows(sorted, m, i);
      }
    }
    if m > 0 {
      assert Cumulative(sorted, m - 1) <= p;
    }
    assert sorted[..m + 1][..m] == sorted[..m];
  }

  /** The largest of entries that sum to one is positive. */
  lemma {:induction false} FirstIsPositive(sorted: seq<real>)
    requires sorted != [] && Sum(sorted) > 0.0
    requires forall i :: 0 <= i < |sorted| ==> sorted[0] >= sorted[i]
    ensures sorted[0] > 0.0
    decreases |sorted|
  {
    if |sorted| > 1 && sorted[0] <= 0.0 {
      var n := |sorted| - 1;
      assert sorted[n] <= sorted[0];
      assert Sum(sorted[..n]) > 0.0;
      FirstIsPositive(sorted[..n]);
    } else if |sorted| == 1 {
      assert sorted[..0] == [];
    }
  }

  /** An index order by descending probability, as argsort(-probs) returns some. */
  ghost predicate Descending(order: seq<nat>, probs: seq<real>) {
    Permutation(order, |probs|) &&
    (forall i :: 0 <= i < |order| ==> order[i] < |probs|) &&
    forall i, j :: 0 <= i <= j < |order| ==> probs[order[i]] >= probs[order[j]]
  }

  /** The allowed tokens. */
  ghost predicate Allowed(order: seq<nat>, probs: seq<real>, p: real, t: nat)
    requires Descending(order, probs)
  {
    exists i :: 0 <= i < |order| && order[i] == t && Keep(Along(order, probs), p, i)
  }

  /** new_probs before and after renormalisation. */
  ghost function Masses(order: seq<nat>, probs: seq<real>, p: real): (w: seq<real>)
    requires Descending(order, probs)
    ensures |w| == |probs|
  {
    seq(|probs|, (t: nat) requires t < |probs| => if Allowed(order, probs, p, t) then probs[t] else 0.0)
  }

  ghost function Nucleus(order: seq<nat>, probs: seq<real>, p: real): (q: seq<real>)
    requires Descending(order, probs) && Sum(Masses(order, probs, p)) > 0.0
    ensures |q| == |probs|
  {
    var w := Masses(order, probs, p);
    seq(|probs|, t requires 0 <= t < |probs| => w[t] / Sum(w))
  }

  /** Kept positions and allowed tokens are the same thing. */
  lemma AllowedAlong(order: seq<nat>, probs: seq<real>, p: real, m: nat)
    requires Descending(order, probs) && m < |order|
    requires forall i :: 0 <= i < |order| ==> (Keep(Along(order, probs), p, i) <==> i <= m)
    ensures forall i :: 0 <= i < |order| ==> (Allowed(order, probs, p, order[i]) <==> i <= m)
  {
    PermutationIndices(order, |probs|);
  }

  lemma {:induction false} ZeroTail(s: seq<real>, m: nat)
    requires m <= |s| && forall i :: m <= i < |s| ==> s[i] == 0.0
    ensures Sum(s) == Sum(s[..m])
    decreases |s| - m
  {
    if m == |s| {
      assert s[..m] == s;
    } else {
      ZeroTail(s, m + 1);
      assert s[..m + 1][..m] == s[..m];
    }
  }

  /** The mass kept is the mass of the prefix. */
  lemma KeptMass(order: seq<nat>, probs: seq<real>, p: real, m: nat)
    requires Descending(order, probs) && m < |order|
    requires forall i :: 0 <= i < |order| ==> (Keep(Along(order, probs), p, i) <==> i <= m)
    ensures Sum(Masses(order, probs, p)) == Sum(Along(order, probs)[..m + 1])
  {
    var w, sorted := Masses(order, probs, p), Along(order, probs);
    AllowedAlong(order, probs, p, m);
    SumAlong(order, w);
    var s := Along(order, w);
    ZeroTail(s, m + 1);
    assert s[..m + 1] == sorted[..m + 1];
  }

  lemma {:induction false} ScaledSum(w: seq<real>, t: real, q: seq<real>)
    requires t > 0.0 && |q| == |w| && forall i :: 0 <= i < |w| ==> q[i] == w[i] / t
    ensures Sum(q) == Sum(w) / t
  {
    if w == [] {
      Quotients(0.0, 0.0, t);
    } else {
      var n := |w| - 1;
      ScaledSum(w[..n], t, q[..n]);
      Quotients(Sum(w[..n]), w[n], t);
    }
  }

  lemma NucleusPoints(order: seq<nat>, probs: seq<real>, p: real, m: nat)
    requires Descending(order, probs) && m < |order| && Sum(Masses(order, probs, p)) > 0.0
    requires forall i :: 0 <= i < |order| ==> (Allowed(order, probs, p, order[i]) <==> i <= m)
    requires forall i :: 0 <= i <= m ==> probs[order[i]] > 0.0
    ensures var q := Nucleus(order, probs, p);
            Sum(q) == 1.0 &&
            (forall i :: 0 <= i < |order| ==> (q[order[i]] > 0.0 <==> i <= m)) &&
            (forall i :: 0 <= i <= m ==> q[order[i]] == probs[order[i]] / Sum(Masses(order, probs, p)))
  {
    var w, q := Masses(order, probs, p), Nucleus(order, probs, p);
    var t := Sum(w);
    ScaledSum(w, t, q);
    Quotients(0.0, 0.0, t);
    forall i | 0 <= i < |order|
      ensures q[order[i]] > 0.0 <==> i <= m
      ensures i <= m ==> q[order[i]] == probs[order[i]] / t
    {
      Quotients(0.0, w[order[i]], t);
    }
  }

  /** The most probable token is one with the highest logit. */
  lemma HighestLogitFirst(logits: seq<real>, k: int, exp: real -> Positive, order: seq<nat>)
    requires logits != [] && Increasing(exp)
    requires Included(TopK(logits, k)) && Descending(order, Probabilities(exp, TopK(logits, k)))
    ensures |order| == |logits| && forall t :: 0 <= t < |logits| ==> logits[t] <= logits[order[0]]
  {
    var s := TopK(logits, k);
    var probs := Probabilities(exp, s);
    PermutationIndices(order, |probs|);
    var c :| 0 <= c < |s| && s[c].At?;
    PositiveIffIncluded(exp, s, c);
    PositiveIffIncluded(exp, s, order[0]);
    Reached(order, |probs|, c);
    forall t | 0 <= t < |logits| ensures logits[t] <= logits[order[0]] {
      Reached(order, |probs|, t);
      if logits[t] > logits[order[0]] {
        HigherScoreHigherProbability(exp, s, order[0], t);
      }
    }
  }

  /** Every index occurs in the order. */
  lemma Reached(order: seq<nat>, n: nat, t: nat)
    requires Permutation(order, n) && t < n
    ensures exists i :: 0 <= i < |order| && order[i] == t
  {
    IotaOnce(n, t);
    assert t in multiset(order);
  }

  /** In descending order all kept entries are positive, and so is their mass. */
  lemma KeptPositive(sorted: seq<real>, m: nat)
    requires m < |sorted| && Sum(sorted) == 1.0 && (m > 0 ==> sorted[m] > 0.0)
    requires forall i, j :: 0 <= i <= j < |sorted| ==> sorted[i] >= sorted[j]
    ensures forall i :: 0 <= i <= m ==> sorted[i] > 0.0
  {
    FirstIsPositive(sorted);
  }

  lemma {:induction false} PrefixMass(sorted: seq<real>, m: nat)
    requires m < |sorted| && forall i :: 0 <= i <= m ==> sorted[i] > 0.0
    ensures Sum(sorted[..m + 1]) > 0.0
  {
    assert sorted[..m + 1][..m] == sorted[..m];
    if m > 0 {
      PrefixMass(sorted, m - 1);
    } else {
      assert sorted[..0] == [];
    }
  }

  /** The prefix kept of any probability vector. */
  lemma NucleusPrefix(order: seq<nat>, probs: seq<real>, p: real) returns (m: nat)
    requires probs != [] && Descending(order, probs) && |order| == |probs| && p < 1.0
    requires Sum(probs) == 1.0 && forall t :: 0 <= t < |probs| ==> probs[t] >= 0.0
    ensures var sorted, kept := Along(order, probs), Sum(Masses(order, probs, p));
            m < |order| && kept > 0.0 && p < kept == Sum(sorted[..m + 1]) && (m > 0 ==> Sum(sorted[..m]) <= p) &&
            (forall i :: 0 <= i < |order| ==> (Allowed(order, probs, p, order[i]) <==> i <= m)) &&
            forall i :: 0 <= i <= m ==> probs[order[i]] > 0.0
  {
    var sorted := Along(order, probs);
    SumAlong(order, probs);
    m := KeptIsPrefix(sorted, p);
    KeptPositive(sorted, m);
    PrefixMass(sorted, m);
    KeptMass(order, probs, p, m);
    AllowedAlong(order, probs, p, m);
    forall i | 0 <= i <= m ensures probs[order[i]] > 0.0 {
      assert sorted[i] > 0.0;
    }
  }

  lemma TopKProbabilities(logits: seq<real>, k: int, exp: real -> Positive, order: seq<nat>)
    requires Included(TopK(logits, k)) && Descending(order, Probabilities(exp, TopK(logits, k)))
    ensures var s := TopK(logits, k);
            var probs := Probabilities(exp, s);
            var sorted := Along(order, probs);
            |order| == |logits| && Sum(sorted) == 1.0 && sorted != [] &&
            (forall i :: 0 <= i < |sorted| ==>
                order[i] < |s| && sorted[i] >= 0.0 && (sorted[i] > 0.0 <==> s[order[i]].At?))
  {
    var s := TopK(logits, k);
    var probs := Probabilities(exp, s);
    PermutationIndices(order, |probs|);
    SoftmaxSumsToOne(exp, s);
    SumAlong(order, probs);
    forall i | 0 <= i < |order| ensures var x := probs[order[i]]; x >= 0.0 && (x > 0.0 <==> s[order[i]].At?) {
      PositiveIffIncluded(exp, s, order[i]);
    }
  }

  /** The whole filter: top-k, softmax, then top-p with p < 1, for any descending order of
      the probabilities. The support is the prefix of that order that first exceeds mass p, it
      lies inside the top-k survivors, and the result is a probability distribution on it,
      proportional to the original one. */
  lemma NucleusOfTopK(logits: seq<real>, k: int, p: real, exp: real -> Positive, order: seq<nat>) returns (m: nat)
    requires p < 1.0
    requires Included(TopK(logits, k)) && Descending(order, Probabilities(exp, TopK(logits, k)))
    ensures m < |order| == |logits|
    ensures var s := TopK(logits, k);
            var probs := Probabilities(exp, s);
            var sorted := Along(order, probs);
            var kept := Sum(Masses(order, probs, p));
            kept > 0.0 && p < kept == Sum(sorted[..m + 1]) && (m > 0 ==> Sum(sorted[..m]) <= p) &&
            IsNucleus(s, probs, order, m, kept, Nucleus(order, probs, p))
  {
    var s := TopK(logits, k);
    var probs := Probabilities(exp, s);
    TopKProbabilities(logits, k, exp, order);
    SoftmaxSumsToOne(exp, s);
    forall t | 0 <= t < |probs| ensures probs[t] >= 0.0 {
      PositiveIffIncluded(exp, s, t);
    }
    m := NucleusPrefix(order, probs, p);
    NucleusPoints(order, probs, p, m);
  }

  /** q lives on the first m + 1 tokens of the order, all of them survivors, in proportion to
      their probabilities. */
  ghost predicate IsNucleus(s: seq<Score>, probs: seq<real>, order: seq<nat>, m: nat, kept: real, q: seq<real>) {
    |s| == |probs| == |q| && m < |order| && kept > 0.0 && Sum(q) == 1.0 &&
    (forall i :: 0 <= i < |order| ==> order[i] < |s|) &&
    (forall i :: 0 <= i < |order| ==> (q[order[i]] > 0.0 <==> i <= m)) &&
    (forall i :: 0 <= i <= m ==> s[order[i]].At? && q[order[i]] == probs[order[i]] / kept)
  }

  // ---------------------------------------------------------------- the arrays of sample_token

  /** `keep_mask`: the cumulative comparison, then the boundary entry. */
  method KeepMask(sorted: seq<real>, p: real) returns (keep: array<bool>)
    requires sorted != []
    ensures fresh(keep) && keep.Length == |sorted|
    ensures forall i :: 0 <= i < |sorted| ==> (keep[i] <==> Keep(sorted, p, i))
  {
    keep := new bool[|sorted|];
    var cumulative := 0.0;
    for i := 0 to |sorted|
      invariant cumulative == Sum(sorted[..i])
      invariant forall j :: 0 <= j < i ==> (keep[j] <==> Cumulative(sorted, j) <= p)
    {
      assert sorted[..i + 1][..i] == sorted[..i];
      cumulative := cumulative + sorted[i];
      keep[i] := cumulative <= p;
    }
    var boundary := FirstDropped(keep, sorted, p);
    keep[boundary] := true;
  }

  /** argmax of the negated mask: the first dropped index, or 0 when there is none. */
  method FirstDropped(keep: array<bool>, sorted: seq<real>, p: real) returns (m: nat)
    requires keep.Length == |sorted|
    requires forall j :: 0 <= j < |sorted| ==> (keep[j] <==> Cumulative(sorted, j) <= p)
    ensures m == FirstOver(sorted, p, 0)
  {
    m := 0;
    while m < keep.Length && keep[m]
      invariant m <= keep.Length && FirstOver(sorted, p, m) == FirstOver(sorted, p, 0)
    {
      m := m + 1;
    }
    if m == keep.Length {
      m := 0;
    }
  }

  /** `new_probs[allowed] = probs[allowed]` on zeros. */
  method Scatter(order: seq<nat>, probs: seq<real>, keep: array<bool>, p: real) returns (newProbs: array<real>)
    requires Descending(order, probs) && |order| == keep.Length == |probs|
    requires forall i :: 0 <= i < |order| ==> (keep[i] <==> Keep(Along(order, probs), p, i))
    ensures fresh(newProbs) && newProbs[..] == Masses(order, probs, p)
  {
    newProbs := new real[|probs|](_ => 0.0);
    ghost var n := |probs|;
    for i := 0 to |order|
      invariant forall t: nat :: t < n ==>
        newProbs[t] == if exists j :: 0 <= j < i && order[j] == t && keep[j] then probs[t] else 0.0
    {
      if keep[i] {
        newProbs[order[i]] := probs[order[i]];
      }
    }
    ghost var w := Masses(order, probs, p);
    forall t: nat | t < n ensures newProbs[t] == w[t] {
      if j :| 0 <= j < |order| && order[j] == t && keep[j] {
        assert Allowed(order, probs, p, t);
      }
    }
  }

  /** `new_probs /= new_probs.sum()`. */
  method Renormalise(w: array<real>)
    requires Sum(w[..]) > 0.0
    modifies w
    ensures forall t :: 0 <= t < w.Length ==> w[t] == old(w[t]) / old(Sum(w[..]))
  {
    var total := 0.0;
    for i := 0 to w.Length
      invariant total == Sum(w[..i])
    {
      assert w[..i + 1][..i] == w[..i];
      total := total + w[i];
    }
    assert w[..w.Length] == w[..];
    for i := 0 to w.Length
      invariant forall t :: 0 <= t < w.Length ==> w[t] == if t < i then old(w[t]) / total else old(w[t])
    {
      w[i] := w[i] / total;
    }
  }

  /** The top-p branch on a probability vector, with the order argsort returned. */
  method FilterTopP(probs: seq<real>, order: seq<nat>, p: real) returns (newProbs: array<real>)
    requires probs != [] && Descending(order, probs) && |order| == |probs| && p < 1.0
    requires Sum(probs) == 1.0 && forall t :: 0 <= t < |probs| ==> probs[t] >= 0.0
    ensures Sum(Masses(order, probs, p)) > 0.0 && newProbs[..] == Nucleus(order, probs, p)
  {
    ghost var m := NucleusPrefix(order, probs, p);
    var keep := KeepMask(Along(order, probs), p);
    newProbs := Scatter(order, probs, keep, p);
    Renormalise(newProbs);
  }
}
