/** Exact softmax over a row in which some entries may be excluded (a mask, or minus infinity). */
module Softmax {

  type Positive = x: real | x > 0.0 witness 1.0

  datatype Score = Excluded | At(value: real)

  predicate Included(s: seq<Score>) {
    exists c :: 0 <= c < |s| && s[c].At?
  }

  function Larger(a: Score, b: Score): Score {
    match (a, b)
    case (Excluded, _) => b
    case (_, Excluded) => a
    case (At(x), At(y)) => if x < y then b else a
  }

  function RowMax(s: seq<Score>): Score {
    if s == [] then Excluded else Larger(RowMax(s[..|s|-1]), s[|s|-1])
  }

  function Weight(exp: real -> Positive, s: Score, top: Score): (w: real)
    ensures s.At? && top.At? ==> w > 0.0
    ensures s.Excluded? ==> w == 0.0
    ensures w >= 0.0
  {
    if s.At? && top.At? then exp(s.value - top.value) else 0.0
  }

  function Total(exp: real -> Positive, s: seq<Score>, top: Score): (t: real)
    ensures t >= 0.0
  {
    if s == [] then 0.0 else Total(exp, s[..|s|-1], top) + Weight(exp, s[|s|-1], top)
  }

  lemma {:induction false} TotalPositive(exp: real -> Positive, s: seq<Score>, top: Score)
    requires Included(s) && top.At?
    ensures Total(exp, s, top) > 0.0
  {
    var n := |s| - 1;
    if s[n].Excluded? {
      var c :| 0 <= c < |s| && s[c].At?;
      assert s[..n][c].At?;
      TotalPositive(exp, s[..n], top);
    }
  }

  lemma {:induction false} MaxAt(s: seq<Score>)
    requires Included(s)
    ensures RowMax(s).At?
  {
    var n := |s| - 1;
    if s[n].Excluded? {
      var c :| 0 <= c < |s| && s[c].At?;
      assert s[..n][c].At?;
      MaxAt(s[..n]);
    }
  }

  function Probabilities(exp: real -> Positive, s: seq<Score>): (p: seq<real>)
    requires Included(s)
    ensures |p| == |s|
  {
    MaxAt(s);
    var top := RowMax(s);
    TotalPositive(exp, s, top);
    var t := Total(exp, s, top);
    seq(|s|, c requires 0 <= c < |s| => Weight(exp, s[c], top) / t)
  }

  lemma Quotients(a: real, b: real, t: real)
    requires t > 0.0
    ensures (a + b) / t == a / t + b / t
    ensures a < b ==> a / t < b / t
    ensures t / t == 1.0 && 0.0 / t == 0.0
  {
    var x, y, z := a / t, b / t, (a + b) / t;
    assert x * t == a && y * t == b && z * t == a + b;
    assert (x + y) * t == z * t;
    if a < b {
      assert (y - x) * t > 0.0;
    }
  }

  /** Exactly the included entries have positive probability. */
  lemma PositiveIffIncluded(exp: real -> Positive, s: seq<Score>, c: nat)
    requires Included(s) && c < |s|
    ensures var p := Probabilities(exp, s)[c];
            p >= 0.0 && (p > 0.0 <==> s[c].At?)
  {
    MaxAt(s);
    var top := RowMax(s);
    TotalPositive(exp, s, top);
    Quotients(0.0, Weight(exp, s[c], top), Total(exp, s, top));
  }

  function Sum(v: seq<real>): real {
    if v == [] then 0.0 else Sum(v[..|v|-1]) + v[|v|-1]
  }

  lemma {:induction false} SumOfQuotients(exp: real -> Positive, s: seq<Score>, top: Score, t: real, p: seq<real>)
    requires t > 0.0 && |p| == |s| && forall c :: 0 <= c < |s| ==> p[c] == Weight(exp, s[c], top) / t
    ensures Sum(p) == Total(exp, s, top) / t
  {
    if s != [] {
      var n := |s| - 1;
      SumOfQuotients(exp, s[..n], top, t, p[..n]);
      Quotients(Total(exp, s[..n], top), Weight(exp, s[n], top), t);
    }
  }

  /** The included entries share probability one. */
  lemma SoftmaxSumsToOne(exp: real -> Positive, s: seq<Score>)
    requires Included(s)
    ensures Sum(Probabilities(exp, s)) == 1.0
  {
    MaxAt(s);
    var top := RowMax(s);
    TotalPositive(exp, s, top);
    SumOfQuotients(exp, s, top, Total(exp, s, top), Probabilities(exp, s));
    Quotients(0.0, 0.0, Total(exp, s, top));
  }

  ghost predicate Increasing(exp: real -> Positive) {
    forall x, y :: x < y ==> exp(x) < exp(y)
  }

  /** With an increasing exponential, a higher score has a higher probability. */
  lemma HigherScoreHigherProbability(exp: real -> Positive, s: seq<Score>, a: nat, b: nat)
    requires Included(s) && Increasing(exp) && a < |s| && b < |s|
    requires s[a].At? && s[b].At? && s[a].value < s[b].value
    ensures Probabilities(exp, s)[a] < Probabilities(exp, s)[b]
  {
    MaxAt(s);
    var top := RowMax(s);
    TotalPositive(exp, s, top);
    var t := Total(exp, s, top);
    var u, v := Weight(exp, s[a], top), Weight(exp, s[b], top);
    assert u < v;
    Quotients(u, v, t);
  }

  function Masked(n: nat): seq<Score> {
    seq(n, _ => Excluded)
  }

  function Zeros(n: nat): seq<real> {
    seq(n, _ => 0.0)
  }

  lemma {:induction false} MaskedTailSums(exp: real -> Positive, s: seq<Score>, n: nat, top: Score)
    ensures RowMax(s + Masked(n)) == RowMax(s)
    ensures Total(exp, s + Masked(n), top) == Total(exp, s, top)
  {
    if n == 0 {
      assert s + Masked(0) == s;
    } else {
      var t := s + Masked(n);
      assert t[..|t|-1] == s + Masked(n - 1);
      MaskedTailSums(exp, s, n - 1, top);
    }
  }

  /** Excluded entries on the right get probability zero and change nothing else. */
  lemma SoftmaxIgnoresMaskedTail(exp: real -> Positive, s: seq<Score>, n: nat)
    requires Included(s)
    ensures Included(s + Masked(n))
    ensures Probabilities(exp, s + Masked(n)) == Probabilities(exp, s) + Zeros(n)
  {
    var c :| 0 <= c < |s| && s[c].At?;
    assert (s + Masked(n))[c].At?;
    MaxAt(s);
    var top := RowMax(s);
    MaskedTailSums(exp, s, n, top);
    TotalPositive(exp, s, top);
    var p, q := Probabilities(exp, s + Masked(n)), Probabilities(exp, s) + Zeros(n);
    forall i | 0 <= i < |p| ensures p[i] == q[i] {
      if i < |s| {
        assert (s + Masked(n))[i] == s[i];
      } else {
        assert (s + Masked(n))[i] == Excluded;
      }
    }
  }

  // ---------------------------------------------------------------- what the shifted form computes

  function Both(exp: real -> Positive, x: real, y: real): real { exp(x) * exp(y) }

  ghost predicate Exponential(exp: real -> Positive) {
    forall x, y {:trigger Both(exp, x, y)} :: exp(x + y) == Both(exp, x, y)
  }

  function Term(exp: real -> Positive, s: Score): real {
    if s.At? then exp(s.value) else 0.0
  }

  /** The exponentials of the included scores, unshifted. */
  function Denominator(exp: real -> Positive, s: seq<Score>, n: nat): (t: real)
    requires n <= |s|
    ensures t >= 0.0
  {
    if n == 0 then 0.0 else Denominator(exp, s, n - 1) + Term(exp, s[n - 1])
  }

  lemma DividesBack(w: real, e: real, x: real)
    requires e > 0.0 && w * e == x
    ensures w == x / e
  {
  }

  lemma Unshifted(exp: real -> Positive, s: Score, top: Score, e: real)
    requires Exponential(exp) && top.At? && e == exp(top.value)
    ensures Weight(exp, s, top) == Term(exp, s) / e
  {
    if s.At? {
      assert exp(s.value - top.value + top.value) == Both(exp, s.value - top.value, top.value);
    }
    DividesBack(Weight(exp, s, top), e, Term(exp, s));
  }

  lemma TotalOneMore(exp: real -> Positive, s: seq<Score>, top: Score, n: nat)
    requires 0 < n <= |s|
    ensures Total(exp, s[..n], top) == Total(exp, s[..n - 1], top) + Weight(exp, s[n - 1], top)
  {
    assert s[..n][..n - 1] == s[..n - 1];
  }

  lemma {:induction false} UnshiftedTotal(exp: real -> Positive, s: seq<Score>, top: Score, n: nat, e: real)
    requires Exponential(exp) && top.At? && n <= |s| && e == exp(top.value)
    ensures Total(exp, s[..n], top) == Denominator(exp, s, n) / e
  {
    if n > 0 {
      UnshiftedTotal(exp, s, top, n - 1, e);
      Unshifted(exp, s[n - 1], top, e);
      TotalOneMore(exp, s, top, n);
      Quotients(Denominator(exp, s, n - 1), Term(exp, s[n - 1]), e);
    }
  }

  lemma QuotientOfQuotients(w: real, t: real, x: real, d: real, e: real)
    requires e > 0.0 && t > 0.0 && w == x / e && t == d / e
    ensures d > 0.0 && w / t == x / d
  {
    var q := w / t;
    assert q * t == w && w * e == x && t * e == d;
    assert q * (t * e) == (q * t) * e;
  }

  /** An included entry's probability is its own exponential over the sum of all included ones. */
  lemma SoftmaxIsExponentials(exp: real -> Positive, s: seq<Score>, c: nat)
    requires Included(s) && Exponential(exp) && c < |s|
    ensures Denominator(exp, s, |s|) > 0.0
    ensures Probabilities(exp, s)[c] == Term(exp, s[c]) / Denominator(exp, s, |s|)
  {
    MaxAt(s);
    var top := RowMax(s);
    var e := exp(top.value);
    TotalPositive(exp, s, top);
    UnshiftedTotal(exp, s, top, |s|, e);
    assert s[..|s|] == s;
    Unshifted(exp, s[c], top, e);
    QuotientOfQuotients(Weight(exp, s[c], top), Total(exp, s, top), Term(exp, s[c]), Denominator(exp, s, |s|), e);
  }

  /** The shift is by a largest included score, so no exponent is positive. */
  lemma {:induction false} MaxIsLargest(s: seq<Score>, c: nat)
    requires c < |s| && s[c].At?
    ensures RowMax(s).At? && s[c].value <= RowMax(s).value
    ensures RowMax(s) in s
    decreases |s|
  {
    var n := |s| - 1;
    if c < n {
      MaxIsLargest(s[..n], c);
      assert RowMax(s[..n]) in s[..n];
    } else if RowMax(s[..n]).At? {
      MaxInside(s[..n]);
    }
  }

  lemma {:induction false} MaxInside(s: seq<Score>)
    requires RowMax(s).At?
    ensures RowMax(s) in s
  {
    var n := |s| - 1;
    if RowMax(s) != s[n] {
      MaxInside(s[..n]);
    }
  }
}
