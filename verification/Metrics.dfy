/** The latency histogram and the nearest-rank quantile, over exact reals. */
module Metrics {
  import opened Order
  import Arith

  const BOUNDS: seq<real> := [0.005, 0.01, 0.025, 0.05, 0.1, 0.25, 0.5, 1.0, 2.5, 5.0, 10.0]
  const MAX_SAMPLES: nat := 100000
  const KEPT_SAMPLES: nat := 50000

  // ---------------------------------------------------------------- what the counters mean

  /** How many samples bucket i should hold: those at most bound i, the last bucket all. */
  ghost function InBucket(history: seq<real>, i: nat): nat
    requires i <= |BOUNDS|
  {
    if i == |BOUNDS| then |history| else Count(history, AtMost(BOUNDS[i]))
  }

  ghost predicate IsRecent(samples: seq<real>, history: seq<real>) {
    |samples| <= |history| && history[|history| - |samples|..] == samples &&
    |samples| <= MAX_SAMPLES && (|samples| >= |history| || |samples| >= KEPT_SAMPLES)
  }

  lemma CountStep(history: seq<real>, x: real, p: real -> bool)
    ensures Count(history + [x], p) == Count(history, p) + if p(x) then 1 else 0
  {
    CountConcat(history, [x], p);
  }

  /** The counters are cumulative: they never decrease from one bucket to the next. */
  lemma BucketsAreCumulative(history: seq<real>, i: nat, j: nat)
    requires i <= j <= |BOUNDS|
    ensures InBucket(history, i) <= InBucket(history, j)
  {
    if j < |BOUNDS| {
      assert BOUNDS[i] <= BOUNDS[j];
      CountMonotone(history, AtMost(BOUNDS[i]), AtMost(BOUNDS[j]));
    }
  }

  lemma RecentStep(samples: seq<real>, history: seq<real>, x: real)
    requires IsRecent(samples, history)
    ensures var all := samples + [x];
            IsRecent(if |all| > MAX_SAMPLES then all[|all| - KEPT_SAMPLES..] else all, history + [x])
  {
    var all, h := samples + [x], history + [x];
    assert h[|h| - |all|..] == all;
    if |all| > MAX_SAMPLES {
      assert h[|h| - KEPT_SAMPLES..] == all[|all| - KEPT_SAMPLES..];
    }
  }

  // ---------------------------------------------------------------- quantiles

  function Ceiling(x: real): (n: int)
    ensures n as real - 1.0 < x <= n as real
  {
    -((-x).Floor)
  }

  lemma CeilingIsMonotone(x: real, y: real)
    requires x <= y
    ensures Ceiling(x) <= Ceiling(y)
  {
    assert (Ceiling(x) - 1) as real == Ceiling(x) as real - 1.0 < x <= y <= Ceiling(y) as real;
  }

  /** How many of n samples the quantile must reach: ceil(q * n), kept within 1..n. */
  function Needed(q: real, n: nat): (need: nat)
    requires n > 0
    ensures 1 <= need <= n
  {
    var c := Ceiling(q * n as real);
    if c < 1 then 1 else if c > n then n else c
  }

  /** At least `need` samples are at most v, and fewer than `need` are below it. */
  ghost predicate IsRanked(samples: seq<real>, need: nat, v: real) {
    Count(samples, AtMost(v)) >= need && Count(samples, Below(v)) < need
  }

  /** Ranks order values, so the value of a rank is unique. */
  lemma RankedInOrder(samples: seq<real>, need: nat, need': nat, v: real, v': real)
    requires need <= need' && IsRanked(samples, need, v) && IsRanked(samples, need', v')
    ensures v <= v'
  {
    if v' < v {
      CountMonotone(samples, AtMost(v'), Below(v));
    }
  }

  lemma NeededForProperQuantile(q: real, n: nat)
    requires n > 0 && 0.0 < q <= 1.0
    ensures Needed(q, n) == Ceiling(q * n as real)
    ensures q * n as real <= Needed(q, n) as real < q * n as real + 1.0
  {
    var w := n as real;
    Arith.ScaleReal(0.0, q, w);
    Arith.ScaleReal(q, 1.0, w);
    assert 0.0 * w == 0.0 && 1.0 * w == w;
  }

  lemma NeededIsMonotone(q: real, q': real, n: nat)
    requires n > 0 && q <= q'
    ensures Needed(q, n) <= Needed(q', n)
  {
    Arith.ScaleReal(q, q', n as real);
    CeilingIsMonotone(q * n as real, q' * n as real);
  }

  /** Over the same samples a higher quantile is never smaller, and equal ones agree. */
  lemma QuantilesAreMonotone(samples: seq<real>, q: real, q': real, v: real, v': real)
    requires samples != [] && q <= q'
    requires IsRanked(samples, Needed(q, |samples|), v) && IsRanked(samples, Needed(q', |samples|), v')
    ensures v <= v'
    ensures q == q' ==> v == v'
  {
    NeededIsMonotone(q, q', |samples|);
    RankedInOrder(samples, Needed(q, |samples|), Needed(q', |samples|), v, v');
    if q == q' {
      RankedInOrder(samples, Needed(q', |samples|), Needed(q, |samples|), v', v);
    }
  }

  // ---------------------------------------------------------------- the collector

  class MetricsCollector {
    var latencySamples: seq<real>
    const bucketCounts: array<nat>
    var latencySum: real
    ghost var history: seq<real>

    /** Bucket i counts the samples at most bound i, the last one all; the kept samples are a
        suffix of the history, at most MAX_SAMPLES and at least the last KEPT_SAMPLES. */
    ghost predicate Valid()
      reads this, bucketCounts
    {
      bucketCounts.Length == |BOUNDS| + 1 &&
      (forall i :: 0 <= i <= |BOUNDS| ==> bucketCounts[i] == InBucket(history, i)) &&
      IsRecent(latencySamples, history)
    }

    constructor ()
      ensures Valid() && fresh(bucketCounts) && history == []
    {
      latencySamples, latencySum, history := [], 0.0, [];
      bucketCounts := new nat[|BOUNDS| + 1](_ => 0);
    }

    /** The first bucket whose bound the sample does not exceed, or the overflow bucket. */
    static method FirstBucket(seconds: real) returns (bucket: nat)
      ensures bucket <= |BOUNDS|
      ensures forall i :: 0 <= i < |BOUNDS| ==> (bucket <= i <==> seconds <= BOUNDS[i])
    {
      bucket := |BOUNDS|;
      for idx := 0 to |BOUNDS|
        invariant bucket == |BOUNDS|
        invariant forall i :: 0 <= i < idx ==> seconds > BOUNDS[i]
      {
        if seconds <= BOUNDS[idx] {
          bucket := idx;
          break;
        }
      }
    }

    method RecordLatency(seconds: real)
      requires Valid()
      modifies this, bucketCounts
      ensures Valid() && history == old(history) + [seconds] && latencySum == old(latencySum) + seconds
    {
      RecentStep(latencySamples, history, seconds);
      latencySum := latencySum + seconds;
      latencySamples := latencySamples + [seconds];
      if |latencySamples| > MAX_SAMPLES {
        latencySamples := latencySamples[|latencySamples| - KEPT_SAMPLES..];
      }
      var bucket := FirstBucket(seconds);
      for i := bucket to |BOUNDS| + 1
        modifies bucketCounts
        invariant forall k :: 0 <= k <= |BOUNDS| ==>
          bucketCounts[k] == old(bucketCounts[k]) + if bucket <= k < i then 1 else 0
      {
        bucketCounts[i] := bucketCounts[i] + 1;
      }
      history := history + [seconds];
      forall i | 0 <= i < |BOUNDS| ensures bucketCounts[i] == InBucket(history, i) {
        CountStep(old(history), seconds, AtMost(BOUNDS[i]));
      }
    }

    static method NearestRank(q: real, n: nat) returns (rank: nat)
      requires n > 0
      ensures rank + 1 == Needed(q, n)
    {
      var nearest := Ceiling(q * n as real) - 1;
      var capped := if nearest < n - 1 then nearest else n - 1;
      rank := if capped > 0 then capped else 0;
    }

    /** The nearest-rank quantile of the kept samples: the smallest value that at least
        Needed(q) of them do not exceed; 0 when there are none. */
    method LatencyQuantile(q: real) returns (v: real)
      ensures latencySamples == [] ==> v == 0.0
      ensures latencySamples != [] ==> IsRanked(latencySamples, Needed(q, |latencySamples|), v)
    {
      if latencySamples == [] {
        return 0.0;
      }
      var rank := NearestRank(q, |latencySamples|);
      v := Sort(latencySamples)[rank];
      RankCounts(latencySamples, rank);
      assert v == Ranked(latencySamples, rank);
    }
  }
}
