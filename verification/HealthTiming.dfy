/** When the health monitor declares a node dead, over runs of the membership state machine. */
module HealthTiming {
  import opened Cluster
  import Arith

  /** Only its own records and departures, and its death, change what is known about a node. */
  lemma StepOf(cfg: Config, s: State, e: Event, id: string)
    ensures var t := Step(cfg, s, e);
            !Clears(e, id) ==>
              (id in t.lastSeen <==> id in s.lastSeen) && (id in s.lastSeen ==> t.lastSeen[id] == s.lastSeen[id]) &&
              (id in t.dead <==> id in s.dead || (e.Check? && e.id == id && Dies(cfg, s, id, e.now)))
    ensures Records(e, id) ==>
        id in Step(cfg, s, e).lastSeen && Step(cfg, s, e).lastSeen[id] == e.now && id !in Step(cfg, s, e).dead
  {
  }

  /** A check of the node that finds it silent for longer than the timeout. */
  predicate Overdue(cfg: Config, e: Event, id: string, last: real) {
    e.Check? && e.id == id && e.now - last > cfg.timeout
  }

  ghost predicate Late(cfg: Config, es: seq<Event>, id: string, last: real) {
    exists i :: 0 <= i < |es| && Overdue(cfg, es[i], id, last)
  }

  lemma LateSnoc(cfg: Config, es: seq<Event>, id: string, last: real)
    requires es != []
    ensures Late(cfg, es, id, last) <==> Late(cfg, es[..|es|-1], id, last) || Overdue(cfg, es[|es|-1], id, last)
  {
    var before := es[..|es|-1];
    if i :| 0 <= i < |before| && Overdue(cfg, before[i], id, last) {
      assert Overdue(cfg, es[i], id, last);
    }
    if i :| 0 <= i < |es| && Overdue(cfg, es[i], id, last) {
      assert i == |es| - 1 || Overdue(cfg, before[i], id, last);
    }
  }

  ghost predicate Silent(s: State, id: string, last: real, dead: bool) {
    id in s.lastSeen && s.lastSeen[id] == last && (id in s.dead <==> dead)
  }

  lemma SilentStep(cfg: Config, s: State, e: Event, id: string, last: real, dead: bool)
    requires Silent(s, id, last, dead) && !Clears(e, id)
    ensures Silent(Step(cfg, s, e), id, last, dead || Overdue(cfg, e, id, last))
  {
    StepOf(cfg, s, e, id);
  }

  /** A silent node is dead after a run exactly when some check found it silent for longer than
      the timeout; whatever else happened in the cluster does not matter. */
  lemma {:induction false} SilentNodeFate(cfg: Config, s: State, es: seq<Event>, id: string)
    requires id in s.lastSeen && id !in s.dead
    requires forall i :: 0 <= i < |es| ==> !Clears(es[i], id)
    ensures Silent(Run(cfg, s, es), id, s.lastSeen[id], Late(cfg, es, id, s.lastSeen[id]))
  {
    if es != [] {
      var before, last := es[..|es|-1], s.lastSeen[id];
      SilentNodeFate(cfg, s, before, id);
      SilentStep(cfg, Run(cfg, s, before), es[|es|-1], id, last, Late(cfg, before, id, last));
      LateSnoc(cfg, es, id, last);
    }
  }

  /** The time of tick k of a monitor started at t0. */
  function TickTime(t0: real, interval: real, k: nat): real {
    t0 + k as real * interval
  }

  /** The least multiple of c above a. */
  lemma NextMultiple(a: real, c: real) returns (k: nat)
    requires c > 0.0 && a >= -c
    ensures a < k as real * c <= a + c
  {
    var x := a / c;
    assert x * c == a;
    k := if x < 0.0 then 0 else x.Floor + 1;
    Arith.ScaleReal(x, k as real, c);
    if k == 0 {
      assert 0.0 * c == 0.0;
    } else {
      Arith.ScaleReal(k as real - 1.0, x, c);
      assert (k as real - 1.0) * c == k as real * c - c;
    }
  }

  /** With on-time ticks some tick falls into the detection window of a silent node. */
  lemma SomeTickInWindow(t0: real, interval: real, deadline: real) returns (k: nat)
    requires interval > 0.0 && t0 <= deadline + interval
    ensures deadline < TickTime(t0, interval, k) <= deadline + interval
  {
    k := NextMultiple(deadline - t0, interval);
  }

  /** Detection: on-time ticks declare a silent node within (timeout, timeout + interval] of
      its last record: not by any run of checks up to the deadline, and by every run that
      contains the tick in the window. */
  lemma DetectionWindow(cfg: Config, s: State, id: string, t0: real, interval: real) returns (k: nat)
    requires id in s.lastSeen && id !in s.dead && interval > 0.0
    requires t0 <= s.lastSeen[id] + cfg.timeout + interval
    ensures var t := TickTime(t0, interval, k);
            cfg.timeout < t - s.lastSeen[id] <= cfg.timeout + interval &&
            forall es: seq<Event> :: (forall i :: 0 <= i < |es| ==> !Clears(es[i], id)) ==>
              (Check(id, t) in es ==> id in Run(cfg, s, es).dead) &&
              ((forall i :: 0 <= i < |es| ==> es[i].now <= s.lastSeen[id] + cfg.timeout) ==>
                  id !in Run(cfg, s, es).dead)
  {
    var last := s.lastSeen[id];
    k := SomeTickInWindow(t0, interval, last + cfg.timeout);
    var t := TickTime(t0, interval, k);
    forall es: seq<Event> | forall i :: 0 <= i < |es| ==> !Clears(es[i], id)
      ensures Check(id, t) in es ==> id in Run(cfg, s, es).dead
      ensures (forall i :: 0 <= i < |es| ==> es[i].now <= last + cfg.timeout) ==> id !in Run(cfg, s, es).dead
    {
      SilentNodeFate(cfg, s, es, id);
      if Check(id, t) in es {
        var i :| 0 <= i < |es| && es[i] == Check(id, t);
        assert Overdue(cfg, es[i], id, last);
      }
    }
  }

  function RealMin(a: real, b: real): real { if a < b then a else b }
  function RealMax(a: real, b: real): real { if a < b then b else a }

  const DEFAULT_CHECK_INTERVAL := 5.0

  function CheckInterval(timeout: real): real {
    RealMin(DEFAULT_CHECK_INTERVAL, RealMax(0.02, timeout / 3.0))
  }

  /** A third of the timeout, but no less than 0.02 and no more than the default 5 seconds, which
      holds from a timeout of 15 seconds on. */
  lemma IntervalBounds(timeout: real)
    ensures 0.02 <= CheckInterval(timeout) <= 5.0
    ensures 0.06 <= timeout <= 15.0 ==> CheckInterval(timeout) == timeout / 3.0
    ensures timeout >= 15.0 ==> CheckInterval(timeout) == 5.0
    ensures timeout <= 0.06 ==> CheckInterval(timeout) == 0.02
  {
  }

  /** The interval is at most a third of the timeout, so detection takes at most 4/3 of it,
      exactly for timeouts of at least 0.06 seconds. */
  lemma IntervalIsAThird(timeout: real)
    ensures CheckInterval(timeout) > 0.0
    ensures timeout + CheckInterval(timeout) <= timeout * 4.0 / 3.0 <==> timeout >= 0.06
  {
  }

  /** The monitor's own interval: a silent node is declared within 4/3 of the timeout of its last
      record, for timeouts of at least 0.06 seconds. */
  lemma DetectedWithinFourThirds(cfg: Config, s: State, id: string, t0: real) returns (k: nat)
    requires id in s.lastSeen && id !in s.dead && cfg.timeout >= 0.06
    requires t0 <= s.lastSeen[id] + cfg.timeout + CheckInterval(cfg.timeout)
    ensures var t := TickTime(t0, CheckInterval(cfg.timeout), k);
            cfg.timeout < t - s.lastSeen[id] <= cfg.timeout * 4.0 / 3.0 &&
            forall es: seq<Event> :: (forall i :: 0 <= i < |es| ==> !Clears(es[i], id)) && Check(id, t) in es ==>
              id in Run(cfg, s, es).dead
  {
    IntervalIsAThird(cfg.timeout);
    k := DetectionWindow(cfg, s, id, t0, CheckInterval(cfg.timeout));
  }

  /** For shorter timeouts the interval's lower bound of 0.02 shows: the tick that detects can
      come later than 4/3 of the timeout. */
  lemma FourThirdsIff(timeout: real, last: real)
    ensures (forall t0: real, k: nat ::
               last + timeout < TickTime(t0, CheckInterval(timeout), k) <= last + timeout + CheckInterval(timeout) ==>
                 TickTime(t0, CheckInterval(timeout), k) - last <= timeout * 4.0 / 3.0) <==> timeout >= 0.06
  {
    IntervalIsAThird(timeout);
    var interval := CheckInterval(timeout);
    var latest := last + timeout + interval;
    assert TickTime(latest, interval, 0) == latest;
    if timeout >= 0.06 {
      forall t0: real, k: nat | last + timeout < TickTime(t0, interval, k) <= latest
        ensures TickTime(t0, interval, k) - last <= timeout * 4.0 / 3.0
      {
        assert latest - last <= timeout * 4.0 / 3.0;
      }
    }
  }

  /** When the node was last recorded, after a run. */
  function LastRecord(cfg: Config, s: State, es: seq<Event>, id: string): real {
    var t := Run(cfg, s, es);
    if id in t.lastSeen then t.lastSeen[id] else 0.0
  }

  /** A node whose records are never more than the timeout apart, the run's horizon included,
      is never declared dead. */
  lemma {:induction false} PromptNodeSurvives(cfg: Config, s: State, es: seq<Event>, id: string, horizon: real)
    requires id in s.lastSeen && id !in s.dead
    requires forall i :: 0 <= i < |es| ==> es[i].now <= horizon && !(es[i].Leave? && es[i].id == id)
    requires forall i, j :: 0 <= i < j < |es| ==> es[i].now <= es[j].now
    requires forall i :: 0 <= i < |es| && Records(es[i], id) ==>
               es[i].now - LastRecord(cfg, s, es[..i], id) <= cfg.timeout
    requires horizon - LastRecord(cfg, s, es, id) <= cfg.timeout
    ensures id in Run(cfg, s, es).lastSeen && id !in Run(cfg, s, es).dead
  {
    if es != [] {
      var n := |es| - 1;
      var before, e := es[..n], es[n];
      forall i | 0 <= i < |before| && Records(before[i], id)
        ensures before[i].now - LastRecord(cfg, s, before[..i], id) <= cfg.timeout
      {
        assert before[i] == es[i] && before[..i] == es[..i];
      }
      KeptSeen(cfg, s, before, id);
      StepOf(cfg, Run(cfg, s, before), e, id);
      if Records(e, id) {
        PromptNodeSurvives(cfg, s, before, id, e.now);
      } else {
        assert LastRecord(cfg, s, es, id) == LastRecord(cfg, s, before, id);
        PromptNodeSurvives(cfg, s, before, id, horizon);
      }
    }
  }

  lemma {:induction false} KeptSeen(cfg: Config, s: State, es: seq<Event>, id: string)
    requires id in s.lastSeen && forall i :: 0 <= i < |es| ==> !(es[i].Leave? && es[i].id == id)
    ensures id in Run(cfg, s, es).lastSeen
  {
    if es != [] {
      KeptSeen(cfg, s, es[..|es|-1], id);
      StepOf(cfg, Run(cfg, s, es[..|es|-1]), es[|es|-1], id);
    }
  }
}
