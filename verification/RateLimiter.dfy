/** The fixed-window rate limiter, with the clock reading of each call as a parameter. */
module RateLimiter {

  /** client -> (window start, cost admitted in that window). */
  type Buckets = map<string, (real, int)>

  datatype Config = Config(limit: nat, window: real)

  function Bucket(b: Buckets, id: string, now: real): (real, int) {
    if id in b then b[id] else (now, 0)
  }

  /** The bucket a call sees: an expired window restarts now. */
  function Effective(cfg: Config, b: Buckets, id: string, now: real): (real, int) {
    var (start, count) := Bucket(b, id, now);
    if now - start >= cfg.window then (now, 0) else (start, count)
  }

  function AllowStep(cfg: Config, b: Buckets, id: string, cost: int, now: real): (r: (bool, Buckets)) {
    if cfg.limit == 0 then (true, b) else
      var (start, count) := Effective(cfg, b, id, now);
      if count + cost <= cfg.limit then (true, b[id := (start, count + cost)]) else (false, b)
  }

  function Cleanup(b: Buckets, maxAge: real, now: real): Buckets {
    map id | id in b && !(now - b[id].0 > maxAge) :: b[id]
  }

  class Limiter {
    const cfg: Config
    var buckets: Buckets

    /** A negative limit counts as 0, which disables limiting. */
    constructor (limit: int, window: real)
      ensures cfg == Config(if limit < 0 then 0 else limit, window) && buckets == map[]
    {
      cfg := Config(if limit < 0 then 0 else limit, window);
      buckets := map[];
    }

    method Allow(id: string, cost: int, now: real) returns (ok: bool)
      modifies `buckets
      ensures (ok, buckets) == AllowStep(cfg, old(buckets), id, cost, now)
    {
      if cfg.limit == 0 {
        return true;
      }
      var (start, count) := if id in buckets then buckets[id] else (now, 0);
      if now - start >= cfg.window {
        start, count := now, 0;
      }
      ok := count + cost <= cfg.limit;
      if ok {
        buckets := buckets[id := (start, count + cost)];
      }
    }

    /** Drops the older buckets and counts them. */
    method CleanupOld(maxAge: real, now: real) returns (removed: nat)
      modifies `buckets
      ensures buckets == Cleanup(old(buckets), maxAge, now)
      ensures forall id :: id in buckets <==> id in old(buckets) && now - old(buckets)[id].0 <= maxAge
      ensures forall id | id in buckets :: buckets[id] == old(buckets)[id]
      ensures removed == |old(buckets)| - |buckets|
    {
      var before := buckets;
      buckets := map id | id in buckets && !(now - buckets[id].0 > maxAge) :: buckets[id];
      assert buckets.Keys <= before.Keys;
      Subset(buckets.Keys, before.Keys);
      removed := |before| - |buckets|;
    }
  }

  lemma {:induction false} Subset(a: set<string>, b: set<string>)
    requires a <= b
    ensures |a| <= |b|
  {
    if a != {} {
      var x :| x in a;
      Subset(a - {x}, b - {x});
    }
  }

  // ---------------------------------------------------------------- what is admitted

  datatype Call = Call(id: string, cost: int, now: real)

  /** A window of one client: its start, and the admitted (time, cost) pairs. */
  datatype Window = Window(start: real, admitted: seq<(real, int)>)

  function Cost(admitted: seq<(real, int)>): int {
    if admitted == [] then 0 else Cost(admitted[..|admitted|-1]) + admitted[|admitted|-1].1
  }

  /** One more admission: in the last window while it lasts, else in a new one. */
  function Extend(cfg: Config, ws: seq<Window>, now: real, cost: int): (r: seq<Window>)
    ensures r != []
  {
    if ws != [] && now - ws[|ws|-1].start < cfg.window then
      ws[|ws|-1 := Window(ws[|ws|-1].start, ws[|ws|-1].admitted + [(now, cost)])]
    else ws + [Window(now, [(now, cost)])]
  }

  /** Admissions of one client so far, grouped by limiter window. */
  function Windows(cfg: Config, calls: seq<Call>, id: string): seq<Window>
    decreases |calls|
  {
    if calls == [] then [] else
      var before, c := calls[..|calls|-1], calls[|calls|-1];
      var ws := Windows(cfg, before, id);
      if c.id != id || !Answer(cfg, calls) then ws else Extend(cfg, ws, c.now, c.cost)
  }

  function Run(cfg: Config, calls: seq<Call>): Buckets
    decreases |calls|, 0
  {
    if calls == [] then map[] else
      var c := calls[|calls|-1];
      AllowStep(cfg, Run(cfg, calls[..|calls|-1]), c.id, c.cost, c.now).1
  }

  /** The answer to the last call. */
  predicate Answer(cfg: Config, calls: seq<Call>)
    requires calls != []
    decreases |calls|, 1
  {
    var c := calls[|calls|-1];
    AllowStep(cfg, Run(cfg, calls[..|calls|-1]), c.id, c.cost, c.now).0
  }

  ghost predicate Clocked(calls: seq<Call>) {
    forall i, j :: 0 <= i < j < |calls| ==> calls[i].now <= calls[j].now
  }

  ghost predicate WindowOk(cfg: Config, w: Window) {
    Cost(w.admitted) <= cfg.limit &&
    forall k :: 0 <= k < |w.admitted| ==> w.start <= w.admitted[k].0 < w.start + cfg.window
  }

  /** Windows hold at most the limit each, and starts are at least one window apart. */
  ghost predicate Spaced(cfg: Config, ws: seq<Window>) {
    (forall i :: 0 <= i < |ws| ==> WindowOk(cfg, ws[i])) &&
    (forall i, j :: 0 <= i < j < |ws| ==> ws[j].start >= ws[i].start + cfg.window)
  }

  /** The bucket is the last window: same start, same cost. */
  ghost predicate Mirrors(b: Buckets, id: string, ws: seq<Window>) {
    if ws == [] then id !in b
    else id in b && b[id] == (ws[|ws|-1].start, Cost(ws[|ws|-1].admitted))
  }

  lemma OneMoreAdmitted(cfg: Config, w: Window, now: real, cost: int)
    requires WindowOk(cfg, w) && Cost(w.admitted) + cost <= cfg.limit && w.start <= now < w.start + cfg.window
    ensures var v := Window(w.start, w.admitted + [(now, cost)]);
            WindowOk(cfg, v) && Cost(v.admitted) == Cost(w.admitted) + cost
  {
    var v := w.admitted + [(now, cost)];
    assert v[..|v|-1] == w.admitted;
  }

  lemma SpacedReplace(cfg: Config, ws: seq<Window>, w: Window)
    requires Spaced(cfg, ws) && ws != [] && WindowOk(cfg, w) && w.start == ws[|ws|-1].start
    ensures Spaced(cfg, ws[|ws|-1 := w])
  {
    var all := ws[|ws|-1 := w];
    assert forall i :: 0 <= i < |all| ==> all[i].start == ws[i].start;
  }

  lemma SpacedAppend(cfg: Config, ws: seq<Window>, w: Window)
    requires Spaced(cfg, ws) && WindowOk(cfg, w) && cfg.window > 0.0
    requires ws != [] ==> ws[|ws|-1].start + cfg.window <= w.start
    ensures Spaced(cfg, ws + [w])
  {
    forall i | 0 <= i < |ws| ensures ws[i].start + cfg.window <= w.start {
      if i < |ws| - 1 {
        assert ws[i].start + cfg.window <= ws[|ws|-1].start;
      }
    }
  }

  ghost predicate StartedBy(ws: seq<Window>, now: real) {
    forall i :: 0 <= i < |ws| ==> ws[i].start <= now
  }

  lemma SameWindow(cfg: Config, ws: seq<Window>, cost: int, now: real)
    requires Spaced(cfg, ws) && ws != [] && StartedBy(ws, now) && now < ws[|ws|-1].start + cfg.window
    requires Cost(ws[|ws|-1].admitted) + cost <= cfg.limit
    ensures var all := Extend(cfg, ws, now, cost);
            Spaced(cfg, all) && StartedBy(all, now) && |all| == |ws| &&
            all[|all|-1].start == ws[|ws|-1].start && Cost(all[|all|-1].admitted) == Cost(ws[|ws|-1].admitted) + cost
  {
    var w := ws[|ws|-1];
    OneMoreAdmitted(cfg, w, now, cost);
    SpacedReplace(cfg, ws, Window(w.start, w.admitted + [(now, cost)]));
  }

  lemma FirstAdmission(cfg: Config, cost: int, now: real)
    requires cfg.window > 0.0 && cost <= cfg.limit
    ensures WindowOk(cfg, Window(now, [(now, cost)])) && Cost([(now, cost)]) == cost
  {
    var one := [(now, cost)];
    assert one[..0] == [] && Cost(one[..0]) == 0;
  }

  lemma NewWindow(cfg: Config, ws: seq<Window>, cost: int, now: real)
    requires cfg.window > 0.0 && Spaced(cfg, ws) && StartedBy(ws, now) && cost <= cfg.limit
    requires ws != [] ==> now >= ws[|ws|-1].start + cfg.window
    ensures Extend(cfg, ws, now, cost) == ws + [Window(now, [(now, cost)])]
    ensures Spaced(cfg, Extend(cfg, ws, now, cost)) && StartedBy(Extend(cfg, ws, now, cost), now)
  {
    FirstAdmission(cfg, cost, now);
    SpacedAppend(cfg, ws, Window(now, [(now, cost)]));
  }

  lemma AdmissionKeepsSpacing(cfg: Config, b: Buckets, ws: seq<Window>, id: string, cost: int, now: real)
    requires cfg.limit > 0 && cfg.window > 0.0 && Spaced(cfg, ws) && Mirrors(b, id, ws)
    requires StartedBy(ws, now)
    requires AllowStep(cfg, b, id, cost, now).0
    ensures var all := Extend(cfg, ws, now, cost);
            Spaced(cfg, all) && Mirrors(AllowStep(cfg, b, id, cost, now).1, id, all) && StartedBy(all, now)
  {
    if ws != [] && now - ws[|ws|-1].start < cfg.window {
      SameWindow(cfg, ws, cost, now);
    } else {
      NewWindow(cfg, ws, cost, now);
      FirstAdmission(cfg, cost, now);
    }
  }

  /** Each limiter window admits at most the limit. */
  lemma {:induction false} WindowsHoldTheLimit(cfg: Config, calls: seq<Call>, id: string)
    requires cfg.limit > 0 && cfg.window > 0.0 && Clocked(calls)
    ensures var ws := Windows(cfg, calls, id);
            Spaced(cfg, ws) && Mirrors(Run(cfg, calls), id, ws) &&
            (calls != [] ==> StartedBy(ws, calls[|calls|-1].now))
    decreases |calls|
  {
    if calls != [] {
      var before, c := calls[..|calls|-1], calls[|calls|-1];
      WindowsHoldTheLimit(cfg, before, id);
      if before != [] {
        assert before[|before|-1] == calls[|before|-1];
      }
      if c.id == id && Answer(cfg, calls) {
        AdmissionKeepsSpacing(cfg, Run(cfg, before), Windows(cfg, before, id), id, c.cost, c.now);
      }
    }
  }

  /** What the client has already been admitted in the window the clock reading falls in. */
  function UsedBy(cfg: Config, ws: seq<Window>, now: real): int {
    if ws != [] && now < ws[|ws|-1].start + cfg.window then Cost(ws[|ws|-1].admitted) else 0
  }

  /** A call is admitted exactly when its cost still fits into the window the clock reading falls in. */
  lemma AdmittedIff(cfg: Config, calls: seq<Call>)
    requires cfg.limit > 0 && cfg.window > 0.0 && Clocked(calls) && calls != []
    ensures var c := calls[|calls|-1];
            Answer(cfg, calls) <==>
              UsedBy(cfg, Windows(cfg, calls[..|calls|-1], c.id), c.now) + c.cost <= cfg.limit
  {
    var before, c := calls[..|calls|-1], calls[|calls|-1];
    WindowsHoldTheLimit(cfg, before, c.id);
  }

  /** Without a limit every call is admitted and no bucket is kept. */
  lemma {:induction false} UnlimitedAdmitsAll(cfg: Config, calls: seq<Call>)
    requires cfg.limit == 0
    ensures Run(cfg, calls) == map[]
    ensures calls != [] ==> Answer(cfg, calls)
  {
    if calls != [] {
      UnlimitedAdmitsAll(cfg, calls[..|calls|-1]);
    }
  }

  function CallsOf(calls: seq<Call>, id: string): seq<Call> {
    if calls == [] then [] else
      CallsOf(calls[..|calls|-1], id) + if calls[|calls|-1].id == id then [calls[|calls|-1]] else []
  }

  ghost predicate SameFor(b: Buckets, c: Buckets, id: string) {
    (id in b <==> id in c) && (id in b ==> b[id] == c[id])
  }

  lemma StepIsLocal(cfg: Config, b: Buckets, c: Buckets, id: string, call: Call)
    requires SameFor(b, c, id)
    ensures call.id != id ==> SameFor(AllowStep(cfg, b, call.id, call.cost, call.now).1, c, id)
    ensures call.id == id ==>
              var x, y := AllowStep(cfg, b, id, call.cost, call.now), AllowStep(cfg, c, id, call.cost, call.now);
              x.0 == y.0 && SameFor(x.1, y.1, id)
  {
  }

  /** The calls of other clients change neither a client's bucket nor its answers. */
  lemma {:induction false} ClientsAreIndependent(cfg: Config, calls: seq<Call>, id: string)
    ensures SameFor(Run(cfg, calls), Run(cfg, CallsOf(calls, id)), id)
    ensures calls != [] && calls[|calls|-1].id == id ==>
              CallsOf(calls, id) != [] && Answer(cfg, calls) == Answer(cfg, CallsOf(calls, id))
    decreases |calls|
  {
    if calls != [] {
      var before, c := calls[..|calls|-1], calls[|calls|-1];
      var own := CallsOf(before, id);
      ClientsAreIndependent(cfg, before, id);
      StepIsLocal(cfg, Run(cfg, before), Run(cfg, own), id, c);
      if c.id == id {
        var all := own + [c];
        assert all[..|all|-1] == own && all[|all|-1] == c;
      } else {
        assert own + [] == own;
      }
    }
  }

  /** Admitted cost with a timestamp in [a, a + length). */
  function CostIn(admitted: seq<(real, int)>, a: real, length: real): int {
    if admitted == [] then 0 else
      var (t, cost) := admitted[|admitted|-1];
      CostIn(admitted[..|admitted|-1], a, length) + if a <= t < a + length then cost else 0
  }

  function TotalIn(ws: seq<Window>, a: real, length: real): int {
    if ws == [] then 0 else TotalIn(ws[..|ws|-1], a, length) + CostIn(ws[|ws|-1].admitted, a, length)
  }

  ghost predicate NonNegative(w: seq<(real, int)>) {
    forall k :: 0 <= k < |w| ==> w[k].1 >= 0
  }

  ghost predicate AllNonNegative(ws: seq<Window>) {
    forall i :: 0 <= i < |ws| ==> NonNegative(ws[i].admitted)
  }

  lemma {:induction false} CostInBounds(w: seq<(real, int)>, a: real, length: real)
    requires NonNegative(w)
    ensures 0 <= CostIn(w, a, length) <= Cost(w)
    ensures (forall k :: 0 <= k < |w| ==> !(a <= w[k].0 < a + length)) ==> CostIn(w, a, length) == 0
  {
    if w != [] {
      CostInBounds(w[..|w|-1], a, length);
    }
  }

  /** Windows that all start before a: at most one reaches into the interval. */
  lemma {:induction false} AtMostOneBefore(cfg: Config, ws: seq<Window>, a: real)
    requires Spaced(cfg, ws) && AllNonNegative(ws) && cfg.window > 0.0
    requires forall i :: 0 <= i < |ws| ==> ws[i].start < a
    ensures TotalIn(ws, a, cfg.window) <= cfg.limit
    ensures (forall i :: 0 <= i < |ws| ==> ws[i].start + cfg.window <= a) ==> TotalIn(ws, a, cfg.window) == 0
  {
    if ws != [] {
      var n := |ws| - 1;
      assert forall i :: 0 <= i < n ==> ws[i].start + cfg.window <= ws[n].start < a;
      assert WindowOk(cfg, ws[n]);
      AtMostOneBefore(cfg, ws[..n], a);
      CostInBounds(ws[n].admitted, a, cfg.window);
    }
  }

  lemma {:induction false} AtMostTwo(cfg: Config, ws: seq<Window>, a: real)
    requires Spaced(cfg, ws) && AllNonNegative(ws) && cfg.window > 0.0
    ensures TotalIn(ws, a, cfg.window) <= 2 * cfg.limit
  {
    if ws != [] {
      var n := |ws| - 1;
      assert WindowOk(cfg, ws[n]);
      CostInBounds(ws[n].admitted, a, cfg.window);
      if ws[n].start >= a + cfg.window {
        AtMostTwo(cfg, ws[..n], a);
      } else {
        assert forall i :: 0 <= i < n ==> ws[i].start + cfg.window <= ws[n].start;
        AtMostOneBefore(cfg, ws[..n], a);
      }
    }
  }

  /** Cost admitted for one client with a clock reading in [a, a + length). */
  function AdmittedIn(cfg: Config, calls: seq<Call>, id: string, a: real, length: real): int
    decreases |calls|
  {
    if calls == [] then 0 else
      var c := calls[|calls|-1];
      AdmittedIn(cfg, calls[..|calls|-1], id, a, length) +
      if c.id == id && Answer(cfg, calls) && a <= c.now < a + length then c.cost else 0
  }

  lemma ExtendAddsTheCost(cfg: Config, ws: seq<Window>, now: real, cost: int, a: real, length: real)
    ensures TotalIn(Extend(cfg, ws, now, cost), a, length) ==
            TotalIn(ws, a, length) + if a <= now < a + length then cost else 0
  {
    var last := [(now, cost)];
    assert last[..0] == [] && CostIn([], a, length) == 0;
    assert (ws + [Window(now, last)])[..|ws|] == ws;
    if ws != [] {
      var n := |ws| - 1;
      var admitted := ws[n].admitted;
      assert (admitted + last)[..|admitted|] == admitted;
      assert ws[n := Window(ws[n].start, admitted + last)][..n] == ws[..n];
    }
  }

  /** The windows lose and add nothing. */
  lemma {:induction false} WindowsCarryAllAdmitted(cfg: Config, calls: seq<Call>, id: string, a: real, length: real)
    ensures TotalIn(Windows(cfg, calls, id), a, length) == AdmittedIn(cfg, calls, id, a, length)
    decreases |calls|
  {
    if calls != [] {
      var before, c := calls[..|calls|-1], calls[|calls|-1];
      WindowsCarryAllAdmitted(cfg, before, id, a, length);
      ExtendAddsTheCost(cfg, Windows(cfg, before, id), c.now, c.cost, a, length);
    }
  }

  ghost predicate CostsFrom(calls: seq<Call>, least: int) {
    forall k :: 0 <= k < |calls| ==> calls[k].cost >= least
  }

  lemma {:induction false} WindowsNonNegative(cfg: Config, calls: seq<Call>, id: string)
    requires CostsFrom(calls, 0)
    ensures AllNonNegative(Windows(cfg, calls, id))
    decreases |calls|
  {
    if calls != [] {
      WindowsNonNegative(cfg, calls[..|calls|-1], id);
    }
  }

  /** Any half-open interval of one window length admits at most twice the limit per client,
      under a nondecreasing clock, when no cost is negative. */
  lemma TwiceTheLimit(cfg: Config, calls: seq<Call>, id: string, a: real)
    requires cfg.limit > 0 && cfg.window > 0.0 && Clocked(calls) && CostsFrom(calls, 0)
    ensures AdmittedIn(cfg, calls, id, a, cfg.window) <= 2 * cfg.limit
  {
    WindowsHoldTheLimit(cfg, calls, id);
    WindowsNonNegative(cfg, calls, id);
    AtMostTwo(cfg, Windows(cfg, calls, id), a);
    WindowsCarryAllAdmitted(cfg, calls, id, a, cfg.window);
  }

  /** And twice the limit can be reached: a full window just before a boundary, one just after. */
  lemma TwiceTheLimitIsReached(limit: nat)
    requires limit > 0
    ensures var calls := [Call("c", 0, 0.0), Call("c", limit, 9.0), Call("c", limit, 10.0)];
            AdmittedIn(Config(limit, 10.0), calls, "c", 9.0, 10.0) == 2 * limit
  {
    var cfg := Config(limit, 10.0);
    var c := [Call("c", 0, 0.0), Call("c", limit, 9.0), Call("c", limit, 10.0)];
    assert c[..2] == [c[0], c[1]] && c[..2][..1] == [c[0]] && c[..2][..1][..0] == [];
    assert Run(cfg, [c[0]]) == map["c" := (0.0, 0)];
    assert Run(cfg, c[..2]) == map["c" := (0.0, limit)];
    assert AdmittedIn(cfg, [c[0]], "c", 9.0, 10.0) == 0;
    assert AdmittedIn(cfg, c[..2], "c", 9.0, 10.0) == limit;
  }

  /** A negative cost makes room for a cost above the limit in the same window; with the next
      window's the interval holds more than twice the limit. */
  lemma NegativeCostRaisesTheLimit(cfg: Config, cost: int)
    requires cost <= 0 < cfg.limit && cfg.window > 0.0
    ensures var half := cfg.window / 2.0;
            var calls := [Call("c", cost, 0.0), Call("c", cfg.limit - cost, half), Call("c", cfg.limit, cfg.window)];
            Clocked(calls) && AdmittedIn(cfg, calls, "c", half, cfg.window) == 2 * cfg.limit - cost
  {
    var half := cfg.window / 2.0;
    var c := [Call("c", cost, 0.0), Call("c", cfg.limit - cost, half), Call("c", cfg.limit, cfg.window)];
    assert c[..2] == [c[0], c[1]] && c[..2][..1] == [c[0]] && c[..2][..1][..0] == [];
    assert Run(cfg, [c[0]]) == map["c" := (0.0, cost)];
    assert Run(cfg, c[..2]) == map["c" := (0.0, cfg.limit)];
    assert AdmittedIn(cfg, [c[0]], "c", half, cfg.window) == 0;
    assert AdmittedIn(cfg, c[..2], "c", half, cfg.window) == cfg.limit - cost;
  }

  /** The bound of twice the limit holds over all runs of calls that cost at least `least`
      exactly when these are not negative. */
  lemma TwiceTheLimitIff(cfg: Config, least: int)
    requires cfg.limit > 0 && cfg.window > 0.0
    ensures (forall calls: seq<Call>, id: string, a: real | Clocked(calls) && CostsFrom(calls, least) ::
              AdmittedIn(cfg, calls, id, a, cfg.window) <= 2 * cfg.limit) <==> least >= 0
  {
    if least >= 0 {
      forall calls: seq<Call>, id: string, a: real | Clocked(calls) && CostsFrom(calls, least)
        ensures AdmittedIn(cfg, calls, id, a, cfg.window) <= 2 * cfg.limit
      {
        TwiceTheLimit(cfg, calls, id, a);
      }
    } else {
      NegativeCostRaisesTheLimit(cfg, least);
      var half := cfg.window / 2.0;
      var calls := [Call("c", least, 0.0), Call("c", cfg.limit - least, half), Call("c", cfg.limit, cfg.window)];
      assert CostsFrom(calls, least);
    }
  }

  // ---------------------------------------------------------------- cleanup

  /** Nothing of the client's bucket counts any more. */
  predicate Stale(cfg: Config, b: Buckets, id: string, now: real) {
    id !in b || now - b[id].0 >= cfg.window
  }

  /** Two limiters that agree on every bucket that still counts. */
  ghost predicate Alike(cfg: Config, b: Buckets, c: Buckets, now: real) {
    forall id :: (id in b && id in c && b[id] == c[id]) || (Stale(cfg, b, id, now) && Stale(cfg, c, id, now))
  }

  lemma AlikeStep(cfg: Config, b: Buckets, c: Buckets, now: real, call: Call)
    requires Alike(cfg, b, c, now) && now <= call.now
    ensures AllowStep(cfg, b, call.id, call.cost, call.now).0 == AllowStep(cfg, c, call.id, call.cost, call.now).0
    ensures var b' := AllowStep(cfg, b, call.id, call.cost, call.now).1;
            var c' := AllowStep(cfg, c, call.id, call.cost, call.now).1;
            Alike(cfg, b', c', call.now)
  {
    assert (call.id in b && call.id in c && b[call.id] == c[call.id]) ||
           (Stale(cfg, b, call.id, now) && Stale(cfg, c, call.id, now));
  }

  /** The answers to a sequence of calls. */
  function Answers(cfg: Config, b: Buckets, calls: seq<Call>): seq<bool>
    decreases |calls|
  {
    if calls == [] then [] else
      var (ok, b') := AllowStep(cfg, b, calls[0].id, calls[0].cost, calls[0].now);
      [ok] + Answers(cfg, b', calls[1..])
  }

  ghost predicate ClockedFrom(calls: seq<Call>, now: real) {
    Clocked(calls) && (calls != [] ==> now <= calls[0].now)
  }

  lemma {:induction false} AlikeForever(cfg: Config, b: Buckets, c: Buckets, now: real, calls: seq<Call>)
    requires Alike(cfg, b, c, now) && Clocked(calls) && (calls != [] ==> now <= calls[0].now)
    ensures Answers(cfg, b, calls) == Answers(cfg, c, calls)
    decreases |calls|
  {
    if calls != [] {
      var call := calls[0];
      AlikeStep(cfg, b, c, now, call);
      var b' := AllowStep(cfg, b, call.id, call.cost, call.now).1;
      var c' := AllowStep(cfg, c, call.id, call.cost, call.now).1;
      AlikeForever(cfg, b', c', call.now, calls[1..]);
    }
  }

  /** `cleanup` changes no later answer, for any buckets and any later calls, exactly when
      max_age is at least one window; the default is two. */
  lemma CleanupIsInvisibleIff(cfg: Config, maxAge: real)
    requires cfg.limit > 0 && cfg.window > 0.0
    ensures (forall b: Buckets, now: real, calls: seq<Call> | ClockedFrom(calls, now) ::
              Answers(cfg, Cleanup(b, maxAge, now), calls) == Answers(cfg, b, calls)) <==> maxAge >= cfg.window
  {
    if maxAge >= cfg.window {
      forall b: Buckets, now: real, calls: seq<Call> | ClockedFrom(calls, now)
        ensures Answers(cfg, Cleanup(b, maxAge, now), calls) == Answers(cfg, b, calls)
      {
        AlikeForever(cfg, Cleanup(b, maxAge, now), b, now, calls);
      }
    } else {
      var floor := if maxAge < 0.0 then 0.0 else maxAge;
      var now := (floor + cfg.window) / 2.0;
      var b: Buckets := map["c" := (0.0, cfg.limit)];
      var calls := [Call("c", 1, now)];
      assert Cleanup(b, maxAge, now) == map[];
      assert Answers(cfg, b, calls)[0] == false;
      assert Answers(cfg, map[], calls)[0] == true;
      assert ClockedFrom(calls, now);
    }
  }
}
