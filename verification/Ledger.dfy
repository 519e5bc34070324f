/** The scheduler as a state machine over whole runs, and its block ledger: what is charged at
    admission, what is credited at release, and when the difference is what is used. */
module Ledger {
  import opened Admission
  import opened Sequences

  datatype Limits = Limits(maxRunning: nat, maxWaiting: nat, totalBlocks: nat, blockSize: nat, recompute: bool)

  /** The queue, the running dict in insertion order, the number of tokens of every request ever
      added, and `_used_blocks`. */
  datatype State = State(
    waiting: seq<RunningRequest>,
    running: seq<RunningRequest>,
    generated: map<RunningRequest, nat>,
    used: int)

  datatype Op =
    | AddOp(rr: RunningRequest)
    | AppendOp(rr: RunningRequest)
    | ScheduleOp
    | FinishOp(id: string)
    | PreemptOp

  const EMPTY := State([], [], map[], 0)

  predicate Known(cfg: Limits, s: State) {
    0 < cfg.blockSize &&
    (forall r :: r in s.waiting ==> r in s.generated) && (forall r :: r in s.running ==> r in s.generated)
  }

  function Needs(cfg: Limits, s: State): (needs: seq<int>)
    requires Known(cfg, s)
    ensures |needs| == |s.waiting|
  {
    seq(|s.waiting|, i requires 0 <= i < |s.waiting| =>
      Ceil(s.generated[s.waiting[i]] + s.waiting[i].req.maxTokens, cfg.blockSize))
  }

  /** The free count `schedule` takes once at the start. */
  function FreeBlocks(cfg: Limits, s: State): int { cfg.totalBlocks - s.used }

  /** The entry `max` picks at one clock reading: the first of those waiting longest. */
  function Longest(rs: seq<RunningRequest>): (v: nat)
    requires rs != []
    ensures v < |rs|
  {
    if |rs| == 1 then 0 else
      var n := |rs| - 1;
      var v := Longest(rs[..n]);
      if rs[n].waitingSince < rs[v].waitingSince then n else v
  }

  lemma {:induction false} LongestWaitsLongest(rs: seq<RunningRequest>)
    requires rs != []
    ensures forall j :: 0 <= j < |rs| ==> rs[Longest(rs)].waitingSince <= rs[j].waitingSince
    ensures forall j :: 0 <= j < Longest(rs) ==> rs[Longest(rs)].waitingSince < rs[j].waitingSince
  {
    if |rs| > 1 {
      LongestWaitsLongest(rs[..|rs| - 1]);
    }
  }

  /** The entries without entry i, by position. */
  function AllBut(rs: seq<RunningRequest>, i: nat): seq<RunningRequest>
    requires i < |rs|
  {
    seq(|rs| - 1, j requires 0 <= j < |rs| - 1 => if j < i then rs[j] else rs[j + 1])
  }

  lemma AllButIs(rs: seq<RunningRequest>, i: nat)
    requires i < |rs|
    ensures AllBut(rs, i) == rs[..i] + rs[i + 1..]
  {
  }

  /** The blocks credited for an entry that leaves. */
  function Credit(cfg: Limits, s: State, i: nat): int
    requires Known(cfg, s) && i < |s.running|
  {
    Ceil(s.generated[s.running[i]], cfg.blockSize)
  }

  /** What is charged for a request: the blocks of the tokens it has and of its max_tokens. */
  lemma NeedIsLeast(cfg: Limits, s: State, i: nat)
    requires Known(cfg, s) && i < |s.waiting|
    ensures var rr := s.waiting[i];
            LeastBlocks(Needs(cfg, s)[i], s.generated[rr] + rr.req.maxTokens, cfg.blockSize)
  {
    CeilIsLeast(s.generated[s.waiting[i]] + s.waiting[i].req.maxTokens, cfg.blockSize);
  }

  /** What is credited for it: the blocks of the tokens it has. */
  lemma CreditIsLeast(cfg: Limits, s: State, i: nat)
    requires Known(cfg, s) && i < |s.running|
    ensures LeastBlocks(Credit(cfg, s, i), s.generated[s.running[i]], cfg.blockSize)
  {
    CeilIsLeast(s.generated[s.running[i]], cfg.blockSize);
  }

  function NonNegative(used: int): int { if used < 0 then 0 else used }

  /** `running.pop` and the clamped credit. */
  function Release(cfg: Limits, s: State, i: nat): (t: State)
    requires Known(cfg, s) && i < |s.running|
    ensures Known(cfg, t)
  {
    s.(running := AllBut(s.running, i), used := NonNegative(s.used - Credit(cfg, s, i)))
  }

  /** The sum of the needs of the requests one `schedule` call admits. */
  function Charge(cfg: Limits, s: State): int
    requires Known(cfg, s)
  {
    Charged(s.running, s.waiting, Needs(cfg, s), FreeBlocks(cfg, s), cfg.maxRunning, |s.waiting|)
  }

  /** The queue without its first `popped` requests, by position. */
  function Remaining(queue: seq<RunningRequest>, popped: nat): seq<RunningRequest>
    requires popped <= |queue|
  {
    seq(|queue| - popped, i requires 0 <= i < |queue| - popped => queue[popped + i])
  }

  function Scheduled(cfg: Limits, s: State): (t: State)
    requires Known(cfg, s)
  {
    var (now, popped) := Admitted(s.running, s.waiting, Needs(cfg, s), FreeBlocks(cfg, s), cfg.maxRunning, |s.waiting|);
    s.(running := now, waiting := Remaining(s.waiting, popped), used := s.used + Charge(cfg, s))
  }

  /** The token loop appends to a request only below its positive max_tokens. */
  predicate MayAppend(s: State, rr: RunningRequest) {
    rr in s.generated && (rr.req.maxTokens > 0 ==> s.generated[rr] < rr.req.maxTokens)
  }

  function Step(cfg: Limits, s: State, op: Op): (t: State)
    requires Known(cfg, s)
    ensures Known(cfg, t)
  {
    match op
    case AddOp(rr) =>
      if |s.waiting| + |s.running| >= cfg.maxWaiting || rr in s.generated then s
      else s.(waiting := s.waiting + [rr], generated := s.generated[rr := 0])
    case AppendOp(rr) =>
      if MayAppend(s, rr) then s.(generated := s.generated[rr := s.generated[rr] + 1]) else s
    case ScheduleOp =>
      ScheduledMembers(cfg, s);
      Scheduled(cfg, s)
    case FinishOp(id) =>
      var i := IndexOf(s.running, id);
      if i == |s.running| then s else Release(cfg, s, i)
    case PreemptOp =>
      if s.running == [] then s else
        var i := Longest(s.running);
        var t := Release(cfg, s, i);
        var rr := s.running[i];
        t.(waiting := [rr] + t.waiting, generated := if cfg.recompute then t.generated[rr := 0] else t.generated)
  }

  /** A request that has n tokens now. */
  function WithTokens(s: State, rr: RunningRequest, n: nat): State {
    s.(generated := s.generated[rr := n])
  }

  lemma {:induction false} AdmittedMembers(running: seq<RunningRequest>, queue: seq<RunningRequest>, needs: seq<int>,
                                           free: int, capacity: int, i: nat)
    requires |queue| == |needs| && i <= |queue|
    ensures forall r :: r in Admitted(running, queue, needs, free, capacity, i).0 ==> r in running || r in queue
  {
    if i > 0 {
      AdmittedMembers(running, queue, needs, free, capacity, i - 1);
    }
  }

  lemma ScheduledMembers(cfg: Limits, s: State)
    requires Known(cfg, s)
    ensures Known(cfg, Scheduled(cfg, s))
  {
    AdmittedMembers(s.running, s.waiting, Needs(cfg, s), FreeBlocks(cfg, s), cfg.maxRunning, |s.waiting|);
  }

  lemma ScheduleIs(cfg: Limits, s: State, now: seq<RunningRequest>, popped: nat, charged: int)
    requires Known(cfg, s)
    requires (now, popped) ==
             Admitted(s.running, s.waiting, Needs(cfg, s), FreeBlocks(cfg, s), cfg.maxRunning, |s.waiting|)
    requires Charge(cfg, s) == charged
    ensures Step(cfg, s, ScheduleOp) == State(s.waiting[popped..], now, s.generated, s.used + charged)
  {
    assert Remaining(s.waiting, popped) == s.waiting[popped..];
  }

  lemma PreemptIs(cfg: Limits, s: State, i: nat)
    requires Known(cfg, s) && s.running != [] && i == Longest(s.running)
    ensures var rr := s.running[i];
            Step(cfg, s, PreemptOp) ==
            State([rr] + s.waiting, AllBut(s.running, i), if cfg.recompute then s.generated[rr := 0] else s.generated,
                  NonNegative(s.used - Credit(cfg, s, i)))
  {
  }

  // ---------------------------------------------------------------- charges and credits

  /** What one call charges: the needs of the requests it admits. */
  function ChargeOf(cfg: Limits, s: State, op: Op): int
    requires Known(cfg, s)
  {
    if op.ScheduleOp? then Charge(cfg, s) else 0
  }

  /** What one call credits: the blocks of the tokens of the entry it releases. */
  function CreditOf(cfg: Limits, s: State, op: Op): int
    requires Known(cfg, s)
  {
    match op
    case FinishOp(id) => if IndexOf(s.running, id) == |s.running| then 0 else Credit(cfg, s, IndexOf(s.running, id))
    case PreemptOp => if s.running == [] then 0 else Credit(cfg, s, Longest(s.running))
    case _ => 0
  }

  /** The blocks the running requests' max_tokens alone need. */
  function Reserved(rs: seq<RunningRequest>, blockSize: nat): int
    requires 0 < blockSize
  {
    if rs == [] then 0 else Reserved(rs[..|rs| - 1], blockSize) + Ceil(rs[|rs| - 1].req.maxTokens, blockSize)
  }

  lemma {:induction false} ReservedJoins(a: seq<RunningRequest>, b: seq<RunningRequest>, blockSize: nat)
    requires 0 < blockSize
    ensures Reserved(a + b, blockSize) == Reserved(a, blockSize) + Reserved(b, blockSize)
  {
    if b == [] {
      assert a + b == a;
    } else {
      assert (a + b)[..|a + b| - 1] == a + b[..|b| - 1];
      ReservedJoins(a, b[..|b| - 1], blockSize);
    }
  }

  lemma ReservedOfOne(r: RunningRequest, blockSize: nat)
    requires 0 < blockSize
    ensures Reserved([r], blockSize) == Ceil(r.req.maxTokens, blockSize)
  {
    assert [r][..0] == [];
  }

  /** One entry's share. */
  lemma ReservedSplits(rs: seq<RunningRequest>, i: nat, r: RunningRequest, blockSize: nat)
    requires 0 < blockSize && i < |rs|
    ensures Reserved(rs[i := r], blockSize) == Reserved(AllBut(rs, i), blockSize) + Ceil(r.req.maxTokens, blockSize)
  {
    var front, back := rs[..i], rs[i + 1..];
    assert rs[i := r] == (front + [r]) + back;
    AllButIs(rs, i);
    ReservedJoins(front + [r], back, blockSize);
    ReservedJoins(front, [r], blockSize);
    ReservedOfOne(r, blockSize);
    ReservedJoins(front, back, blockSize);
  }

  lemma ReservedShare(rs: seq<RunningRequest>, i: nat, blockSize: nat)
    requires 0 < blockSize && i < |rs|
    ensures Reserved(rs, blockSize) == Reserved(AllBut(rs, i), blockSize) + Ceil(rs[i].req.maxTokens, blockSize)
  {
    assert rs[i := rs[i]] == rs;
    ReservedSplits(rs, i, rs[i], blockSize);
  }

  predicate Positive(rs: seq<RunningRequest>) {
    forall r :: r in rs ==> r.req.maxTokens > 0
  }

  lemma {:induction false} ReservedNonNegative(rs: seq<RunningRequest>, blockSize: nat)
    requires 0 < blockSize && Positive(rs)
    ensures Reserved(rs, blockSize) >= 0
  {
    if rs != [] {
      assert rs[|rs| - 1] in rs;
      CeilMonotone(0, rs[|rs| - 1].req.maxTokens, blockSize);
      ReservedNonNegative(rs[..|rs| - 1], blockSize);
    }
  }

  lemma PutReserves(running: seq<RunningRequest>, rr: RunningRequest, blockSize: nat)
    requires 0 < blockSize && Positive(running)
    ensures Reserved(Put(running, rr), blockSize) <= Reserved(running, blockSize) + Ceil(rr.req.maxTokens, blockSize)
  {
    var i := IndexOf(running, rr.req.id);
    if i == |running| {
      ReservedJoins(running, [rr], blockSize);
      ReservedOfOne(rr, blockSize);
    } else {
      assert running[i] in running;
      ReservedSplits(running, i, rr, blockSize);
      ReservedShare(running, i, blockSize);
      CeilMonotone(0, running[i].req.maxTokens, blockSize);
    }
  }

  // ---------------------------------------------------------------- the invariant

  /** Every request asked for tokens and has no more than it asked for, and what is used above the
      base covers what the running ones asked for. */
  predicate BackedAbove(cfg: Limits, s: State, base: nat) {
    Known(cfg, s) && s.used >= base + Reserved(s.running, cfg.blockSize) &&
    forall r :: r in s.generated ==> r.req.maxTokens > 0 && s.generated[r] <= r.req.maxTokens
  }

  predicate Backed(cfg: Limits, s: State) { BackedAbove(cfg, s, 0) }

  /** The admission loop charges at least what it reserves. */
  lemma {:induction false} ChargeCovers(running: seq<RunningRequest>, queue: seq<RunningRequest>, needs: seq<int>,
                                        free: int, capacity: int, blockSize: nat, i: nat)
    requires 0 < blockSize && |queue| == |needs| && i <= |queue| && Positive(running) && Positive(queue)
    requires forall k :: 0 <= k < |queue| ==> needs[k] >= Ceil(queue[k].req.maxTokens, blockSize)
    ensures var now := Admitted(running, queue, needs, free, capacity, i).0;
            Positive(now) && Reserved(now, blockSize) <=
              Reserved(running, blockSize) + Charged(running, queue, needs, free, capacity, i)
  {
    if i > 0 {
      ChargeCovers(running, queue, needs, free, capacity, blockSize, i - 1);
      assert queue[i - 1] in queue;
      PutReserves(Admitted(running, queue, needs, free, capacity, i - 1).0, queue[i - 1], blockSize);
    }
  }

  lemma NeedsCover(cfg: Limits, s: State, base: nat)
    requires BackedAbove(cfg, s, base)
    ensures forall k :: 0 <= k < |s.waiting| ==> Needs(cfg, s)[k] >= Ceil(s.waiting[k].req.maxTokens, cfg.blockSize)
    ensures Positive(s.waiting) && Positive(s.running)
  {
    forall k | 0 <= k < |s.waiting|
      ensures Needs(cfg, s)[k] >= Ceil(s.waiting[k].req.maxTokens, cfg.blockSize)
    {
      var r := s.waiting[k];
      CeilMonotone(r.req.maxTokens, s.generated[r] + r.req.maxTokens, cfg.blockSize);
    }
  }

  lemma ScheduleKeepsBacked(cfg: Limits, s: State, base: nat)
    requires BackedAbove(cfg, s, base)
    ensures BackedAbove(cfg, Step(cfg, s, ScheduleOp), base)
    ensures Step(cfg, s, ScheduleOp).used == s.used + Charge(cfg, s)
  {
    NeedsCover(cfg, s, base);
    ChargeCovers(s.running, s.waiting, Needs(cfg, s), FreeBlocks(cfg, s), cfg.maxRunning, cfg.blockSize, |s.waiting|);
  }

  /** The max(0, ...) clamp does not fire. */
  lemma ReleaseKeepsBacked(cfg: Limits, s: State, i: nat, base: nat)
    requires BackedAbove(cfg, s, base) && i < |s.running|
    ensures Credit(cfg, s, i) <= s.used
    ensures BackedAbove(cfg, Release(cfg, s, i), base) && Release(cfg, s, i).used == s.used - Credit(cfg, s, i)
  {
    var r := s.running[i];
    ReservedShare(s.running, i, cfg.blockSize);
    CeilMonotone(s.generated[r], r.req.maxTokens, cfg.blockSize);
    ReservedNonNegative(AllBut(s.running, i), cfg.blockSize);
  }

  predicate AddsPositive(op: Op) {
    op.AddOp? ==> op.rr.req.maxTokens > 0
  }

  /** One call: the ledger stays backed, used blocks move by exactly charge minus credit, and no
      release clamps. */
  lemma StepKeepsBacked(cfg: Limits, s: State, op: Op, base: nat)
    requires BackedAbove(cfg, s, base) && AddsPositive(op)
    ensures BackedAbove(cfg, Step(cfg, s, op), base) && CreditOf(cfg, s, op) <= s.used
    ensures Step(cfg, s, op).used == s.used + ChargeOf(cfg, s, op) - CreditOf(cfg, s, op)
  {
    ReservedNonNegative(s.running, cfg.blockSize);
    match op
    case AddOp(rr) =>
    case AppendOp(rr) =>
    case ScheduleOp => ScheduleKeepsBacked(cfg, s, base);
    case FinishOp(id) =>
      if IndexOf(s.running, id) < |s.running| {
        ReleaseKeepsBacked(cfg, s, IndexOf(s.running, id), base);
      }
    case PreemptOp =>
      if s.running != [] {
        ReleaseKeepsBacked(cfg, s, Longest(s.running), base);
      }
  }

  // ---------------------------------------------------------------- whole runs

  /** The state after the first n calls. */
  function Run(cfg: Limits, ops: seq<Op>, n: nat): (s: State)
    requires 0 < cfg.blockSize && n <= |ops|
    ensures Known(cfg, s)
  {
    if n == 0 then EMPTY else Step(cfg, Run(cfg, ops, n - 1), ops[n - 1])
  }

  function Charges(cfg: Limits, ops: seq<Op>, n: nat): int
    requires 0 < cfg.blockSize && n <= |ops|
  {
    if n == 0 then 0 else Charges(cfg, ops, n - 1) + ChargeOf(cfg, Run(cfg, ops, n - 1), ops[n - 1])
  }

  function Credits(cfg: Limits, ops: seq<Op>, n: nat): int
    requires 0 < cfg.blockSize && n <= |ops|
  {
    if n == 0 then 0 else Credits(cfg, ops, n - 1) + CreditOf(cfg, Run(cfg, ops, n - 1), ops[n - 1])
  }

  /** After n calls what is used is what was charged minus what was credited. */
  predicate Exact(cfg: Limits, ops: seq<Op>, n: nat)
    requires 0 < cfg.blockSize && n <= |ops|
  {
    Run(cfg, ops, n).used == Charges(cfg, ops, n) - Credits(cfg, ops, n)
  }

  /** Call k does not run into the max(0, ...) clamp. */
  predicate Unclamped(cfg: Limits, ops: seq<Op>, k: nat)
    requires 0 < cfg.blockSize && k < |ops|
  {
    CreditOf(cfg, Run(cfg, ops, k), ops[k]) <= Run(cfg, ops, k).used
  }

  ghost predicate Balanced(cfg: Limits, ops: seq<Op>)
    requires 0 < cfg.blockSize
  {
    (forall n: nat :: n <= |ops| ==> Exact(cfg, ops, n)) && forall k: nat :: k < |ops| ==> Unclamped(cfg, ops, k)
  }

  ghost predicate AllPositive(ops: seq<Op>) {
    forall k :: 0 <= k < |ops| ==> AddsPositive(ops[k])
  }

  lemma {:induction false} BackedAfter(cfg: Limits, ops: seq<Op>, n: nat)
    requires 0 < cfg.blockSize && AllPositive(ops) && n <= |ops|
    ensures Backed(cfg, Run(cfg, ops, n)) && Exact(cfg, ops, n)
  {
    if n > 0 {
      BackedAfter(cfg, ops, n - 1);
      StepKeepsBacked(cfg, Run(cfg, ops, n - 1), ops[n - 1], 0);
    }
  }

  /** Over every sequence of add, append, schedule, finish and preempt in which every request has
      a positive max_tokens: used is charges minus credits throughout, and no release clamps. */
  lemma LedgerBalances(cfg: Limits, ops: seq<Op>)
    requires 0 < cfg.blockSize && AllPositive(ops)
    ensures Balanced(cfg, ops)
  {
    forall n: nat | n <= |ops| ensures Exact(cfg, ops, n) {
      BackedAfter(cfg, ops, n);
    }
    forall k: nat | k < |ops| ensures Unclamped(cfg, ops, k) {
      BackedAfter(cfg, ops, k);
      StepKeepsBacked(cfg, Run(cfg, ops, k), ops[k], 0);
    }
  }

  lemma AdmitsAlone(rr: RunningRequest, need: int, free: int, capacity: int)
    requires need <= free && 0 < capacity
    ensures Admitted([], [rr], [need], free, capacity, 1) == ([rr], 1)
    ensures Charged([], [rr], [need], free, capacity, 1) == need
    ensures [rr][1..] == []
  {
    assert Admitted([], [rr], [need], free, capacity, 0) == ([], 0);
    assert [] + [rr] == [rr];
  }

  lemma ScheduledAlone(cfg: Limits, s: State, rr: RunningRequest, need: int)
    requires 0 < cfg.blockSize && 0 < cfg.maxRunning && need == Ceil(rr.req.maxTokens, cfg.blockSize)
    requires s.waiting == [rr] && s.running == [] && rr in s.generated && s.generated[rr] == 0
    requires need <= FreeBlocks(cfg, s)
    ensures Step(cfg, s, ScheduleOp) == State([], [rr], s.generated, s.used + need)
  {
    assert Needs(cfg, s) == [need];
    AdmitsAlone(rr, need, FreeBlocks(cfg, s), cfg.maxRunning);
    ScheduleIs(cfg, s, [rr], 1, need);
  }

  /** A request is added and admitted, generates one token and is finished. */
  function OneToken(rr: RunningRequest): seq<Op> {
    [AddOp(rr), ScheduleOp, AppendOp(rr), FinishOp(rr.req.id)]
  }

  /** A request without a positive max_tokens that generates one token is credited more than it
      was charged: its release clamps, and what is used is no longer charges minus credits. */
  lemma UnlimitedRequestClamps(cfg: Limits, rr: RunningRequest)
    requires 0 < cfg.blockSize && 0 < cfg.maxRunning && 0 < cfg.maxWaiting && rr.req.maxTokens <= 0
    ensures !Balanced(cfg, OneToken(rr))
  {
    var ops := OneToken(rr);
    CeilOfOne(rr.req.maxTokens, cfg.blockSize);
    var need := Ceil(rr.req.maxTokens, cfg.blockSize);
    assert [] + [rr] == [rr] && map[rr := 0][rr := 1] == map[rr := 1];
    assert Run(cfg, ops, 0) == EMPTY;
    assert Run(cfg, ops, 1) == State([rr], [], map[rr := 0], 0);
    ScheduledAlone(cfg, State([rr], [], map[rr := 0], 0), rr, need);
    assert Run(cfg, ops, 2) == State([], [rr], map[rr := 0], need);
    var s := State([], [rr], map[rr := 1], need);
    assert Run(cfg, ops, 3) == s;
    assert IndexOf(s.running, rr.req.id) == 0 && Credit(cfg, s, 0) == 1;
    assert !Unclamped(cfg, ops, 3);
  }

  ghost predicate AllAsk(ops: seq<Op>, maxTokens: int) {
    forall k :: 0 <= k < |ops| && ops[k].AddOp? ==> ops[k].rr.req.maxTokens == maxTokens
  }

  lemma OneTokenAsks(rr: RunningRequest)
    ensures AllAsk(OneToken(rr), rr.req.maxTokens)
  {
  }

  lemma AllAskPositive(ops: seq<Op>, maxTokens: int)
    requires AllAsk(ops, maxTokens) && maxTokens > 0
    ensures AllPositive(ops)
  {
  }

  /** For requests that ask for as many tokens as rr: every run balances exactly when that number
      is positive. */
  lemma LedgerBalancesIff(cfg: Limits, rr: RunningRequest)
    requires 0 < cfg.blockSize && 0 < cfg.maxRunning && 0 < cfg.maxWaiting
    ensures (forall ops: seq<Op> | AllAsk(ops, rr.req.maxTokens) :: Balanced(cfg, ops)) <==> rr.req.maxTokens > 0
  {
    if rr.req.maxTokens > 0 {
      forall ops: seq<Op> | AllAsk(ops, rr.req.maxTokens) ensures Balanced(cfg, ops) {
        AllAskPositive(ops, rr.req.maxTokens);
        LedgerBalances(cfg, ops);
      }
    } else {
      UnlimitedRequestClamps(cfg, rr);
      OneTokenAsks(rr);
    }
  }

  // ---------------------------------------------------------------- the order of admission

  /** The request one call accepts into the queue. */
  function AcceptedBy(cfg: Limits, s: State, op: Op): seq<RunningRequest> {
    if op.AddOp? && |s.waiting| + |s.running| < cfg.maxWaiting && op.rr !in s.generated then [op.rr] else []
  }

  /** The requests one call adds to the running set, in the order in which they come to stand there. */
  function EnteredBy(cfg: Limits, s: State, op: Op): seq<RunningRequest>
    requires Known(cfg, s)
  {
    var now := Step(cfg, s, op).running;
    if op.ScheduleOp? && |s.running| <= |now| then now[|s.running|..] else []
  }

  function Accepted(cfg: Limits, ops: seq<Op>, n: nat): seq<RunningRequest>
    requires 0 < cfg.blockSize && n <= |ops|
  {
    if n == 0 then [] else Accepted(cfg, ops, n - 1) + AcceptedBy(cfg, Run(cfg, ops, n - 1), ops[n - 1])
  }

  function Entered(cfg: Limits, ops: seq<Op>, n: nat): seq<RunningRequest>
    requires 0 < cfg.blockSize && n <= |ops|
  {
    if n == 0 then [] else Entered(cfg, ops, n - 1) + EnteredBy(cfg, Run(cfg, ops, n - 1), ops[n - 1])
  }

  /** Nothing is preempted, and what is scheduled has ids of its own and fits. */
  predicate Smooth(cfg: Limits, s: State, op: Op)
    requires Known(cfg, s)
  {
    !op.PreemptOp? &&
    (op.ScheduleOp? ==>
      DistinctIds(s.running + s.waiting) && forall i :: 0 <= i < |s.waiting| ==> Needs(cfg, s)[i] <= FreeBlocks(cfg, s))
  }

  function Least(a: int, b: int): int { if a < b then a else b }

  lemma DistinctFront(a: seq<RunningRequest>, b: seq<RunningRequest>, k: nat)
    requires DistinctIds(a + b) && k <= |b|
    ensures DistinctIds(a + b[..k])
  {
    assert forall i :: 0 <= i < |a| + k ==> (a + b[..k])[i] == (a + b)[i];
  }

  /** A smooth call takes as many of the first waiting requests as there are places, in order. */
  lemma SmoothSchedule(cfg: Limits, s: State, k: nat)
    requires Known(cfg, s) && Smooth(cfg, s, ScheduleOp) && |s.running| <= cfg.maxRunning
    requires k == Least(|s.waiting|, cfg.maxRunning - |s.running|)
    ensures var t := Step(cfg, s, ScheduleOp);
            t.running == s.running + s.waiting[..k] && t.waiting == s.waiting[k..]
  {
    DistinctFront(s.running, s.waiting, k);
    ScheduleTakesTheHead(s.running, s.waiting, Needs(cfg, s), FreeBlocks(cfg, s), cfg.maxRunning);
    ScheduleIs(cfg, s, s.running + s.waiting[..k], k, Charge(cfg, s));
  }

  /** Those accepted are those entered, then those waiting. */
  predicate InOrder(cfg: Limits, s: State, accepted: seq<RunningRequest>, entered: seq<RunningRequest>) {
    |s.running| <= cfg.maxRunning && accepted == entered + s.waiting
  }

  lemma SmoothStep(cfg: Limits, s: State, op: Op, accepted: seq<RunningRequest>, entered: seq<RunningRequest>)
    requires Known(cfg, s) && Smooth(cfg, s, op) && InOrder(cfg, s, accepted, entered)
    ensures InOrder(cfg, Step(cfg, s, op), accepted + AcceptedBy(cfg, s, op), entered + EnteredBy(cfg, s, op))
  {
    match op
    case AddOp(rr) => Reassociate(entered, s.waiting, AcceptedBy(cfg, s, op));
    case AppendOp(rr) =>
    case FinishOp(id) =>
    case ScheduleOp =>
      var k := Least(|s.waiting|, cfg.maxRunning - |s.running|);
      SmoothSchedule(cfg, s, k);
      assert s.waiting == s.waiting[..k] + s.waiting[k..];
      Reassociate(entered, s.waiting[..k], s.waiting[k..]);
  }

  predicate SmoothAt(cfg: Limits, ops: seq<Op>, k: nat)
    requires 0 < cfg.blockSize && k < |ops|
  {
    Smooth(cfg, Run(cfg, ops, k), ops[k])
  }

  /** First come, first served: over every run without preemption in which what is scheduled has
      ids of its own and fits, the requests in the order of their acceptance are those that entered
      the running set, in the order in which they did, and then those that wait. */
  lemma {:induction false} FirstComeFirstServed(cfg: Limits, ops: seq<Op>, n: nat)
    requires 0 < cfg.blockSize && n <= |ops| && forall k: nat :: k < n ==> SmoothAt(cfg, ops, k)
    ensures var inOrder := InOrder(cfg, Run(cfg, ops, n), Accepted(cfg, ops, n), Entered(cfg, ops, n)); inOrder
  {
    if n > 0 {
      FirstComeFirstServed(cfg, ops, n - 1);
      assert SmoothAt(cfg, ops, n - 1);
      SmoothStep(cfg, Run(cfg, ops, n - 1), ops[n - 1], Accepted(cfg, ops, n - 1), Entered(cfg, ops, n - 1));
    }
  }

  // ---------------------------------------------------------------- what is never credited

  /** After `tokens` more appended tokens. */
  function Appended(cfg: Limits, s: State, rr: RunningRequest, tokens: nat): (t: State)
    requires Known(cfg, s)
    ensures Known(cfg, t)
  {
    if tokens == 0 then s else Step(cfg, Appended(cfg, s, rr, tokens - 1), AppendOp(rr))
  }

  lemma {:induction false} AppendedTokens(cfg: Limits, s: State, rr: RunningRequest, tokens: nat)
    requires Known(cfg, s) && rr in s.generated && s.generated[rr] == 0 && tokens <= rr.req.maxTokens
    ensures Appended(cfg, s, rr, tokens) == WithTokens(s, rr, tokens)
  {
    if tokens == 0 {
      assert s.generated == s.generated[rr := 0];
    } else {
      AppendedTokens(cfg, s, rr, tokens - 1);
      assert s.generated[rr := tokens - 1][rr := tokens] == s.generated[rr := tokens];
    }
  }

  predicate Idle(s: State) { s.waiting == [] && s.running == [] }

  /** A new request that an idle scheduler has room for. */
  predicate Servable(cfg: Limits, s: State, rr: RunningRequest)
    requires Known(cfg, s)
  {
    Idle(s) && rr !in s.generated && 0 < cfg.maxRunning && 0 < cfg.maxWaiting &&
    Ceil(rr.req.maxTokens, cfg.blockSize) <= FreeBlocks(cfg, s)
  }

  /** The request is added and admitted. */
  function Started(cfg: Limits, s: State, rr: RunningRequest): (t: State)
    requires Known(cfg, s)
    ensures Known(cfg, t)
  {
    Step(cfg, Step(cfg, s, AddOp(rr)), ScheduleOp)
  }

  lemma StartedAlone(cfg: Limits, s: State, rr: RunningRequest)
    requires Known(cfg, s) && Servable(cfg, s, rr)
    ensures Started(cfg, s, rr) ==
            State([], [rr], s.generated[rr := 0], s.used + Ceil(rr.req.maxTokens, cfg.blockSize))
  {
    var t := State([rr], [], s.generated[rr := 0], s.used);
    assert [] + [rr] == [rr];
    assert Step(cfg, s, AddOp(rr)) == t;
    ScheduledAlone(cfg, t, rr, Ceil(rr.req.maxTokens, cfg.blockSize));
  }

  lemma FinishedAlone(cfg: Limits, s: State, rr: RunningRequest, got: int)
    requires Known(cfg, s) && s.running == [rr] && got == Ceil(s.generated[rr], cfg.blockSize) <= s.used
    ensures Step(cfg, s, FinishOp(rr.req.id)) == s.(running := [], used := s.used - got)
  {
    assert IndexOf(s.running, rr.req.id) == 0;
  }

  /** Added, admitted, `tokens` tokens generated and finished, a request leaves behind the blocks
      it was charged for and did not come to use: what is used is again what it was exactly when
      there are none. Every run of requests with a positive max_tokens is backed. */
  lemma EarlyStopLeaks(cfg: Limits, s: State, rr: RunningRequest, tokens: nat)
    requires Backed(cfg, s) && Servable(cfg, s, rr) && tokens <= rr.req.maxTokens
    ensures var t := Step(cfg, Appended(cfg, Started(cfg, s, rr), rr, tokens), FinishOp(rr.req.id));
            var leak := Ceil(rr.req.maxTokens, cfg.blockSize) - Ceil(tokens, cfg.blockSize);
            Idle(t) && leak >= 0 && t.used == s.used + leak && (t.used == s.used <==> leak == 0)
  {
    var t := Started(cfg, s, rr);
    StartedAlone(cfg, s, rr);
    AppendedTokens(cfg, t, rr, tokens);
    CeilMonotone(tokens, rr.req.maxTokens, cfg.blockSize);
    FinishedAlone(cfg, WithTokens(t, rr, tokens), rr, Ceil(tokens, cfg.blockSize));
  }

  /** The state after the first n of some later calls. */
  function Later(cfg: Limits, s: State, ops: seq<Op>, n: nat): (t: State)
    requires Known(cfg, s) && n <= |ops|
    ensures Known(cfg, t)
  {
    if n == 0 then s else Step(cfg, Later(cfg, s, ops, n - 1), ops[n - 1])
  }

  lemma {:induction false} StaysAbove(cfg: Limits, s: State, ops: seq<Op>, n: nat, base: nat)
    requires BackedAbove(cfg, s, base) && AllPositive(ops) && n <= |ops|
    ensures var ok := BackedAbove(cfg, Later(cfg, s, ops, n), base); ok
  {
    if n > 0 {
      StaysAbove(cfg, s, ops, n - 1, base);
      StepKeepsBacked(cfg, Later(cfg, s, ops, n - 1), ops[n - 1], base);
    }
  }

  /** What is used while nothing runs is never given back, by any later calls. */
  lemma IdleUseIsPermanent(cfg: Limits, s: State, ops: seq<Op>, n: nat)
    requires Backed(cfg, s) && s.running == [] && AllPositive(ops) && n <= |ops|
    ensures Later(cfg, s, ops, n).used >= s.used
  {
    StaysAbove(cfg, s, ops, n, s.used);
    ReservedNonNegative(Later(cfg, s, ops, n).running, cfg.blockSize);
  }

  // ---------------------------------------------------------------- staying within the blocks

  predicate Within(cfg: Limits, s: State) {
    s.used <= cfg.totalBlocks && |s.waiting| + |s.running| <= cfg.maxWaiting
  }

  lemma ReleaseStaysWithin(cfg: Limits, s: State, i: nat)
    requires Known(cfg, s) && Within(cfg, s) && i < |s.running|
    ensures Within(cfg, Release(cfg, s, i)) && |Release(cfg, s, i).running| == |s.running| - 1
  {
    CeilMonotone(0, s.generated[s.running[i]], cfg.blockSize);
  }

  lemma StepStaysWithin(cfg: Limits, s: State, op: Op)
    requires Known(cfg, s) && Within(cfg, s) && (cfg.maxRunning <= 1 || cfg.maxWaiting <= 1)
    ensures Within(cfg, Step(cfg, s, op))
  {
    match op
    case AddOp(rr) =>
    case AppendOp(rr) =>
    case ScheduleOp =>
      var needs, free := Needs(cfg, s), FreeBlocks(cfg, s);
      if cfg.maxRunning <= 1 {
        OnePlaceStaysWithin(s.running, s.waiting, needs, free, cfg.maxRunning, |s.waiting|);
      } else {
        OneWaitingStaysWithin(s.running, s.waiting, needs, free, cfg.maxRunning);
      }
    case FinishOp(id) =>
      if IndexOf(s.running, id) < |s.running| {
        ReleaseStaysWithin(cfg, s, IndexOf(s.running, id));
      }
    case PreemptOp =>
      if s.running != [] {
        ReleaseStaysWithin(cfg, s, Longest(s.running));
      }
  }

  lemma {:induction false} RunStaysWithin(cfg: Limits, ops: seq<Op>, n: nat)
    requires 0 < cfg.blockSize && n <= |ops| && (cfg.maxRunning <= 1 || cfg.maxWaiting <= 1)
    ensures Within(cfg, Run(cfg, ops, n))
  {
    if n > 0 {
      RunStaysWithin(cfg, ops, n - 1);
      StepStaysWithin(cfg, Run(cfg, ops, n - 1), ops[n - 1]);
    }
  }

  /** Two requests that fit one at a time and not together are charged in one call. */
  lemma TwoOvercommit(cfg: Limits, a: RunningRequest, b: RunningRequest, x: int, y: int)
    requires 0 < cfg.blockSize && 1 < cfg.maxRunning && 1 < cfg.maxWaiting && a.req.id != b.req.id
    requires x == Ceil(a.req.maxTokens, cfg.blockSize) <= cfg.totalBlocks
    requires y == Ceil(b.req.maxTokens, cfg.blockSize) <= cfg.totalBlocks
    ensures Run(cfg, [AddOp(a), AddOp(b), ScheduleOp], 3).used == x + y
  {
    var ops := [AddOp(a), AddOp(b), ScheduleOp];
    assert Run(cfg, ops, 0) == EMPTY;
    assert [] + [a] == [a] && [a] + [b] == [a, b];
    assert Run(cfg, ops, 1) == State([a], [], map[a := 0], 0);
    var s := State([a, b], [], map[a := 0][b := 0], 0);
    assert Run(cfg, ops, 2) == s;
    assert Needs(cfg, s) == [x, y];
    ScheduleOvercommits(a, b, x, y, cfg.totalBlocks, cfg.maxRunning);
    ScheduleIs(cfg, s, [a, b], 2, x + y);
  }

  ghost predicate StaysWithin(cfg: Limits, ops: seq<Op>)
    requires 0 < cfg.blockSize
  {
    forall n: nat :: n <= |ops| ==> Run(cfg, ops, n).used <= cfg.totalBlocks
  }

  /** No run uses more blocks than there are exactly when at most one request can run, or at most
      one can be in the scheduler: given two requests that fit one at a time and not together. */
  lemma StaysWithinIff(cfg: Limits, a: RunningRequest, b: RunningRequest)
    requires 0 < cfg.blockSize && a.req.id != b.req.id
    requires Ceil(a.req.maxTokens, cfg.blockSize) <= cfg.totalBlocks
    requires Ceil(b.req.maxTokens, cfg.blockSize) <= cfg.totalBlocks
    requires cfg.totalBlocks < Ceil(a.req.maxTokens, cfg.blockSize) + Ceil(b.req.maxTokens, cfg.blockSize)
    ensures (forall ops: seq<Op> :: StaysWithin(cfg, ops)) <==> cfg.maxRunning <= 1 || cfg.maxWaiting <= 1
  {
    if cfg.maxRunning <= 1 || cfg.maxWaiting <= 1 {
      forall ops: seq<Op> ensures StaysWithin(cfg, ops) {
        forall n: nat | n <= |ops| ensures Run(cfg, ops, n).used <= cfg.totalBlocks {
          RunStaysWithin(cfg, ops, n);
        }
      }
    } else {
      TwoOvercommit(cfg, a, b, Ceil(a.req.maxTokens, cfg.blockSize), Ceil(b.req.maxTokens, cfg.blockSize));
      assert !StaysWithin(cfg, [AddOp(a), AddOp(b), ScheduleOp]);
    }
  }
}
