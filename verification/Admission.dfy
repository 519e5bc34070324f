/** Requests, stop conditions, and what the admission loop of `schedule` does to the queue. */
module Admission {
  import opened Wrappers
  import opened Sequences
  import Arith

  datatype Status = Waiting | Running | Finished | Swapped

  datatype Request = Request(id: string, maxTokens: int, stopSequences: seq<string>, stream: bool)

  datatype Reason = Length | Stop | ToolCall | Abort | Error

  predicate OccursAt(text: string, part: string, i: int) {
    0 <= i <= |text| - |part| && text[i..i + |part|] == part
  }

  predicate Contains(text: string, part: string) {
    exists i :: 0 <= i <= |text| && OccursAt(text, part, i)
  }

  predicate Stops(req: Request, text: string) {
    exists j :: 0 <= j < |req.stopSequences| && req.stopSequences[j] != "" && Contains(text, req.stopSequences[j])
  }

  function StopReason(req: Request, generated: nat, text: string): Option<Reason> {
    if req.maxTokens > 0 && generated >= req.maxTokens then Some(Length)
    else if Stops(req, text) then Some(Stop)
    else None
  }

  /** The text holds a nonempty stop sequence. */
  ghost predicate HoldsStop(req: Request, text: string) {
    exists j, a, b :: 0 <= j < |req.stopSequences| && req.stopSequences[j] != "" &&
      Around(text, a, req.stopSequences[j], b)
  }

  ghost predicate Around(text: string, a: string, part: string, b: string) {
    text == a + part + b
  }

  predicate AtLimit(req: Request, generated: nat) {
    0 < req.maxTokens <= generated
  }

  lemma ContainsIff(text: string, part: string)
    ensures Contains(text, part) <==> exists a, b :: Around(text, a, part, b)
  {
    if Contains(text, part) {
      var i :| 0 <= i <= |text| && OccursAt(text, part, i);
      assert Around(text, text[..i], part, text[i + |part|..]);
    }
    if a, b :| Around(text, a, part, b) {
      assert OccursAt(text, part, |a|);
    }
  }

  /** `should_stop`: the limit first, then any nonempty stop sequence anywhere in the text. */
  lemma StopReasonIs(req: Request, generated: nat, text: string)
    ensures AtLimit(req, generated) ==> StopReason(req, generated, text) == Some(Length)
    ensures !AtLimit(req, generated) && HoldsStop(req, text) ==> StopReason(req, generated, text) == Some(Stop)
    ensures !AtLimit(req, generated) && !HoldsStop(req, text) ==> StopReason(req, generated, text) == None
  {
    if Stops(req, text) {
      var j :| 0 <= j < |req.stopSequences| && req.stopSequences[j] != "" && Contains(text, req.stopSequences[j]);
      ContainsIff(text, req.stopSequences[j]);
      var a, b :| Around(text, a, req.stopSequences[j], b);
      assert HoldsStop(req, text);
    }
    if HoldsStop(req, text) {
      var j, a, b :| 0 <= j < |req.stopSequences| && req.stopSequences[j] != "" &&
        Around(text, a, req.stopSequences[j], b);
      ContainsIff(text, req.stopSequences[j]);
      assert Stops(req, text);
    }
  }

  /** Blocks for a total of n tokens; floor division, as for negative n in the source. */
  function Ceil(n: int, blockSize: nat): int
    requires 0 < blockSize
  {
    (n + blockSize - 1) / blockSize
  }

  /** The least number of blocks that holds this many tokens. */
  predicate LeastBlocks(n: int, tokens: int, blockSize: nat) {
    (n - 1) * blockSize < tokens <= n * blockSize
  }

  lemma CeilIsLeast(tokens: int, blockSize: nat)
    requires 0 < blockSize
    ensures LeastBlocks(Ceil(tokens, blockSize), tokens, blockSize)
  {
    var x, n := tokens + blockSize - 1, Ceil(tokens, blockSize);
    assert x == blockSize * n + x % blockSize;
    assert (n - 1) * blockSize == blockSize * n - blockSize;
  }

  lemma CeilMonotone(a: int, b: int, blockSize: nat)
    requires 0 < blockSize && a <= b
    ensures Ceil(a, blockSize) <= Ceil(b, blockSize)
    ensures a >= 0 ==> Ceil(a, blockSize) >= 0
  {
    var x, y := (a + blockSize - 1) / blockSize, (b + blockSize - 1) / blockSize;
    if y < x {
      Arith.Scale(y + 1, x, blockSize);
    }
  }

  lemma CeilOfOne(n: int, blockSize: nat)
    requires 0 < blockSize && n <= 0
    ensures Ceil(1, blockSize) == 1 && Ceil(n, blockSize) <= 0
  {
    CeilMonotone(n, 0, blockSize);
    Arith.QuotientUnique(blockSize - 1, blockSize, 0, blockSize - 1);
    Arith.QuotientUnique(blockSize, blockSize, 1, 0);
  }

  /** Tokens the generation loop can have appended to a request: bounded only by a positive
      max_tokens. */
  predicate Reachable(generated: nat, maxTokens: int) {
    maxTokens > 0 ==> generated <= maxTokens
  }

  /** The credit at release stays within the charge at admission, for every number of tokens
      the loop can reach, exactly for requests with a positive max_tokens. */
  lemma CreditWithinChargeIff(maxTokens: int, blockSize: nat)
    requires 0 < blockSize
    ensures (forall admitted: nat, generated: nat | Reachable(admitted, maxTokens) && Reachable(generated, maxTokens) ::
              Ceil(generated, blockSize) <= Ceil(admitted + maxTokens, blockSize)) <==> maxTokens > 0
  {
    if maxTokens > 0 {
      forall admitted: nat, generated: nat | Reachable(admitted, maxTokens) && Reachable(generated, maxTokens)
        ensures Ceil(generated, blockSize) <= Ceil(admitted + maxTokens, blockSize)
      {
        CeilMonotone(generated, admitted + maxTokens, blockSize);
      }
    } else {
      CeilOfOne(maxTokens, blockSize);
      assert Reachable(0, maxTokens) && Reachable(1, maxTokens);
      assert Ceil(0 + maxTokens, blockSize) <= 0;
    }
  }

  class RunningRequest {
    const req: Request
    const waitingSince: real
    var status: Status
    var generatedIds: seq<int>
    var generatedText: string

    constructor (req: Request, now: real)
      ensures this.req == req && waitingSince == now
      ensures status == Waiting && generatedIds == [] && generatedText == ""
    {
      this.req, waitingSince := req, now;
      status, generatedIds, generatedText := Waiting, [], "";
    }

    method Append(tokenId: int, text: string)
      modifies `generatedIds, `generatedText
      ensures generatedIds == old(generatedIds) + [tokenId] && generatedText == old(generatedText) + text
    {
      generatedIds := generatedIds + [tokenId];
      generatedText := generatedText + text;
    }

    function ShouldStop(): (r: Option<Reason>)
      reads this
      ensures r == if AtLimit(req, |generatedIds|) then Some(Length)
                   else if HoldsStop(req, generatedText) then Some(Stop) else None
    {
      StopReasonIs(req, |generatedIds|, generatedText);
      StopReason(req, |generatedIds|, generatedText)
    }
  }

  // ---------------------------------------------------------------- the running dict

  /** The running dict is a list in insertion order; the key of an entry is its request id. */
  predicate DistinctIds(rs: seq<RunningRequest>) {
    forall i, j {:trigger rs[i].req.id, rs[j].req.id} :: 0 <= i < j < |rs| ==> rs[i].req.id != rs[j].req.id
  }

  /** The position of a key, or the number of entries. */
  function IndexOf(rs: seq<RunningRequest>, id: string): (i: nat)
    ensures i <= |rs| && (i < |rs| ==> rs[i].req.id == id)
    ensures forall j :: 0 <= j < i ==> rs[j].req.id != id
  {
    IndexFrom(rs, id, 0)
  }

  function IndexFrom(rs: seq<RunningRequest>, id: string, k: nat): (i: nat)
    requires k <= |rs|
    ensures k <= i <= |rs| && (i < |rs| ==> rs[i].req.id == id)
    ensures forall j :: k <= j < i ==> rs[j].req.id != id
    decreases |rs| - k
  {
    if k == |rs| || rs[k].req.id == id then k else IndexFrom(rs, id, k + 1)
  }

  /** `running[id] = rr`. */
  function Put(running: seq<RunningRequest>, rr: RunningRequest): (r: seq<RunningRequest>) {
    var i := IndexOf(running, rr.req.id);
    if i == |running| then running + [rr] else running[i := rr]
  }

  lemma PutKeepsKeys(running: seq<RunningRequest>, rr: RunningRequest)
    requires DistinctIds(running)
    ensures DistinctIds(Put(running, rr))
    ensures forall r :: r in Put(running, rr) ==> r in running || r == rr
  {
  }

  // ---------------------------------------------------------------- the loop of schedule

  /** The running entries and the number popped after i iterations, whatever ids clash and
      whatever does not fit. */
  function Admitted(running: seq<RunningRequest>, queue: seq<RunningRequest>, needs: seq<int>,
                    free: int, capacity: int, i: nat): (r: (seq<RunningRequest>, nat))
    requires |queue| == |needs| && i <= |queue|
    ensures r.1 <= i && |r.0| <= |running| + r.1
  {
    if i == 0 then (running, 0) else
      var (now, popped) := Admitted(running, queue, needs, free, capacity, i - 1);
      if |now| >= capacity || needs[i - 1] > free then (now, popped)
      else (Put(now, queue[i - 1]), popped + 1)
  }

  /** The blocks charged in these iterations: the needs of exactly the admitted requests. */
  function Charged(running: seq<RunningRequest>, queue: seq<RunningRequest>, needs: seq<int>,
                   free: int, capacity: int, i: nat): int
    requires |queue| == |needs| && i <= |queue|
  {
    if i == 0 then 0 else
      var before := Charged(running, queue, needs, free, capacity, i - 1);
      var now := Admitted(running, queue, needs, free, capacity, i - 1).0;
      if |now| >= capacity || needs[i - 1] > free then before else before + needs[i - 1]
  }

  /** One iteration that the `break` does not end. */
  lemma OneMore(running: seq<RunningRequest>, queue: seq<RunningRequest>, needs: seq<int>,
                free: int, capacity: int, i: nat, now: seq<RunningRequest>, popped: nat, charged: int)
    requires |queue| == |needs| && i < |queue| && |now| < capacity
    requires Admitted(running, queue, needs, free, capacity, i) == (now, popped)
    requires Charged(running, queue, needs, free, capacity, i) == charged
    ensures Admitted(running, queue, needs, free, capacity, i + 1) ==
            if needs[i] <= free then (Put(now, queue[i]), popped + 1) else (now, popped)
    ensures Charged(running, queue, needs, free, capacity, i + 1) ==
            if needs[i] <= free then charged + needs[i] else charged
  {
  }

  /** The `break` at a full running set: further iterations would change nothing. */
  lemma {:induction false} FullStaysFull(running: seq<RunningRequest>, queue: seq<RunningRequest>, needs: seq<int>,
                                         free: int, capacity: int, i: nat, k: nat)
    requires |queue| == |needs| && i <= k <= |queue|
    requires |Admitted(running, queue, needs, free, capacity, i).0| >= capacity
    ensures Admitted(running, queue, needs, free, capacity, k) == Admitted(running, queue, needs, free, capacity, i)
    ensures Charged(running, queue, needs, free, capacity, k) == Charged(running, queue, needs, free, capacity, i)
    decreases k
  {
    if k > i {
      FullStaysFull(running, queue, needs, free, capacity, i, k - 1);
      assert |Admitted(running, queue, needs, free, capacity, k - 1).0| >= capacity;
    }
  }

  lemma {:induction false} AdmittedKeys(running: seq<RunningRequest>, queue: seq<RunningRequest>, needs: seq<int>,
                                        free: int, capacity: int, i: nat)
    requires |queue| == |needs| && i <= |queue| && DistinctIds(running)
    ensures var now := Admitted(running, queue, needs, free, capacity, i).0;
            DistinctIds(now) && forall r :: r in now ==> r in running || r in queue
  {
    if i > 0 {
      AdmittedKeys(running, queue, needs, free, capacity, i - 1);
      PutKeepsKeys(Admitted(running, queue, needs, free, capacity, i - 1).0, queue[i - 1]);
    }
  }

  // ---------------------------------------------------------------- what the loop should admit

  /** In queue order, of the first i requests, those that fit into the free count taken once at
      the start, until the running set is full. */
  function Admit(queue: seq<RunningRequest>, needs: seq<int>, free: int, room: int, i: nat): (a: seq<RunningRequest>)
    requires |queue| == |needs| && i <= |queue|
    ensures |a| <= i && (room >= 0 ==> |a| <= room)
  {
    if i == 0 then [] else
      var a := Admit(queue, needs, free, room, i - 1);
      if |a| < room && needs[i - 1] <= free then a + [queue[i - 1]] else a
  }

  lemma {:induction false} AdmitGrows(queue: seq<RunningRequest>, needs: seq<int>, free: int, room: int, i: nat, j: nat)
    requires |queue| == |needs| && i <= j <= |queue|
    ensures Admit(queue, needs, free, room, i) <= Admit(queue, needs, free, room, j)
    decreases j
  {
    if i < j {
      AdmitGrows(queue, needs, free, room, i, j - 1);
    }
  }

  lemma {:induction false} AdmitFits(queue: seq<RunningRequest>, needs: seq<int>, free: int, room: int, n: nat,
                                     x: RunningRequest) returns (i: nat)
    requires |queue| == |needs| && n <= |queue| && x in Admit(queue, needs, free, room, n)
    ensures i < n && queue[i] == x && needs[i] <= free
  {
    if x in Admit(queue, needs, free, room, n - 1) {
      i := AdmitFits(queue, needs, free, room, n - 1, x);
    } else {
      i := n - 1;
    }
  }

  lemma DistinctPrefix(a: seq<RunningRequest>, b: seq<RunningRequest>)
    requires DistinctIds(b) && a <= b
    ensures DistinctIds(a)
  {
    assert forall i :: 0 <= i < |a| ==> a[i] == b[i];
  }

  lemma PutAppends(now: seq<RunningRequest>, rr: RunningRequest)
    requires DistinctIds(now + [rr])
    ensures Put(now, rr) == now + [rr]
  {
    var all := now + [rr];
    forall i | 0 <= i < |now| ensures now[i].req.id != rr.req.id {
      assert all[i] == now[i] && all[|now|] == rr;
    }
  }

  lemma PutGrew(now: seq<RunningRequest>, rr: RunningRequest)
    ensures |Put(now, rr)| <= |now| + 1
    ensures |Put(now, rr)| == |now| + 1 ==> Put(now, rr) == now + [rr]
  {
  }

  /** Without clashing ids among the admitted and the running the loop appends exactly what it
      should admit, and pops as many. */
  lemma {:induction false} AdmittedIsAdmit(running: seq<RunningRequest>, queue: seq<RunningRequest>, needs: seq<int>,
                                           free: int, capacity: int, i: nat)
    requires |queue| == |needs| && i <= |queue|
    requires DistinctIds(running + Admit(queue, needs, free, capacity - |running|, i))
    ensures var a := Admit(queue, needs, free, capacity - |running|, i);
            Admitted(running, queue, needs, free, capacity, i) == (running + a, |a|)
  {
    var room := capacity - |running|;
    var a := Admit(queue, needs, free, room, i);
    if i > 0 {
      var b := Admit(queue, needs, free, room, i - 1);
      assert running + b <= running + a;
      DistinctPrefix(running + b, running + a);
      AdmittedIsAdmit(running, queue, needs, free, capacity, i - 1);
      if |b| < room && needs[i - 1] <= free {
        assert running + a == (running + b) + [queue[i - 1]];
        PutAppends(running + b, queue[i - 1]);
      }
    } else {
      assert running + a == running;
    }
  }

  /** And conversely: as many entries more as were popped means that nothing was replaced. */
  lemma {:induction false} NothingReplaced(running: seq<RunningRequest>, queue: seq<RunningRequest>, needs: seq<int>,
                                           free: int, capacity: int, i: nat)
    requires |queue| == |needs| && i <= |queue|
    requires var (now, popped) := Admitted(running, queue, needs, free, capacity, i); |now| == |running| + popped
    ensures var a := Admit(queue, needs, free, capacity - |running|, i);
            Admitted(running, queue, needs, free, capacity, i) == (running + a, |a|)
  {
    var room := capacity - |running|;
    if i > 0 {
      var (now, popped) := Admitted(running, queue, needs, free, capacity, i - 1);
      var q := queue[i - 1];
      PutGrew(now, q);
      NothingReplaced(running, queue, needs, free, capacity, i - 1);
      var b := Admit(queue, needs, free, room, i - 1);
      Reassociate(running, b, [q]);
    } else {
      assert running + [] == running;
    }
  }

  // ---------------------------------------------------------------- when nothing is lost

  /** Nothing is lost and nothing duplicated: what runs and waits afterwards is what ran and
      waited before. */
  ghost predicate Conserves(running: seq<RunningRequest>, queue: seq<RunningRequest>, needs: seq<int>,
                            free: int, capacity: int)
    requires |queue| == |needs|
  {
    var (now, popped) := Admitted(running, queue, needs, free, capacity, |queue|);
    multiset(now) + multiset(queue[popped..]) == multiset(running) + multiset(queue)
  }

  /** Among the first `room` places no request that does not fit stands before one that does. */
  predicate Orderly(queue: seq<RunningRequest>, needs: seq<int>, free: int, room: int)
    requires |queue| == |needs|
  {
    forall i, j :: 0 <= i < j < |queue| && i < room && needs[i] > free ==> needs[j] > free
  }

  /** Those among the first `room` places that fit have ids of their own. */
  predicate Unclashed(running: seq<RunningRequest>, queue: seq<RunningRequest>, needs: seq<int>, free: int, room: int)
    requires |queue| == |needs|
  {
    (forall i, k :: 0 <= i < |queue| && i < room && needs[i] <= free && 0 <= k < |running| ==>
      running[k].req.id != queue[i].req.id) &&
    (forall i, j :: 0 <= j < i < |queue| && i < room && needs[i] <= free && needs[j] <= free ==>
      queue[j].req.id != queue[i].req.id)
  }

  /** On an orderly queue the admitted are its head, up to the first that does not fit. */
  lemma {:induction false} OrderlyAdmitsHead(queue: seq<RunningRequest>, needs: seq<int>, free: int, room: int, i: nat)
    returns (k: nat)
    requires |queue| == |needs| && i <= |queue| && room >= 0 && Orderly(queue, needs, free, room)
    ensures k <= i && k <= room && Admit(queue, needs, free, room, i) == queue[..k]
    ensures forall j :: 0 <= j < k ==> needs[j] <= free
    ensures k < i ==> k >= room || needs[k] > free
    decreases i
  {
    if i == 0 {
      k := 0;
    } else {
      k := OrderlyAdmitsHead(queue, needs, free, room, i - 1);
      if k < room && needs[i - 1] <= free {
        assert queue[..k] + [queue[k]] == queue[..k + 1];
        k := k + 1;
      }
    }
  }

  /** While everything fits, the head is admitted. */
  lemma {:induction false} FittingHeadAdmitted(queue: seq<RunningRequest>, needs: seq<int>, free: int, room: int,
                                               i: nat)
    requires |queue| == |needs| && i <= |queue| && i <= room && forall j :: 0 <= j < i ==> needs[j] <= free
    ensures Admit(queue, needs, free, room, i) == queue[..i]
    decreases i
  {
    if i > 0 {
      FittingHeadAdmitted(queue, needs, free, room, i - 1);
      assert queue[..i - 1] + [queue[i - 1]] == queue[..i];
    }
  }

  /** When exactly the first k are admitted, no other that fits stands where there is room. */
  lemma NoneAfterHead(queue: seq<RunningRequest>, needs: seq<int>, free: int, room: int, k: nat, j: nat)
    requires |queue| == |needs| && k <= j < |queue| && k < room
    requires |Admit(queue, needs, free, room, |queue|)| == k && forall i :: 0 <= i < k ==> needs[i] <= free
    ensures needs[j] > free
  {
    FittingHeadAdmitted(queue, needs, free, room, k);
    AdmitGrows(queue, needs, free, room, k, j);
    AdmitGrows(queue, needs, free, room, j + 1, |queue|);
  }

  lemma Cancel<T>(a: multiset<T>, b: multiset<T>, c: multiset<T>)
    requires a + c == b + c
    ensures a == b
  {
    forall x ensures a[x] == b[x] {
      assert (a + c)[x] == (b + c)[x];
    }
  }

  lemma CancelFront<T>(r: multiset<T>, a: multiset<T>, b: multiset<T>, all: multiset<T>)
    requires (r + a) + b == r + all
    ensures a + b == all
  {
    forall x ensures (a + b)[x] == all[x] {
      assert ((r + a) + b)[x] == (r + all)[x];
    }
  }

  lemma SameElements(a: seq<RunningRequest>, queue: seq<RunningRequest>)
    requires |a| <= |queue| && multiset(a) + multiset(queue[|a|..]) == multiset(queue)
    ensures multiset(a) == multiset(queue[..|a|])
  {
    var k := |a|;
    assert queue == queue[..k] + queue[k..];
    assert multiset(queue) == multiset(queue[..k]) + multiset(queue[k..]);
    Cancel(multiset(a), multiset(queue[..k]), multiset(queue[k..]));
  }

  /** Conservation of the whole, without the part that ran before. */
  lemma ConservingAdmit(running: seq<RunningRequest>, queue: seq<RunningRequest>, needs: seq<int>,
                        free: int, capacity: int)
    requires |queue| == |needs| && Conserves(running, queue, needs, free, capacity)
    ensures var a := Admit(queue, needs, free, capacity - |running|, |queue|);
            Admitted(running, queue, needs, free, capacity, |queue|) == (running + a, |a|) &&
            multiset(a) == multiset(queue[..|a|])
  {
    var n := |queue|;
    var (now, popped) := Admitted(running, queue, needs, free, capacity, n);
    assert |multiset(now) + multiset(queue[popped..])| == |now| + n - popped;
    assert |multiset(running) + multiset(queue)| == |running| + n;
    NothingReplaced(running, queue, needs, free, capacity, n);
    var a := Admit(queue, needs, free, capacity - |running|, |queue|);
    assert multiset(now) == multiset(running) + multiset(a);
    CancelFront(multiset(running), multiset(a), multiset(queue[popped..]), multiset(queue));
    SameElements(a, queue);
  }

  lemma Conserving(running: seq<RunningRequest>, queue: seq<RunningRequest>, needs: seq<int>,
                                      free: int, capacity: int) returns (k: nat)
    requires |queue| == |needs| && DistinctIds(running) && |running| <= capacity
    requires forall i, j :: 0 <= i < |queue| && 0 <= j < |queue| && queue[i] == queue[j] ==> needs[i] == needs[j]
    requires Conserves(running, queue, needs, free, capacity)
    ensures k <= |queue| && k <= capacity - |running| && |Admit(queue, needs, free, capacity - |running|, |queue|)| == k
    ensures forall i :: 0 <= i < k ==> needs[i] <= free
    ensures DistinctIds(running + queue[..k])
  {
    var n, room := |queue|, capacity - |running|;
    ConservingAdmit(running, queue, needs, free, capacity);
    var a := Admit(queue, needs, free, room, |queue|);
    k := |a|;
    forall i | 0 <= i < k ensures needs[i] <= free {
      assert queue[..k][i] == queue[i] && queue[i] in multiset(queue[..k]);
      var j := AdmitFits(queue, needs, free, room, n, queue[i]);
    }
    FittingHeadAdmitted(queue, needs, free, room, k);
    AdmitGrows(queue, needs, free, room, k, n);
    AdmittedKeys(running, queue, needs, free, capacity, n);
    assert a == queue[..k];
  }

  lemma HeadUnclashed(running: seq<RunningRequest>, queue: seq<RunningRequest>, needs: seq<int>, free: int, room: int,
                      k: nat)
    requires |queue| == |needs| && k <= |queue| && k <= room && DistinctIds(running + queue[..k])
    requires |Admit(queue, needs, free, room, |queue|)| == k && forall i :: 0 <= i < k ==> needs[i] <= free
    ensures Unclashed(running, queue, needs, free, room)
  {
    var all, r := running + queue[..k], |running|;
    forall i: nat | i < |queue| && i < room && needs[i] <= free ensures i < k && all[r + i] == queue[i] {
      if i >= k {
        NoneAfterHead(queue, needs, free, room, k, i);
      }
    }
    forall i, j | 0 <= j < i < |queue| && i < room && needs[i] <= free && needs[j] <= free
      ensures queue[j].req.id != queue[i].req.id
    {
      assert all[r + j] == queue[j] && all[r + i] == queue[i];
    }
    forall i, m | 0 <= i < |queue| && i < room && needs[i] <= free && 0 <= m < r
      ensures running[m].req.id != queue[i].req.id
    {
      assert all[m] == running[m] && all[r + i] == queue[i];
    }
  }

  lemma HeadDistinct(running: seq<RunningRequest>, queue: seq<RunningRequest>, needs: seq<int>, free: int, room: int,
                     k: nat)
    requires |queue| == |needs| && k <= |queue| && k <= room && DistinctIds(running)
    requires Unclashed(running, queue, needs, free, room) && forall i :: 0 <= i < k ==> needs[i] <= free
    ensures DistinctIds(running + queue[..k])
  {
    var all, r := running + queue[..k], |running|;
    forall i, j | 0 <= i < j < |all| ensures all[i].req.id != all[j].req.id {
      if j >= r {
        assert all[j] == queue[j - r];
        if i >= r {
          assert all[i] == queue[i - r];
        }
      }
    }
  }

  lemma ConservesOnlyIf(running: seq<RunningRequest>, queue: seq<RunningRequest>, needs: seq<int>, free: int,
                        capacity: int, room: int)
    requires |queue| == |needs| && DistinctIds(running) && |running| <= capacity && room == capacity - |running|
    requires forall i, j :: 0 <= i < |queue| && 0 <= j < |queue| && queue[i] == queue[j] ==> needs[i] == needs[j]
    requires Conserves(running, queue, needs, free, capacity)
    ensures Orderly(queue, needs, free, room) && Unclashed(running, queue, needs, free, room)
  {
    var k := Conserving(running, queue, needs, free, capacity);
    forall i, j | 0 <= i < j < |queue| && i < room && needs[i] > free ensures needs[j] > free {
      NoneAfterHead(queue, needs, free, room, k, j);
    }
    HeadUnclashed(running, queue, needs, free, room, k);
  }

  lemma MovedHead(running: seq<RunningRequest>, queue: seq<RunningRequest>, k: nat)
    requires k <= |queue|
    ensures multiset(running + queue[..k]) + multiset(queue[k..]) == multiset(running) + multiset(queue)
  {
    assert queue == queue[..k] + queue[k..];
  }

  lemma ConservesIfOrderly(running: seq<RunningRequest>, queue: seq<RunningRequest>, needs: seq<int>, free: int,
                           capacity: int, room: int)
    requires |queue| == |needs| && DistinctIds(running) && |running| <= capacity && room == capacity - |running|
    requires Orderly(queue, needs, free, room) && Unclashed(running, queue, needs, free, room)
    ensures Conserves(running, queue, needs, free, capacity)
  {
    var k := OrderlyAdmitsHead(queue, needs, free, room, |queue|);
    HeadDistinct(running, queue, needs, free, room, k);
    AdmittedIsAdmit(running, queue, needs, free, capacity, |queue|);
    MovedHead(running, queue, k);
  }

  /** `schedule` loses and duplicates nothing exactly when, among the places there is room for,
      no request that does not fit stands before one that does, and no id is in use twice. */
  lemma ConservesIff(running: seq<RunningRequest>, queue: seq<RunningRequest>, needs: seq<int>, free: int,
                     capacity: int)
    requires |queue| == |needs| && DistinctIds(running) && |running| <= capacity
    requires forall i, j :: 0 <= i < |queue| && 0 <= j < |queue| && queue[i] == queue[j] ==> needs[i] == needs[j]
    ensures Conserves(running, queue, needs, free, capacity) <==>
            Orderly(queue, needs, free, capacity - |running|) &&
            Unclashed(running, queue, needs, free, capacity - |running|)
  {
    var room := capacity - |running|;
    if Conserves(running, queue, needs, free, capacity) {
      ConservesOnlyIf(running, queue, needs, free, capacity, room);
    }
    if Orderly(queue, needs, free, room) && Unclashed(running, queue, needs, free, room) {
      ConservesIfOrderly(running, queue, needs, free, capacity, room);
    }
  }

  /** When every waiting request fits and no id is in use twice, one call moves exactly the first
      min(waiting, free places) requests, in order. */
  lemma ScheduleTakesTheHead(running: seq<RunningRequest>, queue: seq<RunningRequest>, needs: seq<int>,
                             free: int, capacity: int)
    requires |queue| == |needs| && |running| <= capacity
    requires forall i :: 0 <= i < |needs| ==> needs[i] <= free
    requires var k := if |queue| < capacity - |running| then |queue| else capacity - |running|;
             DistinctIds(running + queue[..k])
    ensures var k := if |queue| < capacity - |running| then |queue| else capacity - |running|;
            Admitted(running, queue, needs, free, capacity, |queue|) == (running + queue[..k], k)
  {
    var k := OrderlyAdmitsHead(queue, needs, free, capacity - |running|, |queue|);
    AdmittedIsAdmit(running, queue, needs, free, capacity, |queue|);
  }

  /** A request that does not fit ahead of one that does: it is popped in the other's place and
      lost, and the other one is queued and running, so the next call meets its id twice. */
  lemma UnfitHeadIsLost(big: RunningRequest, small: RunningRequest, free: int, capacity: int)
    requires big != small && capacity > 0
    ensures Admitted([], [big, small], [free + 1, free], free, capacity, 2) == ([small], 1)
    ensures [big, small][1..] == [small] && !Unclashed([small], [small], [free], free, 1)
    ensures !Conserves([], [big, small], [free + 1, free], free, capacity)
  {
    assert Admitted([], [big, small], [free + 1, free], free, capacity, 0) == ([], 0);
    assert Admitted([], [big, small], [free + 1, free], free, capacity, 1) == ([], 0);
    assert [] + [small] == [small];
    assert [small][0].req.id == small.req.id;
    assert multiset([small]) + multiset([small]) != multiset([]) + multiset([big, small]) by {
      assert (multiset([small]) + multiset([small]))[big] == 0;
    }
  }

  /** A queued request with the id of a running one replaces it; the running one is lost. */
  lemma ClashingEntryIsLost(old': RunningRequest, new': RunningRequest, need: int, free: int)
    requires old' != new' && old'.req.id == new'.req.id && need <= free
    ensures Admitted([old'], [new'], [need], free, 2, 1) == ([new'], 1)
    ensures Orderly([new'], [need], free, 1) && !Conserves([old'], [new'], [need], free, 2)
  {
    assert Admitted([old'], [new'], [need], free, 2, 0) == ([old'], 0);
    assert [old'][0 := new'] == [new'];
    assert multiset([new']) + multiset([new'][1..]) != multiset([old']) + multiset([new']) by {
      assert (multiset([new']) + multiset([new'][1..]))[old'] == 0;
    }
  }

  /** Because `free` is read once, two requests that fit one at a time are both admitted. */
  lemma ScheduleOvercommits(a: RunningRequest, b: RunningRequest, x: int, y: int, free: int, capacity: int)
    requires a.req.id != b.req.id && x <= free && y <= free && capacity > 1
    ensures Admitted([], [a, b], [x, y], free, capacity, 2) == ([a, b], 2)
    ensures Charged([], [a, b], [x, y], free, capacity, 2) == x + y
  {
    assert Admitted([], [a, b], [x, y], free, capacity, 0) == ([], 0);
    assert [] + [a] == [a];
    assert Admitted([], [a, b], [x, y], free, capacity, 1) == ([a], 1);
    assert Charged([], [a, b], [x, y], free, capacity, 1) == x;
    assert [a][0].req.id == a.req.id;
    assert [a] + [b] == [a, b];
  }

  /** Into at most one place no more is charged than is free. */
  lemma {:induction false} OnePlaceStaysWithin(running: seq<RunningRequest>, queue: seq<RunningRequest>,
                                               needs: seq<int>, free: int, capacity: int, i: nat)
    requires |queue| == |needs| && i <= |queue| && free >= 0 && capacity <= 1
    ensures Charged(running, queue, needs, free, capacity, i) <= free
    ensures |Admitted(running, queue, needs, free, capacity, i).0| < capacity ==>
              Charged(running, queue, needs, free, capacity, i) == 0
  {
    if i > 0 {
      OnePlaceStaysWithin(running, queue, needs, free, capacity, i - 1);
    }
  }

  /** Nor from a queue of at most one. */
  lemma OneWaitingStaysWithin(running: seq<RunningRequest>, queue: seq<RunningRequest>, needs: seq<int>, free: int,
                              capacity: int)
    requires |queue| == |needs| <= 1 && free >= 0
    ensures Charged(running, queue, needs, free, capacity, |queue|) <= free
  {
    assert Charged(running, queue, needs, free, capacity, 0) == 0;
  }
}
