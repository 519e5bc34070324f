/** The token loop over the scheduler and the paged cache. Tokenizer, backend, sampler and the
    abort flag are functions of the number of tokens generated so far. */
module Generation {
  import opened Sequences
  import opened Wrappers
  import opened Admission
  import opened Scheduler
  import Ledger
  import KvCache
  import PagedKVCache

  const SAFETY_CAP := 4096
  const INITIAL_COVERAGE := 16

  datatype Env = Env(
    promptTokens: nat,
    token: nat -> int,
    decode: int -> string,
    aborted: nat -> bool,
    hasTools: bool,
    callsTool: string -> bool)

  datatype TokenOutput = TokenOutput(text: string, tokenId: Option<int>, finish: Option<Reason>,
                                     completion: Option<nat>)

  function Text(env: Env, n: nat): string {
    if n == 0 then "" else Text(env, n - 1) + env.decode(env.token(n - 1))
  }

  /** The finish reason after the n-th token: a tool call overrides the stop conditions. */
  function FinishAfter(env: Env, req: Request, n: nat): (r: Option<Reason>)
    ensures req.maxTokens > 0 && n >= req.maxTokens ==> r.Some?
  {
    if env.hasTools && n > 2 && env.callsTool(Text(env, n)) then Some(ToolCall) else StopReason(req, n, Text(env, n))
  }

  /** Iteration n of the loop does not go on to the next one. */
  predicate EndsAt(env: Env, req: Request, n: nat) {
    env.aborted(n) || FinishAfter(env, req, n + 1).Some? || (!req.stream && n + 1 >= SAFETY_CAP)
  }

  ghost predicate Ends(env: Env, req: Request) {
    exists n: nat :: EndsAt(env, req, n)
  }

  /** The loop ends whatever the model, the stop texts and the caller do, exactly for requests
      with a positive max_tokens or without streaming. */
  lemma LoopEndsIff(maxTokens: int, stream: bool)
    ensures (forall env: Env, req: Request | req.maxTokens == maxTokens && req.stream == stream :: Ends(env, req)) <==>
            maxTokens > 0 || !stream
  {
    if maxTokens > 0 || !stream {
      forall env: Env, req: Request | req.maxTokens == maxTokens && req.stream == stream
        ensures Ends(env, req)
      {
        var n := if maxTokens > 0 then maxTokens - 1 else SAFETY_CAP - 1;
        assert EndsAt(env, req, n);
      }
    } else {
      var env := Env(1, _ => 0, _ => "x", _ => false, false, _ => false);
      var req := Request("r", maxTokens, [], stream);
      forall n: nat ensures !EndsAt(env, req, n) {
        assert FinishAfter(env, req, n + 1) == StopReason(req, n + 1, Text(env, n + 1));
      }
      assert !Ends(env, req);
    }
  }

  /** Some iteration from n on ends the stream. */
  ghost predicate EndsFrom(env: Env, req: Request, n: nat) {
    exists k: nat :: k >= n && EndsAt(env, req, k)
  }

  ghost function Scan(env: Env, req: Request, n: nat, e: nat): (k: nat)
    requires n <= e && EndsAt(env, req, e)
    ensures n <= k <= e && EndsAt(env, req, k) && forall j :: n <= j < k ==> !EndsAt(env, req, j)
    decreases e - n
  {
    if EndsAt(env, req, n) then n else Scan(env, req, n + 1, e)
  }

  ghost function FirstEnd(env: Env, req: Request, n: nat): (k: nat)
    requires EndsFrom(env, req, n)
    ensures n <= k && EndsAt(env, req, k) && forall j :: n <= j < k ==> !EndsAt(env, req, j)
  {
    var e: nat :| e >= n && EndsAt(env, req, e);
    Scan(env, req, n, e)
  }

  lemma NextEnd(env: Env, req: Request, n: nat)
    requires EndsFrom(env, req, n) && !EndsAt(env, req, n)
    ensures EndsFrom(env, req, n + 1) && FirstEnd(env, req, n + 1) == FirstEnd(env, req, n)
  {
    var k := FirstEnd(env, req, n);
    assert k >= n + 1 && EndsAt(env, req, k);
    var m := FirstEnd(env, req, n + 1);
    assert m <= k <= m;
  }

  /** Where the loop can be after n tokens, when it ends at all. */
  ghost predicate Going(env: Env, req: Request, n: nat) {
    EndsFrom(env, req, n) && (req.maxTokens > 0 ==> n < req.maxTokens) && (!req.stream ==> n < SAFETY_CAP)
  }

  lemma GoesOn(env: Env, req: Request, n: nat)
    requires Going(env, req, n) && !EndsAt(env, req, n)
    ensures Going(env, req, n + 1) && FirstEnd(env, req, n + 1) == FirstEnd(env, req, n)
  {
    NextEnd(env, req, n);
  }

  /** What iteration n yields. */
  function Iteration(env: Env, req: Request, n: nat): (outs: seq<TokenOutput>)
    ensures outs != [] && (!EndsAt(env, req, n) ==> |outs| == 1)
  {
    if env.aborted(n) then [TokenOutput("", None, Some(Abort), Some(n))]
    else
      var tok := env.token(n);
      var finish := FinishAfter(env, req, n + 1);
      var out := TokenOutput(env.decode(tok), Some(tok), finish, Some(n + 1));
      if finish.None? && !req.stream && n + 1 >= SAFETY_CAP
      then [out, TokenOutput("", None, Some(Length), None)]
      else [out]
  }

  /** The outputs from iteration n on. */
  ghost function Stream(env: Env, req: Request, n: nat): (outs: seq<TokenOutput>)
    requires EndsFrom(env, req, n)
    ensures outs != []
    decreases FirstEnd(env, req, n) - n
  {
    if EndsAt(env, req, n) then Iteration(env, req, n) else
      NextEnd(env, req, n);
      Iteration(env, req, n) + Stream(env, req, n + 1)
  }

  predicate CallsTool(env: Env, n: nat) {
    env.hasTools && n > 2 && env.callsTool(Text(env, n))
  }

  /** The reason given after n tokens: a tool call, else the limit, else a stop sequence in the
      text so far. */
  ghost predicate Why(env: Env, req: Request, n: nat, reason: Reason) {
    if CallsTool(env, n) then reason == ToolCall
    else if AtLimit(req, n) then reason == Length
    else HoldsStop(req, Text(env, n)) && reason == Stop
  }

  ghost predicate NoReason(env: Env, req: Request, n: nat) {
    !CallsTool(env, n) && !AtLimit(req, n) && !HoldsStop(req, Text(env, n))
  }

  lemma FinishAfterIs(env: Env, req: Request, n: nat)
    ensures var f := FinishAfter(env, req, n); if f.Some? then Why(env, req, n, f.value) else NoReason(env, req, n)
  {
    StopReasonIs(req, n, Text(env, n));
  }

  predicate InCap(req: Request, n: nat) {
    req.stream || n < SAFETY_CAP
  }

  /** Token n with its text, and no reason. */
  predicate IsToken(env: Env, out: TokenOutput, n: nat) {
    out == TokenOutput(env.decode(env.token(n)), Some(env.token(n)), None, Some(n + 1))
  }

  /** The output of an iteration after n tokens that is not the last. */
  ghost predicate Passed(env: Env, req: Request, out: TokenOutput, n: nat) {
    IsToken(env, out, n) && !env.aborted(n) && NoReason(env, req, n + 1)
  }

  /** The final output after n tokens: one more token and its reason, or the cap, or the abort. */
  ghost predicate IsLast(env: Env, req: Request, last: TokenOutput, n: nat) {
    if last.tokenId.Some? then
      InCap(req, n) && !env.aborted(n) && last.finish.Some? && Why(env, req, n + 1, last.finish.value) &&
      last == TokenOutput(env.decode(env.token(n)), Some(env.token(n)), last.finish, Some(n + 1))
    else if !InCap(req, n) then n == SAFETY_CAP && last == TokenOutput("", None, Some(Length), None)
    else env.aborted(n) && last == TokenOutput("", None, Some(Abort), Some(n))
  }

  /** The number of tokens appended. */
  function Appended(outs: seq<TokenOutput>): nat {
    if outs == [] then 0 else (if outs[0].tokenId.Some? then 1 else 0) + Appended(outs[1..])
  }

  lemma IterationAppends(env: Env, req: Request, n: nat)
    ensures Appended(Iteration(env, req, n)) == if env.aborted(n) then 0 else 1
  {
    var first := Iteration(env, req, n);
    if |first| == 1 {
      assert first[1..] == [];
    } else {
      assert first[1..][0].tokenId == None && first[1..][1..] == [];
      assert Appended(first[1..]) == 0;
    }
  }

  /** One more iteration, seen from the whole stream. */
  lemma StreamStep(env: Env, req: Request, n: nat, outs: seq<TokenOutput>)
    requires Going(env, req, n)
    ensures !EndsAt(env, req, n) ==> Going(env, req, n + 1)
    ensures var more := outs + Iteration(env, req, n);
            Appended(more) == Appended(outs) + (if env.aborted(n) then 0 else 1) &&
            outs + Stream(env, req, n) == if EndsAt(env, req, n) then more else more + Stream(env, req, n + 1)
  {
    AppendedConcat(outs, Iteration(env, req, n));
    IterationAppends(env, req, n);
    if !EndsAt(env, req, n) {
      GoesOn(env, req, n);
      var first, rest := Iteration(env, req, n), Stream(env, req, n + 1);
      assert outs + (first + rest) == (outs + first) + rest;
    }
  }

  /** The shape of a whole stream that starts after n tokens. */
  ghost predicate WellEnded(env: Env, req: Request, outs: seq<TokenOutput>, n: nat) {
    outs != [] && (forall i :: 0 <= i < |outs| - 1 ==> Passed(env, req, outs[i], n + i)) &&
    (|outs| > 2 ==> InCap(req, n + |outs| - 2)) && IsLast(env, req, outs[|outs| - 1], n + |outs| - 1)
  }

  lemma LastIteration(env: Env, req: Request, n: nat)
    requires Going(env, req, n) && EndsAt(env, req, n)
    ensures WellEnded(env, req, Iteration(env, req, n), n)
  {
    FinishAfterIs(env, req, n + 1);
  }

  lemma MiddleIteration(env: Env, req: Request, n: nat)
    requires !EndsAt(env, req, n)
    ensures var outs := Iteration(env, req, n);
            outs == [outs[0]] && Passed(env, req, outs[0], n) && InCap(req, n + 1)
  {
    FinishAfterIs(env, req, n + 1);
  }

  lemma TokenBefore(env: Env, req: Request, out: TokenOutput, rest: seq<TokenOutput>, n: nat)
    requires Passed(env, req, out, n) && InCap(req, n + 1) && WellEnded(env, req, rest, n + 1)
    ensures WellEnded(env, req, [out] + rest, n)
  {
    var outs := [out] + rest;
    forall i | 0 <= i < |outs| - 1 ensures Passed(env, req, outs[i], n + i) {
      if i > 0 {
        assert outs[i] == rest[i - 1] && Passed(env, req, rest[i - 1], n + 1 + (i - 1));
      }
    }
  }

  /** Exactly one output has a finish reason, and it is the last, with the reason that applies;
      every earlier output carries the next sampled token with its text and the count so far, and
      nothing applied after it. */
  lemma {:induction false} OneFinishAndItIsLast(env: Env, req: Request, n: nat)
    requires Going(env, req, n)
    ensures WellEnded(env, req, Stream(env, req, n), n)
    decreases FirstEnd(env, req, n) - n
  {
    if EndsAt(env, req, n) {
      LastIteration(env, req, n);
    } else {
      GoesOn(env, req, n);
      OneFinishAndItIsLast(env, req, n + 1);
      MiddleIteration(env, req, n);
      var out, rest := Iteration(env, req, n)[0], Stream(env, req, n + 1);
      TokenBefore(env, req, out, rest, n);
      assert Stream(env, req, n) == [out] + rest;
    }
  }

  lemma {:induction false} TokensBounded(env: Env, req: Request, n: nat)
    requires Going(env, req, n)
    ensures var a := Appended(Stream(env, req, n));
            (req.maxTokens > 0 ==> n + a <= req.maxTokens) && (!req.stream ==> n + a <= SAFETY_CAP)
    decreases FirstEnd(env, req, n) - n
  {
    IterationAppends(env, req, n);
    if !EndsAt(env, req, n) {
      GoesOn(env, req, n);
      AppendedConcat(Iteration(env, req, n), Stream(env, req, n + 1));
      TokensBounded(env, req, n + 1);
    }
  }

  lemma {:induction false} AppendedConcat(a: seq<TokenOutput>, b: seq<TokenOutput>)
    ensures Appended(a + b) == Appended(a) + Appended(b)
  {
    if a == [] {
      assert a + b == b;
    } else {
      assert (a + b)[1..] == a[1..] + b;
      AppendedConcat(a[1..], b);
    }
  }

  // ---------------------------------------------------------------- where a stream ends

  lemma {:induction false} AppendedTokens(env: Env, req: Request, outs: seq<TokenOutput>, n: nat)
    requires WellEnded(env, req, outs, n)
    ensures Appended(outs) == if outs[|outs| - 1].tokenId.Some? then |outs| else |outs| - 1
    decreases |outs|
  {
    var rest := outs[1..];
    if rest != [] {
      assert Passed(env, req, outs[0], n + 0);
      forall i | 0 <= i < |rest| - 1 ensures Passed(env, req, rest[i], n + 1 + i) {
        assert Passed(env, req, outs[i + 1], n + (i + 1));
      }
      AppendedTokens(env, req, rest, n + 1);
    }
  }

  ghost predicate Undisturbed(env: Env) {
    !env.hasTools && forall n: nat :: !env.aborted(n)
  }

  /** After n tokens the text holds a stop sequence, or the limit is reached. */
  ghost predicate Enough(env: Env, req: Request, n: nat) {
    HoldsStop(req, Text(env, n)) || AtLimit(req, n)
  }

  lemma ReasonIff(env: Env, req: Request, n: nat)
    requires Undisturbed(env)
    ensures NoReason(env, req, n) <==> !Enough(env, req, n)
    ensures forall reason ::
              Why(env, req, n, reason) <==> Enough(env, req, n) && reason == if AtLimit(req, n) then Length else Stop
    ensures n > 0 ==> (EndsAt(env, req, n - 1) <==> Enough(env, req, n) || !InCap(req, n))
  {
    FinishAfterIs(env, req, n);
    assert n > 0 ==> !env.aborted(n - 1);
  }

  lemma StreamIsWellEnded(env: Env, req: Request, k: nat)
    requires 0 < k && EndsAt(env, req, k - 1)
    ensures EndsFrom(env, req, 0) && WellEnded(env, req, Stream(env, req, 0), 0)
  {
    OneFinishAndItIsLast(env, req, 0);
  }

  /** Of an undisturbed stream: every output but the last is the next token, before anything is
      enough; and what the last one is. */
  lemma UndisturbedStream(env: Env, req: Request, outs: seq<TokenOutput>)
    requires Undisturbed(env) && WellEnded(env, req, outs, 0)
    ensures forall i: nat :: i < |outs| - 1 ==> IsToken(env, outs[i], i)
    ensures forall i: nat :: 0 < i < |outs| ==> !Enough(env, req, i)
    ensures |outs| > 2 ==> InCap(req, |outs| - 2)
    ensures var n, last := |outs| - 1, outs[|outs| - 1];
            if last.tokenId.Some? then
              InCap(req, n) && Enough(env, req, n + 1) &&
              last == TokenOutput(env.decode(env.token(n)), Some(env.token(n)),
                                  Some(if AtLimit(req, n + 1) then Length else Stop), Some(n + 1))
            else n == SAFETY_CAP && !req.stream && last == TokenOutput("", None, Some(Length), None)
  {
    forall i: nat | i < |outs| - 1 ensures IsToken(env, outs[i], i) {
      assert Passed(env, req, outs[i], 0 + i);
    }
    forall i: nat | 0 < i < |outs| ensures !Enough(env, req, i) {
      assert Passed(env, req, outs[i - 1], 0 + (i - 1));
      ReasonIff(env, req, i);
    }
    var n := |outs| - 1;
    assert IsLast(env, req, outs[n], 0 + n) && !env.aborted(n);
    ReasonIff(env, req, n + 1);
  }

  lemma EndsWithTheFirst(env: Env, req: Request, outs: seq<TokenOutput>, k: nat)
    requires Undisturbed(env) && WellEnded(env, req, outs, 0) && 0 < k && Enough(env, req, k)
    requires (req.stream || k <= 4096) && forall i: nat :: 0 < i < k ==> !Enough(env, req, i)
    ensures |outs| == k && (forall i: nat :: i < k - 1 ==> IsToken(env, outs[i], i))
    ensures outs[k - 1] == TokenOutput(env.decode(env.token(k - 1)), Some(env.token(k - 1)),
                                       Some(if AtLimit(req, k) then Length else Stop), Some(k))
  {
    UndisturbedStream(env, req, outs);
    assert |outs| <= k;
  }

  /** Without tool calls and aborts a stream ends with the first token after which the text holds a
      nonempty stop sequence or a positive max_tokens is reached, with the reason of the two that
      applies; all tokens up to it are yielded, each with its text. */
  lemma StopsAtTheFirst(env: Env, req: Request, k: nat)
    requires Undisturbed(env) && 0 < k && Enough(env, req, k) && (req.stream || k <= 4096)
    requires forall i: nat :: 0 < i < k ==> !Enough(env, req, i)
    ensures EndsFrom(env, req, 0)
    ensures var outs := Stream(env, req, 0);
            |outs| == k && (forall i: nat :: i < k - 1 ==> IsToken(env, outs[i], i)) &&
            outs[k - 1] == TokenOutput(env.decode(env.token(k - 1)), Some(env.token(k - 1)),
                                       Some(if AtLimit(req, k) then Length else Stop), Some(k))
  {
    ReasonIff(env, req, k);
    StreamIsWellEnded(env, req, k);
    EndsWithTheFirst(env, req, Stream(env, req, 0), k);
  }

  /** Without streaming a stream that nothing ends before is cut at 4096 tokens. */
  lemma CutAtTheCap(env: Env, req: Request)
    requires Undisturbed(env) && !req.stream && forall i: nat :: 0 < i <= 4096 ==> !Enough(env, req, i)
    ensures EndsFrom(env, req, 0)
    ensures var outs := Stream(env, req, 0);
            |outs| == 4097 && (forall i: nat :: i < 4096 ==> IsToken(env, outs[i], i)) &&
            outs[4096] == TokenOutput("", None, Some(Length), None)
  {
    ReasonIff(env, req, SAFETY_CAP);
    StreamIsWellEnded(env, req, SAFETY_CAP);
    UndisturbedStream(env, req, Stream(env, req, 0));
  }

  /** A streaming request that is never to stop goes on for ever. */
  lemma NothingEnds(env: Env, req: Request)
    requires Undisturbed(env) && req.stream && forall i: nat :: 0 < i ==> !Enough(env, req, i)
    ensures !Ends(env, req)
  {
    forall n: nat ensures !EndsAt(env, req, n) {
      ReasonIff(env, req, n + 1);
    }
  }

  // ---------------------------------------------------------------- a stream consumed in part

  /** The outputs of at most k iterations from iteration n on, whether the loop ends or not. */
  function Consumed(env: Env, req: Request, n: nat, k: nat): (outs: seq<TokenOutput>)
    decreases k
  {
    if k == 0 then [] else if EndsAt(env, req, n) then Iteration(env, req, n)
    else Iteration(env, req, n) + Consumed(env, req, n + 1, k - 1)
  }

  /** A loop that ends is consumed whole by as many iterations as it takes, and by more. */
  lemma {:induction false} ConsumedWhole(env: Env, req: Request, n: nat, k: nat)
    requires EndsFrom(env, req, n) && k > FirstEnd(env, req, n) - n
    ensures Consumed(env, req, n, k) == Stream(env, req, n)
    decreases k
  {
    if !EndsAt(env, req, n) {
      NextEnd(env, req, n);
      ConsumedWhole(env, req, n + 1, k - 1);
    }
  }

  /** None of the k iterations from n on ends the loop. */
  predicate NoneEnds(env: Env, req: Request, n: nat, k: nat)
    decreases k
  {
    k == 0 || (!EndsAt(env, req, n) && NoneEnds(env, req, n + 1, k - 1))
  }

  /** The next k tokens, without a finish reason. */
  ghost predicate AreTokens(env: Env, outs: seq<TokenOutput>, n: nat, k: nat) {
    |outs| == k && Appended(outs) == k && forall i :: 0 <= i < k ==> IsToken(env, outs[i], n + i)
  }

  lemma TokenAhead(env: Env, out: TokenOutput, rest: seq<TokenOutput>, n: nat, k: nat)
    requires IsToken(env, out, n) && AreTokens(env, rest, n + 1, k)
    ensures AreTokens(env, [out] + rest, n, k + 1)
  {
    var outs := [out] + rest;
    assert outs[1..] == rest;
    forall i | 0 <= i < k + 1 ensures IsToken(env, outs[i], n + i) {
      if i > 0 {
        assert outs[i] == rest[i - 1] && IsToken(env, rest[i - 1], n + 1 + (i - 1));
      }
    }
  }

  /** Until it ends, also when it never does, each iteration yields the next token and no finish
      reason. */
  lemma {:induction false} ConsumedTokens(env: Env, req: Request, n: nat, k: nat)
    requires NoneEnds(env, req, n, k)
    ensures AreTokens(env, Consumed(env, req, n, k), n, k)
    decreases k
  {
    if k > 0 {
      ConsumedTokens(env, req, n + 1, k - 1);
      MiddleIteration(env, req, n);
      TokenAhead(env, Iteration(env, req, n)[0], Consumed(env, req, n + 1, k - 1), n, k - 1);
    }
  }

  /** After i iterations that did not end, with `left` to come. */
  predicate Following(env: Env, req: Request, k: nat, outs: seq<TokenOutput>, i: nat, left: nat) {
    outs + Consumed(env, req, i, left) == Consumed(env, req, 0, k) &&
    (NoneEnds(env, req, i, left) <==> NoneEnds(env, req, 0, k))
  }

  lemma FollowOn(env: Env, req: Request, k: nat, outs: seq<TokenOutput>, i: nat, left: nat)
    requires Following(env, req, k, outs, i, left) && left > 0
    ensures var more := outs + Iteration(env, req, i);
            Appended(more) == Appended(outs) + (if env.aborted(i) then 0 else 1) &&
            if EndsAt(env, req, i) then more == Consumed(env, req, 0, k) && !NoneEnds(env, req, 0, k)
            else Following(env, req, k, more, i + 1, left - 1)
  {
    AppendedConcat(outs, Iteration(env, req, i));
    IterationAppends(env, req, i);
    if !EndsAt(env, req, i) {
      Reassociate(outs, Iteration(env, req, i), Consumed(env, req, i + 1, left - 1));
    }
  }

  /** Covering a request and freeing it is freeing it. */
  lemma CoverThenFree<V>(p: KvCache.Config<V>, f: KvCache.Flat<V>, r: string, seqLen: nat)
    requires p.Valid()
    ensures KvCache.FlatEnsure(p, f, r, KvCache.BlocksFor(p, seqLen) * p.blockSize) - {r} == f - {r}
  {
  }

  class GenerationEngine<V(0)> {
    const scheduler: Scheduler
    const kvCache: PagedKVCache.PagedKVCache<V>

    constructor (scheduler: Scheduler, kvCache: PagedKVCache.PagedKVCache<V>)
      ensures this.scheduler == scheduler && this.kvCache == kvCache
    {
      this.scheduler, this.kvCache := scheduler, kvCache;
    }

    /** The token loop, on the runs that end; each of its exits is followed by the caller's
        `finish` and `free`. */
    method Loop(req: Request, env: Env, rr: RunningRequest) returns (outs: seq<TokenOutput>)
      requires Ends(env, req) && rr.req == req && rr.generatedIds == [] && rr.generatedText == ""
      modifies rr`generatedIds, rr`generatedText
      ensures EndsFrom(env, req, 0) && outs == Stream(env, req, 0) && |rr.generatedIds| == Appended(outs)
      ensures req.maxTokens > 0 ==> |rr.generatedIds| <= req.maxTokens
    {
      EndsAtAll(env, req);
      TokensBounded(env, req, 0);
      outs := [];
      assert [] + Stream(env, req, 0) == Stream(env, req, 0);
      var n := 0;
      var going := true;
      while going
        invariant n == |rr.generatedIds| == Appended(outs) && rr.generatedText == Text(env, n)
        invariant going ==> Going(env, req, n) && outs + Stream(env, req, n) == Stream(env, req, 0)
        invariant !going ==> outs == Stream(env, req, 0)
        decreases going, if going then FirstEnd(env, req, n) - n else 0
      {
        StreamStep(env, req, n, outs);
        if !EndsAt(env, req, n) {
          GoesOn(env, req, n);
        }
        var more;
        more, going := OneToken(req, env, rr, n);
        n := |rr.generatedIds|;
        outs := outs + more;
      }
    }

    /** One pass through the loop body. */
    method OneToken(req: Request, env: Env, rr: RunningRequest, n: nat) returns (outs: seq<TokenOutput>, goOn: bool)
      requires rr.req == req && n == |rr.generatedIds| && rr.generatedText == Text(env, n)
      modifies rr`generatedIds, rr`generatedText
      ensures outs == Iteration(env, req, n) && (goOn <==> !EndsAt(env, req, n))
      ensures |rr.generatedIds| == (if env.aborted(n) then n else n + 1) &&
          rr.generatedText == Text(env, |rr.generatedIds|)
    {
      if env.aborted(n) {
        return [TokenOutput("", None, Some(Abort), Some(n))], false;
      }
      var tok := env.token(n);
      var text := env.decode(tok);
      rr.Append(tok, text);
      var finish := rr.ShouldStop();
      if env.hasTools && n + 1 > 2 && env.callsTool(rr.generatedText) {
        finish := Some(ToolCall);
      }
      outs := [TokenOutput(text, Some(tok), finish, Some(n + 1))];
      if finish.Some? {
        return outs, false;
      }
      if !req.stream && n + 1 >= SAFETY_CAP {
        return outs + [TokenOutput("", None, Some(Length), None)], false;
      }
      goOn := true;
    }

    /** The loop as far as a caller follows it, k iterations at most: it needs no end. */
    method Follow(req: Request, env: Env, rr: RunningRequest, k: nat) returns (outs: seq<TokenOutput>, going: bool)
      requires rr.req == req && rr.generatedIds == [] && rr.generatedText == ""
      modifies rr`generatedIds, rr`generatedText
      ensures outs == Consumed(env, req, 0, k) && |rr.generatedIds| == Appended(outs)
      ensures going <==> NoneEnds(env, req, 0, k)
    {
      outs, going := [], true;
      var i, left := 0, k;
      assert [] + Consumed(env, req, 0, k) == Consumed(env, req, 0, k);
      while going && left > 0
        invariant |rr.generatedIds| == Appended(outs) && rr.generatedText == Text(env, |rr.generatedIds|)
        invariant going ==> i == |rr.generatedIds| && Following(env, req, k, outs, i, left)
        invariant !going ==> outs == Consumed(env, req, 0, k) && !NoneEnds(env, req, 0, k)
        decreases going, left
      {
        FollowOn(env, req, k, outs, i, left);
        var more;
        more, going := OneToken(req, env, rr, i);
        outs := outs + more;
        i, left := i + 1, left - 1;
      }
    }

    ghost function Cached(): KvCache.Flat<V>
      requires kvCache.Valid()
      reads kvCache, kvCache.storageDevice.Values, kvCache.storageHost.Values
    {
      KvCache.View(kvCache.p, kvCache.Abs())
    }

    /** Block size and buffers as the constructor and every operation leave them. */
    ghost predicate Sound()
      reads kvCache
    {
      kvCache.p.Valid() && PagedKVCache.Apart(kvCache.storageDevice, kvCache.storageHost)
    }

    /** The loop and `finish` touch nothing of the cache. */
    twostate lemma CacheKept()
      requires unchanged(kvCache, old(kvCache.storageDevice.Values), old(kvCache.storageHost.Values))
      ensures old(Sound()) ==> Sound()
      ensures kvCache.Abs() == old(kvCache.Abs())
      ensures old(kvCache.Valid()) ==> kvCache.Valid() && Cached() == old(Cached())
    {
    }

    method Cover(id: string) returns (ghost before: KvCache.Flat<V>)
      requires Sound()
      modifies kvCache
      ensures Sound() && kvCache.Abs() == KvCache.Ensure(kvCache.p, old(kvCache.Abs()), id, 16, true)
      ensures old(kvCache.Valid()) ==> kvCache.Valid() && before == old(Cached()) && Cached() - {id} == before - {id}
    {
      if kvCache.Valid() {
        before := Cached();
        CoverThenFree(kvCache.p, before, id, INITIAL_COVERAGE);
      } else {
        before := map[];
      }
      kvCache.EnsureSequence(id, INITIAL_COVERAGE, true);
    }

    method LoopAndFinish(req: Request, env: Env, rr: RunningRequest) returns (outs: seq<TokenOutput>)
      requires scheduler.Valid() && Ends(env, req) && rr in scheduler.known
      requires rr.req == req && rr.generatedIds == [] && rr.generatedText == ""
      modifies scheduler`running, scheduler`usedBlocks, scheduler.running`status, rr`generatedIds, rr`generatedText
      ensures scheduler.Valid() && EndsFrom(env, req, 0)
      ensures outs == Stream(env, req, 0) && |rr.generatedIds| == Appended(outs)
      ensures req.maxTokens > 0 ==> |rr.generatedIds| <= req.maxTokens
      ensures scheduler.Abs() == Ended(scheduler.cfg, old(scheduler.Abs()), rr, |rr.generatedIds|)
    {
      outs := Loop(req, env, rr);
      assert scheduler.Counts() == old(scheduler.Counts())[rr := |rr.generatedIds|];
      var _ := scheduler.Finish(req.id);
    }

    /** What follows an accepted request. */
    method Serve(req: Request, env: Env, rr: RunningRequest) returns (outs: seq<TokenOutput>)
      requires scheduler.Valid() && Sound() && Ends(env, req) && rr in scheduler.known
      requires rr.req == req && rr.generatedIds == [] && rr.generatedText == ""
      modifies scheduler`running, scheduler`usedBlocks, scheduler.running`status, kvCache
      modifies rr`generatedIds, rr`generatedText
      ensures scheduler.Valid() && Sound() && EndsFrom(env, req, 0)
      ensures outs == Stream(env, req, 0) && |rr.generatedIds| == Appended(outs)
      ensures req.maxTokens > 0 ==> |rr.generatedIds| <= req.maxTokens
      ensures scheduler.Abs() == Ended(scheduler.cfg, old(scheduler.Abs()), rr, |rr.generatedIds|)
      ensures req.id !in kvCache.seqBlocks
      ensures old(kvCache.Valid()) ==> kvCache.Valid() && Cached() == old(Cached()) - {req.id}
    {
      outs := CoverAndLoop(req, env, rr);
      KvCache.FreedIsGone(kvCache.p, kvCache.Abs(), req.id);
      ghost var t := scheduler.Abs();
      kvCache.Free(req.id);
      assert scheduler.Abs() == t;
    }

    method CoverAndLoop(req: Request, env: Env, rr: RunningRequest) returns (outs: seq<TokenOutput>)
      requires scheduler.Valid() && Sound() && Ends(env, req) && rr in scheduler.known
      requires rr.req == req && rr.generatedIds == [] && rr.generatedText == ""
      modifies scheduler`running, scheduler`usedBlocks, scheduler.running`status, kvCache
      modifies rr`generatedIds, rr`generatedText
      ensures scheduler.Valid() && Sound() && EndsFrom(env, req, 0)
      ensures outs == Stream(env, req, 0) && |rr.generatedIds| == Appended(outs)
      ensures req.maxTokens > 0 ==> |rr.generatedIds| <= req.maxTokens
      ensures scheduler.Abs() == Ended(scheduler.cfg, old(scheduler.Abs()), rr, |rr.generatedIds|)
      ensures old(kvCache.Valid()) ==> kvCache.Valid() && Cached() - {req.id} == old(Cached()) - {req.id}
    {
      ghost var before := Cover(req.id);
      assert scheduler.Abs() == old(scheduler.Abs());
      label covered:
      outs := LoopAndFinish(req, env, rr);
      CacheKept@covered();
    }

    /** `generate_stream` on the runs that end, its yields collected. The request is never
        admitted, so `finish` finds nothing of it in the running dict and it stays in the queue. */
    method GenerateStream(req: Request, env: Env, now: real) returns (outs: seq<TokenOutput>, rr: RunningRequest?)
      requires scheduler.Valid() && Sound() && Ends(env, req)
      modifies scheduler, scheduler.running`status, kvCache
      ensures scheduler.Valid() && Sound() && EndsFrom(env, req, 0)
      ensures rr == null <==> old(|scheduler.waiting| + |scheduler.running| >= scheduler.cfg.maxWaiting)
      ensures rr == null ==>
                outs == [TokenOutput("", None, Some(Error), None)] && scheduler.Abs() == old(scheduler.Abs()) &&
                kvCache.Abs() == old(kvCache.Abs())
      ensures rr != null ==>
                fresh(rr) && rr.req == req && outs == Stream(env, req, 0) && |rr.generatedIds| == Appended(outs) &&
                scheduler.Abs() == Served(scheduler.cfg, old(scheduler.Abs()), rr, |rr.generatedIds|) &&
                req.id !in kvCache.seqBlocks
      ensures rr != null && old(kvCache.Valid()) ==> kvCache.Valid() && Cached() == old(Cached()) - {req.id}
      ensures rr != null && old(Ledger.Backed(scheduler.cfg, scheduler.Abs())) && req.maxTokens > 0 ==>
                Ledger.Backed(scheduler.cfg, scheduler.Abs())
    {
      EndsAtAll(env, req);
      rr := scheduler.Add(req, now);
      CacheKept();
      if rr == null {
        outs := [TokenOutput("", None, Some(Error), None)];
        return;
      }
      outs := Serve(req, env, rr);
      ServedBacked(scheduler.cfg, old(scheduler.Abs()), rr, |rr.generatedIds|);
    }
  }

  lemma EndsAtAll(env: Env, req: Request)
    requires Ends(env, req)
    ensures EndsFrom(env, req, 0)
  {
    var first: nat :| EndsAt(env, req, first);
    assert first >= 0;
  }

  /** The scheduler after a request has generated n tokens and was finished. */
  ghost function Ended(cfg: Ledger.Limits, s: Ledger.State, rr: RunningRequest, n: nat): Ledger.State
    requires Ledger.Known(cfg, s)
  {
    Ledger.Step(cfg, Ledger.WithTokens(s, rr, n), Ledger.FinishOp(rr.req.id))
  }

  /** And was added before. */
  ghost function Served(cfg: Ledger.Limits, s: Ledger.State, rr: RunningRequest, n: nat): Ledger.State
    requires Ledger.Known(cfg, s)
  {
    Ended(cfg, Ledger.Step(cfg, s, Ledger.AddOp(rr)), rr, n)
  }

  /** What a served request leaves in the scheduler: it waits at the end of the queue, and a running
      entry with its id is gone. */
  lemma ServedIs(cfg: Ledger.Limits, s: Ledger.State, rr: RunningRequest, n: nat)
    requires Ledger.Known(cfg, s) && DistinctIds(s.running) && rr !in s.generated
    requires |s.waiting| + |s.running| < cfg.maxWaiting
    ensures var t := Served(cfg, s, rr, n);
            t.waiting == s.waiting + [rr] && t.generated == s.generated[rr := n] &&
            forall r :: r in t.running <==> r in s.running && r.req.id != rr.req.id
  {
    var i := IndexOf(s.running, rr.req.id);
    assert s.generated[rr := 0][rr := n] == s.generated[rr := n];
    if i < |s.running| {
      Ledger.AllButIs(s.running, i);
      assert s.running == s.running[..i] + [s.running[i]] + s.running[i + 1..];
      assert forall r :: r in s.running[..i] || r in s.running[i + 1..] ==> r.req.id != rr.req.id;
    }
  }

  lemma ServedBacked(cfg: Ledger.Limits, s: Ledger.State, rr: RunningRequest, n: nat)
    requires Ledger.Known(cfg, s)
    ensures Ledger.Backed(cfg, s) && 0 < rr.req.maxTokens && n <= rr.req.maxTokens ==>
              Ledger.Backed(cfg, Served(cfg, s, rr, n))
  {
    if Ledger.Backed(cfg, s) && 0 < rr.req.maxTokens && n <= rr.req.maxTokens {
      Ledger.StepKeepsBacked(cfg, s, Ledger.AddOp(rr), 0);
      var t := Ledger.WithTokens(Ledger.Step(cfg, s, Ledger.AddOp(rr)), rr, n);
      assert Ledger.Backed(cfg, t);
      Ledger.StepKeepsBacked(cfg, t, Ledger.FinishOp(rr.req.id), 0);
    }
  }
}
