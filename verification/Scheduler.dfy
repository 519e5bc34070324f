/** The scheduler object, proved against the state machine of module Ledger. */
module Scheduler {
  import opened Admission
  import opened Ledger

  class Scheduler {
    const cfg: Limits
    var waiting: seq<RunningRequest>
    /** The running dict in insertion order; the key of an entry is its request id. */
    var running: seq<RunningRequest>
    var usedBlocks: int
    /** Every request ever added. */
    ghost var known: set<RunningRequest>

    ghost predicate Valid()
      reads this
    {
      0 < cfg.blockSize && |waiting| + |running| <= cfg.maxWaiting && |running| <= cfg.maxRunning &&
      DistinctIds(running) && (forall r :: r in waiting ==> r in known) && forall r :: r in running ==> r in known
    }

    ghost function Counts(): (counts: map<RunningRequest, nat>)
      reads this`known, known`generatedIds
      ensures counts.Keys == known
    {
      map r | r in known :: |r.generatedIds|
    }

    ghost function Abs(): State
      reads this, known`generatedIds
    {
      State(waiting, running, Counts(), usedBlocks)
    }

    function Need(rr: RunningRequest, futureLen: int): (blocks: int)
      requires 0 < cfg.blockSize
      reads rr`generatedIds
      ensures LeastBlocks(blocks, |rr.generatedIds| + futureLen, cfg.blockSize)
    {
      CeilIsLeast(|rr.generatedIds| + futureLen, cfg.blockSize);
      Ceil(|rr.generatedIds| + futureLen, cfg.blockSize)
    }

    constructor (maxRunning: nat, maxWaiting: nat, deviceBlocks: nat, hostBlocks: nat, blockSize: nat, recompute: bool)
      requires 0 < blockSize
      ensures cfg == Limits(maxRunning, maxWaiting, deviceBlocks + hostBlocks, blockSize, recompute)
      ensures Valid() && Abs() == EMPTY && Backed(cfg, Abs())
    {
      cfg := Limits(maxRunning, maxWaiting, deviceBlocks + hostBlocks, blockSize, recompute);
      waiting, running, usedBlocks, known := [], [], 0, {};
    }

    method Add(req: Request, now: real) returns (rr: RunningRequest?)
      requires Valid()
      modifies `waiting, `known
      ensures Valid()
      ensures rr == null <==> old(|waiting| + |running| >= cfg.maxWaiting)
      ensures rr == null ==> Abs() == old(Abs())
      ensures rr != null ==> fresh(rr) && rr.req == req && rr.waitingSince == now && known == old(known) + {rr}
      ensures rr != null ==> rr.status == Waiting && rr.generatedIds == [] && rr.generatedText == ""
      ensures rr != null ==> waiting == old(waiting) + [rr] && Abs() == Step(cfg, old(Abs()), AddOp(rr))
    {
      if |waiting| + |running| >= cfg.maxWaiting {
        return null;
      }
      ghost var before := Counts();
      rr := new RunningRequest(req, now);
      waiting := waiting + [rr];
      known := known + {rr};
      assert Counts() == before[rr := 0];
    }

    /** `running[id] = rr` and the charge. */
    method Enter(rr: RunningRequest, need: int)
      requires DistinctIds(running)
      modifies `running, `usedBlocks
      ensures DistinctIds(running) && running == Put(old(running), rr) && usedBlocks == old(usedBlocks) + need
      ensures forall r :: r in running ==> r in old(running) || r == rr
    {
      PutKeepsKeys(running, rr);
      running := Put(running, rr);
      usedBlocks := usedBlocks + need;
    }

    /** One iteration: admit the request if it fits into the free count. */
    method Consider(rr: RunningRequest, free: int) returns (took: bool)
      requires Valid() && |running| < cfg.maxRunning && waiting != [] && rr in known
      modifies `waiting, `running, `usedBlocks, rr`status
      ensures Valid() && took == (Need(rr, rr.req.maxTokens) <= free)
      ensures waiting == if took then old(waiting)[1..] else old(waiting)
      ensures running == if took then Put(old(running), rr) else old(running)
      ensures usedBlocks == old(usedBlocks) + if took then Need(rr, rr.req.maxTokens) else 0
      ensures took ==> rr.status == Running
    {
      var need := Need(rr, rr.req.maxTokens);
      took := need <= free;
      if took {
        waiting := waiting[1..];
        rr.status := Running;
        Enter(rr, need);
      }
    }

    /** The loop has considered the first i requests of its snapshot. */
    ghost predicate Through(start: seq<RunningRequest>, snapshot: seq<RunningRequest>, needs: seq<int>, free: int,
                            used: int, i: nat, popped: nat)
      requires |snapshot| == |needs| && i <= |snapshot|
      reads this
    {
      popped <= i && waiting == snapshot[popped..] &&
      (running, popped) == Admitted(start, snapshot, needs, free, cfg.maxRunning, i) &&
      usedBlocks == used + Charged(start, snapshot, needs, free, cfg.maxRunning, i)
    }

    /** One pass through the loop body below a full running set. */
    method ConsiderNext(ghost start: seq<RunningRequest>, ghost snapshot: seq<RunningRequest>, ghost needs: seq<int>,
                        free: int, ghost used: int, ghost i: nat, rr: RunningRequest, ghost popped: nat)
      returns (ghost popped': nat)
      requires Valid() && i < |snapshot| && rr == snapshot[i] && rr in known
      requires |running| < cfg.maxRunning && |snapshot| == |needs|
      requires needs[i] == Need(rr, rr.req.maxTokens)
      requires Through(start, snapshot, needs, free, used, i, popped)
      modifies `waiting, `running, `usedBlocks, rr`status
      ensures Valid() && Through(start, snapshot, needs, free, used, i + 1, popped')
    {
      OneMore(start, snapshot, needs, free, cfg.maxRunning, i, running, popped, usedBlocks - used);
      var took := Consider(rr, free);
      popped' := if took then popped + 1 else popped;
    }

    /** The loop over a snapshot of the queue; `free` is read once. */
    method AdmitLoop(free: int, ghost needs: seq<int>) returns (ghost popped: nat)
      requires Valid() && |needs| == |waiting|
      requires forall i :: 0 <= i < |waiting| ==> needs[i] == Need(waiting[i], waiting[i].req.maxTokens)
      modifies `waiting, `running, `usedBlocks, waiting`status
      ensures Valid() && Through(old(running), old(waiting), needs, free, old(usedBlocks), |needs|, popped)
    {
      var snapshot := waiting;
      ghost var start, used := running, usedBlocks;
      popped := 0;
      for i := 0 to |snapshot|
        invariant Valid() && Through(start, snapshot, needs, free, used, i, popped)
      {
        if |running| >= cfg.maxRunning {
          FullStaysFull(start, snapshot, needs, free, cfg.maxRunning, i, |snapshot|);
          break;
        }
        popped := ConsiderNext(start, snapshot, needs, free, used, i, snapshot[i], popped);
      }
    }

    method Schedule() returns (batch: seq<RunningRequest>)
      requires Valid()
      modifies `waiting, `running, `usedBlocks, waiting`status
      ensures Valid() && batch == running
      ensures Abs() == Step(cfg, old(Abs()), ScheduleOp)
    {
      ghost var s := Abs();
      ghost var needs := Needs(cfg, s);
      var free := cfg.totalBlocks - usedBlocks;
      assert free == FreeBlocks(cfg, s);
      ghost var popped := AdmitLoop(free, needs);
      assert Counts() == s.generated;
      ScheduleIs(cfg, s, running, popped, usedBlocks - s.used);
      batch := running;
    }

    /** `running.pop(id)` and the clamped credit. */
    method Release(i: nat)
      requires Valid() && i < |running|
      modifies `running, `usedBlocks
      ensures Valid() && running == AllBut(old(running), i)
      ensures usedBlocks == NonNegative(old(usedBlocks) - Need(old(running)[i], 0))
    {
      var need := Need(running[i], 0);
      AllButIs(running, i);
      running := running[..i] + running[i + 1..];
      usedBlocks := if usedBlocks - need < 0 then 0 else usedBlocks - need;
    }

    method Finish(id: string) returns (rr: RunningRequest?)
      requires Valid()
      modifies `running, `usedBlocks, running`status
      ensures Valid() && Abs() == Step(cfg, old(Abs()), FinishOp(id))
      ensures var i := IndexOf(old(running), id);
              if i == |old(running)| then rr == null && Abs() == old(Abs()) else
                rr == old(running)[i] && rr.status == Finished && waiting == old(waiting) &&
                running == old(running)[..i] + old(running)[i + 1..] &&
                usedBlocks == NonNegative(old(usedBlocks) - Ceil(|rr.generatedIds|, cfg.blockSize))
    {
      var i := IndexOf(running, id);
      if i == |running| {
        return null;
      }
      rr := running[i];
      rr.status := Finished;
      assert Need(rr, 0) == Credit(cfg, Abs(), i);
      Release(i);
    }

    method LongestWaiting() returns (victim: nat)
      requires running != []
      ensures victim == Longest(running)
    {
      victim := 0;
      assert running[..1] == [running[0]];
      for i := 1 to |running|
        invariant victim == Longest(running[..i])
      {
        assert running[..i + 1][..i] == running[..i];
        if running[i].waitingSince < running[victim].waitingSince {
          victim := i;
        }
      }
      assert running[..|running|] == running;
    }

    /** A preempted request goes back to the front of the queue, its tokens dropped in recompute mode. */
    method Requeue(rr: RunningRequest)
      requires rr in known
      modifies `waiting, rr`status, rr`generatedIds, rr`generatedText
      ensures waiting == [rr] + old(waiting) && rr.status == Swapped
      ensures rr.generatedIds == if cfg.recompute then [] else old(rr.generatedIds)
      ensures rr.generatedText == if cfg.recompute then "" else old(rr.generatedText)
      ensures Counts() == if cfg.recompute then old(Counts())[rr := 0] else old(Counts())
    {
      if cfg.recompute {
        rr.generatedIds, rr.generatedText := [], "";
      }
      rr.status := Swapped;
      waiting := [rr] + waiting;
    }

    /** Running entry i is released and goes back to the queue. */
    method Evict(i: nat, rr: RunningRequest)
      requires Valid() && i < |running| && rr == running[i]
      modifies `waiting, `running, `usedBlocks, rr`status, rr`generatedIds, rr`generatedText
      ensures rr.status == Swapped && waiting == [rr] + old(waiting) && running == AllBut(old(running), i)
      ensures usedBlocks == NonNegative(old(usedBlocks) - old(Need(rr, 0)))
      ensures rr.generatedIds == (if cfg.recompute then [] else old(rr.generatedIds))
      ensures rr.generatedText == (if cfg.recompute then "" else old(rr.generatedText))
      ensures Valid() && Counts() == if cfg.recompute then old(Counts())[rr := 0] else old(Counts())
    {
      Release(i);
      Requeue(rr);
    }

    /** The request id argument of the source is ignored there and absent here. */
    method Preempt() returns (rr: RunningRequest?)
      requires Valid()
      modifies `waiting, `running, `usedBlocks, running`status, running`generatedIds, running`generatedText
      ensures Valid() && Abs() == Step(cfg, old(Abs()), PreemptOp)
      ensures old(running) == [] ==> rr == null
      ensures old(running) != [] ==>
                var i := Longest(old(running));
                rr == old(running)[i] && rr.status == Swapped && waiting == [rr] + old(waiting) &&
                running == old(running)[..i] + old(running)[i + 1..] &&
                usedBlocks == NonNegative(old(usedBlocks) - old(Need(running[i], 0))) &&
                rr.generatedIds == (if cfg.recompute then [] else old(running[i].generatedIds)) &&
                rr.generatedText == (if cfg.recompute then "" else old(running[i].generatedText))
    {
      if running == [] {
        return null;
      }
      var i := LongestWaiting();
      PreemptIs(cfg, Abs(), i);
      assert Need(running[i], 0) == Credit(cfg, Abs(), i);
      rr := running[i];
      Evict(i, rr);
    }

    /** One token appended to a request below its limit is a step of its own. */
    twostate lemma AppendIsStep(rr: RunningRequest)
      requires old(Valid()) && rr in old(known) && unchanged(this) && |rr.generatedIds| == old(|rr.generatedIds|) + 1
      requires forall r :: r in known && r != rr ==> r.generatedIds == old(r.generatedIds)
      requires rr.req.maxTokens > 0 ==> |rr.generatedIds| <= rr.req.maxTokens
      ensures Abs() == Step(cfg, old(Abs()), AppendOp(rr))
    {
      assert Counts() == old(Counts())[rr := |rr.generatedIds|];
    }
  }
}
