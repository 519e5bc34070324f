/** The coordinator and health monitor objects; the clock reading of each atomic step is a
    parameter, plan pushing and the network are not part of this model. */
module Coordinator {
  import opened Wrappers
  import opened Cluster
  import Planner

  class HealthMonitor {
    const timeout: real
    var lastSeen: map<string, real>
    var dead: set<string>

    constructor (timeout: real)
      ensures this.timeout == timeout && lastSeen == map[] && dead == {}
    {
      this.timeout := timeout;
      lastSeen, dead := map[], {};
    }

    method Record(id: string, now: real)
      modifies this
      ensures lastSeen == old(lastSeen)[id := now] && dead == old(dead) - {id}
    {
      lastSeen := lastSeen[id := now];
      dead := dead - {id};
    }

    method Forget(id: string)
      modifies this
      ensures lastSeen == old(lastSeen) - {id} && dead == old(dead) - {id}
    {
      lastSeen := lastSeen - {id};
      dead := dead - {id};
    }

    predicate IsAlive(id: string, now: real)
      reads this
    {
      Age(lastSeen, id, now) <= timeout
    }

    /** The body of the tick loop for one node of its snapshot, up to the callback. */
    method CheckNode(id: string, now: real) returns (died: bool)
      modifies `dead
      ensures died <==> old(id in lastSeen && id !in dead && !IsAlive(id, now))
      ensures dead == if died then old(dead) + {id} else old(dead)
    {
      died := id in lastSeen && id !in dead && Age(lastSeen, id, now) > timeout;
      if died {
        dead := dead + {id};
      }
    }
  }

  class Coordinator {
    const cfg: Config
    const health: HealthMonitor
    var nodes: map<string, Planner.NodeSpec>
    var heartbeats: seq<string>
    var plan: Option<Planner.ClusterPlan>

    ghost predicate Valid()
      reads this, health
    {
      health.timeout == cfg.timeout
    }

    ghost function Abs(): State
      reads this, health
    {
      State(nodes, heartbeats, plan, health.lastSeen, health.dead)
    }

    /** `__init__` and `start`. */
    constructor (config: Config, root: Planner.NodeSpec, now: real)
      requires config.root == root.nodeId
      ensures Valid() && fresh(health) && cfg == config && Abs() == Initial(root, now) && Inv(cfg, Abs())
    {
      cfg := config;
      health := new HealthMonitor(config.timeout);
      nodes := map[root.nodeId := root];
      heartbeats := [root.nodeId];
      plan := None;
      new;
      health.Record(root.nodeId, now);
      assert health.lastSeen == map[root.nodeId := now];
    }

    /** The comprehension over the heartbeat dict. */
    method AliveMembers(now: real) returns (members: seq<string>)
      requires Valid()
      ensures members == Members(cfg, Abs(), now, heartbeats)
    {
      members := [];
      for i := 0 to |heartbeats|
        invariant members == Members(cfg, Abs(), now, heartbeats[..i])
      {
        assert heartbeats[..i + 1] == heartbeats[..i] + [heartbeats[i]];
        MembersJoin(cfg, Abs(), now, heartbeats[..i], [heartbeats[i]]);
        OneMember(cfg, Abs(), now, heartbeats[i]);
        if health.IsAlive(heartbeats[i], now) && heartbeats[i] != cfg.root {
          members := members + [heartbeats[i]];
        }
      }
      assert heartbeats[..|heartbeats|] == heartbeats;
    }

    /** `_replan` up to its first await; false when it raises. */
    method DoReplan(now: real) returns (ok: bool)
      requires Valid()
      modifies `plan
      ensures ok <==> Replan(cfg, old(Abs()), now).Some?
      ensures Abs() == TryReplan(cfg, old(Abs()), now)
      ensures ok && plan.Some? ==> Planner.AssignsAll(plan.value, cfg.layers, cfg.heads)
    {
      if Replan(cfg, Abs(), now).Some? && Replan(cfg, Abs(), now).value.plan.Some? {
        ReplanAssignsAll(cfg, Abs(), now);
      }
      var members := AliveMembers(now);
      var specs: seq<Planner.NodeSpec> := [];
      var i := 0;
      while i < |members|
        invariant 0 <= i <= |members| && |specs| == i
        invariant forall j :: 0 <= j < i ==> members[j] in nodes && specs[j] == nodes[members[j]]
      {
        if members[i] !in nodes {
          assert members[i] in members;
          return false;
        }
        specs := specs + [nodes[members[i]]];
        i := i + 1;
      }
      if members == [] {
        plan := None;
        return true;
      }
      assert specs == Specs(nodes, members);
      var newPlan: Option<Planner.ClusterPlan>;
      match cfg.preferred {
        case PreferPipeline =>
          var p := Planner.PlanPipeline(specs, cfg.layers);
          newPlan := Some(p);
        case PreferTensor =>
          newPlan := Planner.PlanTensor(specs, cfg.heads);
        case Auto =>
          newPlan := Planner.Automatic(specs, cfg.layers, cfg.heads);
      }
      if newPlan.None? {
        return false;
      }
      plan := newPlan;
      ok := true;
    }

    method HandleHello(node: Planner.NodeSpec, now: real)
      requires Valid()
      modifies this, health
      ensures Valid() && Abs() == Step(cfg, old(Abs()), Hello(node, now))
      ensures nodes == old(nodes)[node.nodeId := node] && heartbeats == Touch(old(heartbeats), node.nodeId)
      ensures health.lastSeen == old(health.lastSeen)[node.nodeId := now] && node.nodeId !in health.dead
      ensures old(Inv(cfg, Abs())) ==> Inv(cfg, Abs())
    {
      StepIfInv(cfg, Abs(), Hello(node, now));
      nodes := nodes[node.nodeId := node];
      heartbeats := Touch(heartbeats, node.nodeId);
      health.Record(node.nodeId, now);
      var _ := DoReplan(now);
    }

    method HandleHeartbeat(id: string, now: real)
      requires Valid()
      modifies this, health
      ensures Valid() && Abs() == Step(cfg, old(Abs()), Heartbeat(id, now))
      ensures nodes == old(nodes) && plan == old(plan) && heartbeats == Touch(old(heartbeats), id)
      ensures health.lastSeen == old(health.lastSeen)[id := now] && id !in health.dead
      ensures old(Inv(cfg, Abs())) ==> (Inv(cfg, Abs()) <==> id in nodes)
    {
      StepIfInv(cfg, Abs(), Heartbeat(id, now));
      heartbeats := Touch(heartbeats, id);
      health.Record(id, now);
    }

    method HandleLeave(id: string, now: real)
      requires Valid()
      modifies this, health
      ensures Valid() && Abs() == Step(cfg, old(Abs()), Leave(id, now))
      ensures nodes == old(nodes) - {id} && heartbeats == Drop(old(heartbeats), id)
      ensures health.lastSeen == old(health.lastSeen) - {id} && id !in health.dead
      ensures old(Inv(cfg, Abs())) ==> (Inv(cfg, Abs()) <==> old(Benign(cfg, Abs(), Leave(id, now))))
      ensures old(Inv(cfg, Abs())) ==> (id !in PlanIds(Abs()) <==> old(Benign(cfg, Abs(), Leave(id, now))))
    {
      StepIfInv(cfg, Abs(), Leave(id, now));
      heartbeats := Drop(heartbeats, id);
      health.Forget(id);
      nodes := nodes - {id};
      var _ := DoReplan(now);
    }

    /** One node of a health tick, with `_on_node_dead` when it is declared. */
    method TickNode(id: string, now: real)
      requires Valid()
      modifies this, health
      ensures Valid() && Abs() == Step(cfg, old(Abs()), Check(id, now))
      ensures nodes == old(nodes) && health.lastSeen == old(health.lastSeen)
      ensures if id in old(health.lastSeen) && id !in old(health.dead) && now - old(health.lastSeen)[id] > cfg.timeout
              then health.dead == old(health.dead) + {id} && heartbeats == Drop(old(heartbeats), id)
              else health.dead == old(health.dead) && heartbeats == old(heartbeats) && plan == old(plan)
      ensures old(Inv(cfg, Abs())) ==> (Inv(cfg, Abs()) <==> old(Benign(cfg, Abs(), Check(id, now))))
      ensures old(Inv(cfg, Abs()) && Benign(cfg, Abs(), Check(id, now))) && id in health.dead ==> id !in PlanIds(Abs())
    {
      StepIfInv(cfg, Abs(), Check(id, now));
      var died := health.CheckNode(id, now);
      if died {
        heartbeats := Drop(heartbeats, id);
        var _ := DoReplan(now);
      }
    }
  }

  lemma StepIfInv(cfg: Config, s: State, e: Event)
    ensures Inv(cfg, s) ==>
      (Inv(cfg, Step(cfg, s, e)) <==> Benign(cfg, s, e)) &&
      (e.Hello? ==> Benign(cfg, s, e)) &&
      (e.Heartbeat? ==> (Benign(cfg, s, e) <==> e.id in Step(cfg, s, e).nodes)) &&
      (Goes(cfg, s, e) ==> (e.id !in PlanIds(Step(cfg, s, e)) <==> Benign(cfg, s, e)))
  {
    if Inv(cfg, s) {
      StepKeepsInv(cfg, s, e);
      TouchedKeepsLiveness(cfg, s, e);
      if Goes(cfg, s, e) {
        ReplanForThoseLeft(cfg, s, e);
      }
    }
  }
}
