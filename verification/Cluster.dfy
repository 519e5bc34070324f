/** Cluster membership: the atomic steps between awaits of the coordinator and its health
    monitor, over any interleaving of hello, heartbeat, leave and liveness checks. */
module Cluster {
  import opened Wrappers
  import opened Planner
  import opened Sequences

  datatype Preference = Auto | PreferPipeline | PreferTensor

  datatype Config = Config(root: string, layers: nat, heads: nat, preferred: Preference, timeout: real)

  /** `heartbeats` is the key order of the heartbeat dict, whose times nothing reads;
      `lastSeen` and `dead` belong to the health monitor. */
  datatype State = State(
    nodes: map<string, NodeSpec>,
    heartbeats: seq<string>,
    plan: Option<ClusterPlan>,
    lastSeen: map<string, real>,
    dead: set<string>)

  datatype Event =
    | Hello(node: NodeSpec, now: real)
    | Heartbeat(id: string, now: real)
    | Leave(id: string, now: real)
    | Check(id: string, now: real)

  // ---------------------------------------------------------------- health monitor

  /** A node never recorded, or forgotten, has age 0. */
  function Age(lastSeen: map<string, real>, id: string, now: real): real {
    if id in lastSeen then now - lastSeen[id] else 0.0
  }

  predicate Alive(cfg: Config, s: State, id: string, now: real) {
    Age(s.lastSeen, id, now) <= cfg.timeout
  }

  /** A node nothing is known of counts as alive, unless the timeout is negative. */
  lemma UnknownIsAlive(cfg: Config, s: State, id: string, now: real)
    ensures id !in s.lastSeen ==> (Alive(cfg, s, id, now) <==> cfg.timeout >= 0.0)
  {
  }

  function Record(s: State, id: string, now: real): State {
    s.(lastSeen := s.lastSeen[id := now], dead := s.dead - {id})
  }

  function Forget(s: State, id: string): State {
    s.(lastSeen := s.lastSeen - {id}, dead := s.dead - {id})
  }

  /** The test of one node in the tick loop: silent for too long and not yet declared. */
  predicate Dies(cfg: Config, s: State, id: string, now: real) {
    id in s.lastSeen && id !in s.dead && !Alive(cfg, s, id, now)
  }

  // ---------------------------------------------------------------- planning

  function Touch(keys: seq<string>, id: string): (r: seq<string>)
    ensures forall x :: x in r <==> x in keys || x == id
    ensures keys <= r && (NoDup(keys) ==> NoDup(r))
  {
    if id in keys then keys else keys + [id]
  }

  function Drop(keys: seq<string>, id: string): (r: seq<string>)
    ensures forall x :: x in r <==> x in keys && x != id
  {
    if keys == [] then []
    else if keys[0] == id then Drop(keys[1..], id)
    else [keys[0]] + Drop(keys[1..], id)
  }

  /** The members a plan is made for: alive, non-root, in heartbeat order. */
  function Members(cfg: Config, s: State, now: real, keys: seq<string>): (m: seq<string>)
    ensures forall x :: x in m <==> x in keys && x != cfg.root && Alive(cfg, s, x, now)
  {
    if keys == [] then []
    else if Alive(cfg, s, keys[0], now) && keys[0] != cfg.root then [keys[0]] + Members(cfg, s, now, keys[1..])
    else Members(cfg, s, now, keys[1..])
  }

  function Specs(nodes: map<string, NodeSpec>, ids: seq<string>): (specs: seq<NodeSpec>)
    requires forall x :: x in ids ==> x in nodes
    ensures |specs| == |ids|
    ensures forall i :: 0 <= i < |ids| ==> specs[i] == nodes[ids[i]]
  {
    seq(|ids|, i requires 0 <= i < |ids| => nodes[ids[i]])
  }

  /** None when the planner raises. */
  function MakePlan(cfg: Config, specs: seq<NodeSpec>): (plan: Option<ClusterPlan>)
    requires specs != []
    ensures plan.None? <==> cfg.preferred.PreferTensor? && cfg.heads % |specs| != 0
    ensures plan.Some? ==> plan.value.nodes == specs
  {
    match cfg.preferred
    case Auto => Automatic(specs, cfg.layers, cfg.heads)
    case PreferPipeline => Some(PipelinePlan(specs, cfg.layers))
    case PreferTensor => TensorPlan(specs, cfg.heads)
  }

  /** `_replan` up to its first await: None when it raises, and then nothing was assigned. */
  function Replan(cfg: Config, s: State, now: real): (r: Option<State>)
    ensures r.Some? ==> r.value == s.(plan := r.value.plan)
  {
    var members := Members(cfg, s, now, s.heartbeats);
    if exists x :: x in members && x !in s.nodes then None
    else if members == [] then Some(s.(plan := None))
    else
      match MakePlan(cfg, Specs(s.nodes, members))
      case None => None
      case Some(plan) => Some(s.(plan := Some(plan)))
  }

  /** A raise leaves what was done before it; the control loop and the tick loop go on. */
  function TryReplan(cfg: Config, s: State, now: real): State {
    var r := Replan(cfg, s, now);
    if r.Some? then r.value else s
  }

  /** The state a replanning event has reached when it calls `_replan`. */
  function Touched(cfg: Config, s: State, e: Event): State {
    match e
    case Hello(node, now) =>
      var id := node.nodeId;
      Record(s.(nodes := s.nodes[id := node], heartbeats := Touch(s.heartbeats, id)), id, now)
    case Heartbeat(id, now) => Record(s.(heartbeats := Touch(s.heartbeats, id)), id, now)
    case Leave(id, _) => Forget(s.(heartbeats := Drop(s.heartbeats, id)), id).(nodes := s.nodes - {id})
    case Check(id, now) =>
      if Dies(cfg, s, id, now) then s.(dead := s.dead + {id}, heartbeats := Drop(s.heartbeats, id)) else s
  }

  predicate Replans(cfg: Config, s: State, e: Event) {
    e.Hello? || e.Leave? || (e.Check? && Dies(cfg, s, e.id, e.now))
  }

  function Step(cfg: Config, s: State, e: Event): State {
    if Replans(cfg, s, e) then TryReplan(cfg, Touched(cfg, s, e), e.now) else Touched(cfg, s, e)
  }

  /** The coordinator once `start` has registered the root. */
  function Initial(root: NodeSpec, now: real): State {
    State(map[root.nodeId := root], [root.nodeId], None, map[root.nodeId := now], {})
  }

  // ---------------------------------------------------------------- invariant

  function PlanIds(s: State): seq<string> {
    if s.plan.None? then [] else
      var nodes := s.plan.value.nodes;
      seq(|nodes|, i requires 0 <= i < |nodes| => nodes[i].nodeId)
  }

  /** Planned nodes are heartbeating non-root nodes; heartbeating nodes are registered, seen and
      not declared dead. */
  ghost predicate Inv(cfg: Config, s: State) {
    (forall x :: x in PlanIds(s) ==> x in s.heartbeats && x != cfg.root) && Liveness(s)
  }

  ghost predicate Liveness(s: State) {
    (forall x :: x in s.heartbeats ==> x in s.nodes && x in s.lastSeen && x !in s.dead) &&
    (forall x :: x in s.dead ==> x in s.lastSeen) &&
    (forall x :: x in s.nodes ==> s.nodes[x].nodeId == x)
  }

  lemma NoDeadNodePlanned(cfg: Config, s: State, id: string)
    requires Inv(cfg, s) && id in s.dead
    ensures id !in PlanIds(s) && id !in s.heartbeats
  {
  }

  /** The plan is exactly the alive non-root members, in heartbeat order, or None iff there are none. */
  ghost predicate PlanCurrent(cfg: Config, s: State, now: real) {
    PlanIds(s) == Members(cfg, s, now, s.heartbeats) && (s.plan.None? <==> PlanIds(s) == [])
  }

  lemma {:induction false} SameAlive(cfg: Config, s: State, t: State, now: real, keys: seq<string>)
    requires forall x :: x in keys ==> Age(s.lastSeen, x, now) == Age(t.lastSeen, x, now)
    ensures Members(cfg, s, now, keys) == Members(cfg, t, now, keys)
  {
    if keys != [] {
      SameAlive(cfg, s, t, now, keys[1..]);
    }
  }

  /** `_replan` raises exactly for an unregistered member, or for a tensor split that does not
      divide the heads; otherwise the plan becomes current. */
  lemma ReplanOutcome(cfg: Config, s: State, now: real)
    requires forall x :: x in s.nodes ==> s.nodes[x].nodeId == x
    ensures var m := Members(cfg, s, now, s.heartbeats);
            var r := Replan(cfg, s, now);
            (r.None? <==> (exists x :: x in m && x !in s.nodes) ||
                          (m != [] && cfg.preferred.PreferTensor? && cfg.heads % |m| != 0)) &&
            (r.Some? ==> PlanCurrent(cfg, r.value, now))
  {
    var m := Members(cfg, s, now, s.heartbeats);
    var r := Replan(cfg, s, now);
    if r.Some? {
      SameAlive(cfg, s, r.value, now, s.heartbeats);
      assert PlanIds(r.value) == m;
    }
  }

  /** The plan a successful replan assigns, for every preference: over the registered specs of the
      alive members in heartbeat order, every layer or every head given to exactly one rank; and
      which of the two. */
  lemma ReplanAssignsAll(cfg: Config, s: State, now: real)
    requires Replan(cfg, s, now).Some? && Replan(cfg, s, now).value.plan.Some?
    ensures var m, plan := Members(cfg, s, now, s.heartbeats), Replan(cfg, s, now).value.plan.value;
            |plan.nodes| == |m| && (forall i :: 0 <= i < |m| ==> m[i] in s.nodes && plan.nodes[i] == s.nodes[m[i]]) &&
            AssignsAll(plan, cfg.layers, cfg.heads) &&
            (cfg.preferred.PreferPipeline? ==> plan.mode.Pipeline?) &&
            (cfg.preferred.PreferTensor? ==> plan.mode.Tensor?)
  {
    var members := Members(cfg, s, now, s.heartbeats);
    var specs := Specs(s.nodes, members);
    match cfg.preferred
    case Auto => AutomaticAssignsAll(specs, cfg.layers, cfg.heads);
    case PreferPipeline => PipelineAssignsAll(specs, cfg.layers, cfg.heads);
    case PreferTensor => TensorAssignsAll(specs, cfg.layers, cfg.heads);
  }

  /** The members left when a node goes. */
  function Left(cfg: Config, s: State, id: string, now: real): seq<string> {
    Members(cfg, s, now, Drop(s.heartbeats, id))
  }

  predicate Goes(cfg: Config, s: State, e: Event) {
    e.Leave? || (e.Check? && Dies(cfg, s, e.id, e.now))
  }

  /** What the environment must respect for the invariant: heartbeats come from registered
      nodes, and under the tensor preference a planned node goes only when the heads divide over
      the members left, if any. */
  predicate Benign(cfg: Config, s: State, e: Event) {
    (e.Heartbeat? ==> e.id in s.nodes) &&
    (cfg.preferred.PreferTensor? && Goes(cfg, s, e) && e.id in PlanIds(s) ==>
      var left := |Left(cfg, s, e.id, e.now)|; left == 0 || cfg.heads % left == 0)
  }

  /** When a node goes, the replan raises exactly when the heads do not divide over those left. */
  lemma ReplanForThoseLeft(cfg: Config, s: State, e: Event)
    requires Inv(cfg, s) && Goes(cfg, s, e)
    ensures var left := |Left(cfg, s, e.id, e.now)|;
            Replan(cfg, Touched(cfg, s, e), e.now).None? <==>
              cfg.preferred.PreferTensor? && left != 0 && cfg.heads % left != 0
  {
    var t := Touched(cfg, s, e);
    ReplanOutcome(cfg, t, e.now);
    SameAlive(cfg, s, t, e.now, t.heartbeats);
  }

  lemma TouchedKeepsLiveness(cfg: Config, s: State, e: Event)
    requires Inv(cfg, s)
    ensures Liveness(Touched(cfg, s, e)) <==> (e.Heartbeat? ==> e.id in s.nodes)
    ensures PlanIds(Touched(cfg, s, e)) == PlanIds(s)
  {
    var t := Touched(cfg, s, e);
    if e.Heartbeat? && e.id !in s.nodes {
      assert e.id in t.heartbeats;
    }
  }

  /** One step keeps the invariant exactly when it is benign. */
  lemma StepKeepsInv(cfg: Config, s: State, e: Event)
    requires Inv(cfg, s)
    ensures Inv(cfg, Step(cfg, s, e)) <==> Benign(cfg, s, e)
  {
    var t, d := Touched(cfg, s, e), Step(cfg, s, e);
    TouchedKeepsLiveness(cfg, s, e);
    if Goes(cfg, s, e) {
      ReplanForThoseLeft(cfg, s, e);
    }
    if Replans(cfg, s, e) && Replan(cfg, t, e.now).Some? {
      ReplanOutcome(cfg, t, e.now);
      assert Liveness(d) <==> Liveness(t);
    } else {
      assert d == t;
    }
  }

  /** Outside the tensor preference every replan succeeds and leaves the plan current. */
  lemma ReplanLeavesPlanCurrent(cfg: Config, s: State, e: Event)
    requires Inv(cfg, s) && Replans(cfg, s, e) && !cfg.preferred.PreferTensor?
    ensures PlanCurrent(cfg, Step(cfg, s, e), e.now)
    ensures e.Check? || e.Leave? ==> e.id !in PlanIds(Step(cfg, s, e))
  {
    ReplanOutcome(cfg, Touched(cfg, s, e), e.now);
  }

  // ---------------------------------------------------------------- runs

  function Run(cfg: Config, s: State, es: seq<Event>): State {
    if es == [] then s else Step(cfg, Run(cfg, s, es[..|es|-1]), es[|es|-1])
  }

  lemma RunNext(cfg: Config, s: State, es: seq<Event>, k: nat)
    requires k < |es|
    ensures Run(cfg, s, es[..k + 1]) == Step(cfg, Run(cfg, s, es[..k]), es[k])
  {
    assert es[..k + 1][..k] == es[..k];
  }

  ghost predicate SafeAt(cfg: Config, s: State, es: seq<Event>, k: nat)
    requires k <= |es|
  {
    Inv(cfg, Run(cfg, s, es[..k]))
  }

  ghost predicate BenignAt(cfg: Config, s: State, es: seq<Event>, k: nat)
    requires k < |es|
  {
    Benign(cfg, Run(cfg, s, es[..k]), es[k])
  }

  lemma {:induction false} SafeUpTo(cfg: Config, s: State, es: seq<Event>, k: nat)
    requires Inv(cfg, s) && k <= |es| && forall i: nat :: i < k ==> BenignAt(cfg, s, es, i)
    ensures SafeAt(cfg, s, es, k)
  {
    if k == 0 {
      assert es[..0] == [];
    } else {
      SafeUpTo(cfg, s, es, k - 1);
      assert BenignAt(cfg, s, es, k - 1);
      RunNext(cfg, s, es, k - 1);
      StepKeepsInv(cfg, Run(cfg, s, es[..k - 1]), es[k - 1]);
    }
  }

  lemma InitialIsSafe(cfg: Config, root: NodeSpec, now: real)
    requires cfg.root == root.nodeId
    ensures Inv(cfg, Initial(root, now))
  {
  }

  /** Safety over every interleaving, for every preference: no declared dead node is planned or
      counted as heartbeating at any point of a run exactly when every step of it is benign. */
  lemma RunKeepsInvIff(cfg: Config, root: NodeSpec, now: real, es: seq<Event>)
    requires cfg.root == root.nodeId
    ensures (forall k: nat :: k <= |es| ==> SafeAt(cfg, Initial(root, now), es, k)) <==>
            (forall k: nat :: k < |es| ==> BenignAt(cfg, Initial(root, now), es, k))
  {
    var s := Initial(root, now);
    InitialIsSafe(cfg, root, now);
    if forall k: nat :: k <= |es| ==> SafeAt(cfg, s, es, k) {
      forall k: nat | k < |es| ensures BenignAt(cfg, s, es, k) {
        assert SafeAt(cfg, s, es, k) && SafeAt(cfg, s, es, k + 1);
        RunNext(cfg, s, es, k);
        StepKeepsInv(cfg, Run(cfg, s, es[..k]), es[k]);
      }
    }
    if forall k: nat :: k < |es| ==> BenignAt(cfg, s, es, k) {
      forall k: nat | k <= |es| ensures SafeAt(cfg, s, es, k) {
        SafeUpTo(cfg, s, es, k);
      }
    }
  }

  /** Under the tensor preference a planned node that leaves while the heads do not divide over
      those left stays in the plan, without a heartbeat. */
  lemma LeaveStaysPlanned(cfg: Config, s: State, id: string, now: real)
    requires Inv(cfg, s) && cfg.preferred.PreferTensor? && id in PlanIds(s)
    requires var left := |Left(cfg, s, id, now)|; left != 0 && cfg.heads % left != 0
    ensures var t := Step(cfg, s, Leave(id, now));
            id in PlanIds(t) && id !in t.heartbeats && !Inv(cfg, t)
  {
    ReplanForThoseLeft(cfg, s, Leave(id, now));
  }

  /** Heartbeats come from registered nodes only. */
  ghost predicate RegisteredAt(cfg: Config, s: State, es: seq<Event>, k: nat)
    requires k < |es|
  {
    es[k].Heartbeat? ==> es[k].id in Run(cfg, s, es[..k]).nodes
  }

  /** Outside the tensor preference it takes only heartbeats from registered nodes. */
  lemma RegisteredRunsAreSafe(cfg: Config, root: NodeSpec, now: real, es: seq<Event>)
    requires cfg.root == root.nodeId && !cfg.preferred.PreferTensor?
    ensures (forall k: nat :: k <= |es| ==> SafeAt(cfg, Initial(root, now), es, k)) <==>
            (forall k: nat :: k < |es| ==> RegisteredAt(cfg, Initial(root, now), es, k))
  {
    RunKeepsInvIff(cfg, root, now, es);
    assert forall k: nat :: k < |es| ==>
      (RegisteredAt(cfg, Initial(root, now), es, k) <==> BenignAt(cfg, Initial(root, now), es, k));
  }

  // ---------------------------------------------------------------- a tensor group that loses a node

  /** The root and these workers, all seen at time 0. */
  ghost predicate Joined(cfg: Config, s: State, ids: seq<string>) {
    s.heartbeats == [cfg.root] + ids && Inv(cfg, s) && cfg.root !in ids &&
    forall x :: x in s.heartbeats ==> Age(s.lastSeen, x, 0.0) == 0.0
  }

  lemma {:induction false} AllAreMembers(cfg: Config, s: State, ids: seq<string>)
    requires cfg.timeout >= 0.0 && cfg.root !in ids && forall x :: x in ids ==> Age(s.lastSeen, x, 0.0) == 0.0
    ensures Members(cfg, s, 0.0, ids) == ids
  {
    if ids != [] {
      AllAreMembers(cfg, s, ids[1..]);
    }
  }

  lemma RootIsNoMember(cfg: Config, s: State, ids: seq<string>)
    requires cfg.timeout >= 0.0 && cfg.root !in ids && forall x :: x in ids ==> Age(s.lastSeen, x, 0.0) == 0.0
    ensures Members(cfg, s, 0.0, [cfg.root] + ids) == ids
  {
    AllAreMembers(cfg, s, ids);
    assert ([cfg.root] + ids)[1..] == ids;
  }

  /** What the new worker's hello has done when it calls `_replan`. */
  lemma WorkerSeen(cfg: Config, s: State, ids: seq<string>, node: NodeSpec)
    requires cfg.timeout >= 0.0 && Joined(cfg, s, ids) && node.nodeId !in ids && node.nodeId != cfg.root
    ensures var t, all := Touched(cfg, s, Hello(node, 0.0)), ids + [node.nodeId];
            t.heartbeats == [cfg.root] + all && Members(cfg, t, 0.0, t.heartbeats) == all &&
            (forall x :: x in t.heartbeats ==> Age(t.lastSeen, x, 0.0) == 0.0) &&
            forall x :: x in t.nodes ==> t.nodes[x].nodeId == x
  {
    var t, all := Touched(cfg, s, Hello(node, 0.0)), ids + [node.nodeId];
    assert node.nodeId !in s.heartbeats;
    Reassociate([cfg.root], ids, [node.nodeId]);
    forall x | x in all ensures Age(t.lastSeen, x, 0.0) == 0.0 {
      if x in ids {
        assert x in s.heartbeats;
      }
    }
    RootIsNoMember(cfg, t, all);
  }

  lemma HelloReplans(cfg: Config, s: State, node: NodeSpec, all: seq<string>)
    requires var u := Touched(cfg, s, Hello(node, 0.0));
             (forall x :: x in u.nodes ==> u.nodes[x].nodeId == x) && Members(cfg, u, 0.0, u.heartbeats) == all
    requires all != [] && Inv(cfg, Step(cfg, s, Hello(node, 0.0)))
    ensures var u, t := Touched(cfg, s, Hello(node, 0.0)), Step(cfg, s, Hello(node, 0.0));
            t.heartbeats == u.heartbeats && t.lastSeen == u.lastSeen &&
            (cfg.heads % |all| == 0 ==> PlanIds(t) == all)
  {
    var u, t := Touched(cfg, s, Hello(node, 0.0)), Step(cfg, s, Hello(node, 0.0));
    ReplanOutcome(cfg, u, 0.0);
    SameAlive(cfg, u, t, 0.0, u.heartbeats);
    assert forall x :: x in all ==> x in t.heartbeats;
  }

  lemma WorkerJoins(cfg: Config, s: State, ids: seq<string>, node: NodeSpec)
    requires cfg.timeout >= 0.0 && Joined(cfg, s, ids) && node.nodeId !in ids && node.nodeId != cfg.root
    ensures var t, all := Step(cfg, s, Hello(node, 0.0)), ids + [node.nodeId];
            Joined(cfg, t, all) && (cfg.heads % |all| == 0 ==> PlanIds(t) == all)
  {
    WorkerSeen(cfg, s, ids, node);
    StepKeepsInv(cfg, s, Hello(node, 0.0));
    HelloReplans(cfg, s, node, ids + [node.nodeId]);
  }

  function Hellos(nodes: seq<NodeSpec>): seq<Event> {
    seq(|nodes|, i requires 0 <= i < |nodes| => Hello(nodes[i], 0.0))
  }

  function Names(nodes: seq<NodeSpec>): seq<string> {
    seq(|nodes|, i requires 0 <= i < |nodes| => nodes[i].nodeId)
  }

  lemma {:induction false} WorkersJoin(cfg: Config, root: NodeSpec, nodes: seq<NodeSpec>)
    requires cfg.timeout >= 0.0 && cfg.root == root.nodeId && cfg.root !in Names(nodes) && NoDup(Names(nodes))
    ensures var s := Run(cfg, Initial(root, 0.0), Hellos(nodes));
            Joined(cfg, s, Names(nodes)) && (nodes != [] && cfg.heads % |nodes| == 0 ==> PlanIds(s) == Names(nodes))
  {
    if nodes == [] {
      InitialIsSafe(cfg, root, 0.0);
    } else {
      var n := |nodes| - 1;
      var before, last := nodes[..n], nodes[n];
      assert Names(nodes) == Names(before) + [last.nodeId] && Hellos(nodes) == Hellos(before) + [Hello(last, 0.0)];
      assert Names(nodes)[n] == last.nodeId && Names(nodes)[..n] == Names(before);
      WorkersJoin(cfg, root, before);
      assert Hellos(nodes)[..n] == Hellos(before);
      WorkerJoins(cfg, Run(cfg, Initial(root, 0.0), Hellos(before)), Names(before), last);
    }
  }

  lemma {:induction false} DropOne(keys: seq<string>, id: string)
    requires NoDup(keys) && id in keys
    ensures |Drop(keys, id)| == |keys| - 1
  {
    if keys[0] != id {
      DropOne(keys[1..], id);
    } else {
      DropNone(keys[1..], id);
    }
  }

  lemma {:induction false} DropNone(keys: seq<string>, id: string)
    requires id !in keys
    ensures Drop(keys, id) == keys
  {
    if keys != [] {
      DropNone(keys[1..], id);
    }
  }

  lemma OneLess(cfg: Config, s: State, ids: seq<string>, id: string)
    requires cfg.timeout >= 0.0 && Joined(cfg, s, ids) && NoDup(ids) && id in ids
    ensures |Left(cfg, s, id, 0.0)| == |ids| - 1
  {
    DropOne(ids, id);
    assert s.heartbeats[1..] == ids;
    RootIsNoMember(cfg, s, Drop(ids, id));
  }

  lemma GroupLosesOne(cfg: Config, s: State, ids: seq<string>, id: string, left: nat)
    requires cfg.timeout >= 0.0 && Joined(cfg, s, ids) && NoDup(ids) && id in ids && PlanIds(s) == ids
    requires cfg.preferred.PreferTensor? && left == |ids| - 1 && left != 0 && cfg.heads % left != 0
    ensures var t := Step(cfg, s, Leave(id, 0.0));
            id in PlanIds(t) && id !in t.heartbeats && !Inv(cfg, t)
  {
    OneLess(cfg, s, ids, id);
    LeaveStaysPlanned(cfg, s, id, 0.0);
  }

  lemma RunOneMore(cfg: Config, s: State, es: seq<Event>, e: Event)
    ensures Run(cfg, s, es + [e]) == Step(cfg, Run(cfg, s, es), e)
  {
    assert (es + [e])[..|es|] == es;
  }

  /** A group over which the heads divide, and that does not divide once it is one smaller, such as
      four workers for four heads: whoever leaves first stays in the plan. */
  lemma FirstToLeaveStaysPlanned(cfg: Config, root: NodeSpec, nodes: seq<NodeSpec>, id: string, left: nat)
    requires cfg.timeout >= 0.0 && cfg.root == root.nodeId && cfg.root !in Names(nodes) && NoDup(Names(nodes))
    requires cfg.preferred.PreferTensor? && id in Names(nodes)
    requires left == |nodes| - 1 && left != 0 && cfg.heads % |nodes| == 0 && cfg.heads % left != 0
    ensures var s := Run(cfg, Initial(root, 0.0), Hellos(nodes) + [Leave(id, 0.0)]);
            id in PlanIds(s) && id !in s.heartbeats && !Inv(cfg, s)
  {
    var start, ids := Initial(root, 0.0), Names(nodes);
    WorkersJoin(cfg, root, nodes);
    GroupLosesOne(cfg, Run(cfg, start, Hellos(nodes)), ids, id, left);
    RunOneMore(cfg, start, Hellos(nodes), Leave(id, 0.0));
  }

  // ---------------------------------------------------------------- a stranger's heartbeat

  lemma StrangerStopsReplan(cfg: Config, t: State, stranger: string, now: real)
    requires stranger in t.heartbeats && Alive(cfg, t, stranger, now) && stranger != cfg.root && stranger !in t.nodes
    ensures TryReplan(cfg, t, now) == t
  {
    assert stranger in Members(cfg, t, now, t.heartbeats);
  }

  /** One heartbeat from an unregistered node breaks replanning for everyone: a planned node
      that dies next stays in the plan. */
  lemma UnregisteredHeartbeatPinsPlan(cfg: Config, s: State, id: string, stranger: string, now: real)
    requires Inv(cfg, s) && cfg.timeout >= 0.0 && cfg.root in s.nodes
    requires id in PlanIds(s) && Dies(cfg, s, id, now) && stranger !in s.nodes
    ensures var t := Step(cfg, Step(cfg, s, Heartbeat(stranger, now)), Check(id, now));
            id in t.dead && id in PlanIds(t)
  {
    var s2 := Step(cfg, s, Heartbeat(stranger, now));
    assert s2 == Touched(cfg, s, Heartbeat(stranger, now)) && s2.plan == s.plan;
    var t := Touched(cfg, s2, Check(id, now));
    assert t.plan == s.plan && t.nodes == s.nodes && stranger in t.heartbeats && Alive(cfg, t, stranger, now);
    StrangerStopsReplan(cfg, t, stranger, now);
  }

  // ---------------------------------------------------------------- deaths and silence

  predicate Records(e: Event, id: string) {
    (e.Hello? && e.node.nodeId == id) || (e.Heartbeat? && e.id == id)
  }

  predicate Clears(e: Event, id: string) {
    Records(e, id) || (e.Leave? && e.id == id)
  }

  /** How often the death callback fired for a node, and how often it was recorded or forgotten. */
  function Deaths(cfg: Config, s: State, es: seq<Event>, id: string): nat {
    if es == [] then 0 else
      var before, e := es[..|es|-1], es[|es|-1];
      Deaths(cfg, s, before, id) + if e.Check? && e.id == id && Dies(cfg, Run(cfg, s, before), id, e.now) then 1 else 0
  }

  function ClearCount(es: seq<Event>, id: string): nat {
    if es == [] then 0 else ClearCount(es[..|es|-1], id) + if Clears(es[|es|-1], id) then 1 else 0
  }

  /** Between two deaths of a node there is a record or a forget. */
  lemma {:induction false} AtMostOneDeathPerSilence(cfg: Config, s: State, es: seq<Event>, id: string)
    requires id !in s.dead
    ensures Deaths(cfg, s, es, id) + (if id in Run(cfg, s, es).dead then 0 else 1) <= ClearCount(es, id) + 1
  {
    if es != [] {
      AtMostOneDeathPerSilence(cfg, s, es[..|es|-1], id);
    }
  }

  // ---------------------------------------------------------------- departures

  ghost predicate Gone(s: State, id: string) {
    id !in s.nodes && id !in s.heartbeats && id !in s.lastSeen && id !in s.dead
  }

  lemma LeaverIsGone(cfg: Config, s: State, id: string, now: real)
    ensures Gone(Step(cfg, s, Leave(id, now)), id)
  {
    assert Gone(Touched(cfg, s, Leave(id, now)), id);
  }

  lemma StaysGone(cfg: Config, s: State, e: Event, id: string)
    requires Gone(s, id) && !Records(e, id)
    ensures Gone(Step(cfg, s, e), id) && !(e.Check? && e.id == id && Dies(cfg, s, id, e.now))
  {
    assert Gone(Touched(cfg, s, e), id);
  }

  lemma {:induction false} GoneUntilHeard(cfg: Config, s: State, es: seq<Event>, id: string)
    requires Gone(s, id) && forall i :: 0 <= i < |es| ==> !Records(es[i], id)
    ensures Gone(Run(cfg, s, es), id) && Deaths(cfg, s, es, id) == 0
  {
    if es != [] {
      GoneUntilHeard(cfg, s, es[..|es| - 1], id);
      StaysGone(cfg, Run(cfg, s, es[..|es| - 1]), es[|es| - 1], id);
    }
  }

  /** A node that left is never declared dead, counted as heartbeating or registered until it is
      heard of again. */
  lemma DepartureIsNoDeath(cfg: Config, s: State, id: string, now: real, es: seq<Event>)
    requires forall i :: 0 <= i < |es| ==> !Records(es[i], id)
    ensures var t := Step(cfg, s, Leave(id, now)); Gone(Run(cfg, t, es), id) && Deaths(cfg, t, es, id) == 0
  {
    LeaverIsGone(cfg, s, id, now);
    GoneUntilHeard(cfg, Step(cfg, s, Leave(id, now)), es, id);
  }

  /** The spec a node last said hello with, unless it left since. */
  function LastHello(first: map<string, NodeSpec>, es: seq<Event>, id: string): Option<NodeSpec> {
    if es == [] then if id in first then Some(first[id]) else None
    else
      match es[|es|-1]
      case Hello(node, _) => if node.nodeId == id then Some(node) else LastHello(first, es[..|es|-1], id)
      case Leave(left, _) => if left == id then None else LastHello(first, es[..|es|-1], id)
      case _ => LastHello(first, es[..|es|-1], id)
  }

  /** Exactly that spec is registered after any run. */
  lemma {:induction false} RegisteredAsLastHello(cfg: Config, s: State, es: seq<Event>, id: string)
    ensures var nodes := Run(cfg, s, es).nodes;
            LastHello(s.nodes, es, id) == if id in nodes then Some(nodes[id]) else None
  {
    if es != [] {
      RegisteredAsLastHello(cfg, s, es[..|es|-1], id);
    }
  }

  /** A node heartbeats after a step exactly when it was just heard of, or did before and neither
      left nor was declared dead. */
  lemma BeatsIff(cfg: Config, s: State, e: Event, id: string)
    ensures id in Step(cfg, s, e).heartbeats <==>
            Records(e, id) || (id in s.heartbeats && !(Goes(cfg, s, e) && e.id == id))
  {
  }

  // ---------------------------------------------------------------- heartbeat order

  /** A plan's members keep the order in which the nodes first came. */
  lemma {:induction false} MembersJoin(cfg: Config, s: State, now: real, a: seq<string>, b: seq<string>)
    ensures Members(cfg, s, now, a + b) == Members(cfg, s, now, a) + Members(cfg, s, now, b)
  {
    if a == [] {
      assert a + b == b;
    } else {
      assert (a + b)[0] == a[0] && (a + b)[1..] == a[1..] + b;
      MembersJoin(cfg, s, now, a[1..], b);
    }
  }

  lemma {:induction false} DropJoin(a: seq<string>, b: seq<string>, id: string)
    ensures Drop(a + b, id) == Drop(a, id) + Drop(b, id)
  {
    if a == [] {
      assert a + b == b;
    } else {
      assert (a + b)[0] == a[0] && (a + b)[1..] == a[1..] + b;
      DropJoin(a[1..], b, id);
    }
  }

  lemma OneMember(cfg: Config, s: State, now: real, id: string)
    ensures Members(cfg, s, now, [id]) == if id != cfg.root && Alive(cfg, s, id, now) then [id] else []
  {
  }

  /** When the node at position i goes, the members left are those before it and those after it. */
  lemma MembersWithout(cfg: Config, s: State, now: real, i: nat)
    requires i < |s.heartbeats| && NoDup(s.heartbeats)
    ensures Left(cfg, s, s.heartbeats[i], now) ==
            Members(cfg, s, now, s.heartbeats[..i]) + Members(cfg, s, now, s.heartbeats[i + 1..])
  {
    var keys, id := s.heartbeats, s.heartbeats[i];
    assert keys == keys[..i] + ([id] + keys[i + 1..]);
    DropJoin(keys[..i], [id] + keys[i + 1..], id);
    DropNone(keys[..i], id);
    DropNone(keys[i + 1..], id);
    assert ([id] + keys[i + 1..])[1..] == keys[i + 1..];
    MembersJoin(cfg, s, now, keys[..i], keys[i + 1..]);
  }
}
