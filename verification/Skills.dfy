/** Skills that compose other skills by name, and the depth-first expansion of their tools. */
module Skills {
  import opened Sequences
  import opened Wrappers

  datatype Skill = Skill(name: string, tools: seq<string>, refs: seq<string>)

  /** Skills are stored under their own names, and `default` always exists. */
  ghost predicate IsRegistry(reg: map<string, Skill>) {
    "default" in reg && forall k :: k in reg ==> reg[k].name == k
  }

  // ---------------------------------------------------------------- the expansion as a function

  function AddNew(tools: seq<string>, more: seq<string>): seq<string>
    decreases |more|
  {
    if more == [] then tools
    else AddNew(if more[0] in tools then tools else tools + [more[0]], more[1..])
  }

  /** Visit the refs in order; an unknown or seen one is skipped. */
  function WalkRefs(reg: map<string, Skill>, refs: seq<string>, seen: set<string>, tools: seq<string>)
    : (r: (set<string>, seq<string>))
    ensures seen <= r.0
    decreases reg.Keys - seen, |refs|, 0
  {
    if refs == [] then (seen, tools)
    else if refs[0] in reg && refs[0] !in seen then
      var (s, t) := Walk(reg, reg[refs[0]], seen + {refs[0]}, tools);
      WalkRefs(reg, refs[1..], s, t)
    else WalkRefs(reg, refs[1..], seen, tools)
  }

  /** The refs first, then the skill's own tools. */
  function Walk(reg: map<string, Skill>, skill: Skill, seen: set<string>, tools: seq<string>)
    : (r: (set<string>, seq<string>))
    ensures seen <= r.0
    decreases reg.Keys - seen, |skill.refs|, 1
  {
    var (s, t) := WalkRefs(reg, skill.refs, seen, tools);
    (s, AddNew(t, skill.tools))
  }

  // ---------------------------------------------------------------- reachability

  ghost predicate Path(reg: map<string, Skill>, p: seq<string>) {
    p != [] && (forall i :: 0 <= i < |p| ==> p[i] in reg) &&
    forall i :: 0 <= i < |p| - 1 ==> p[i+1] in reg[p[i]].refs
  }

  ghost predicate Reaches(reg: map<string, Skill>, a: string, b: string) {
    exists p :: Path(reg, p) && p[0] == a && p[|p|-1] == b
  }

  lemma ReachesItself(reg: map<string, Skill>, a: string)
    requires a in reg
    ensures Reaches(reg, a, a)
  {
    assert Path(reg, [a]);
  }

  lemma ReachesThrough(reg: map<string, Skill>, a: string, b: string, c: string)
    requires a in reg && b in reg[a].refs && Reaches(reg, b, c)
    ensures Reaches(reg, a, c)
  {
    var p :| Path(reg, p) && p[0] == b && p[|p|-1] == c;
    var q := [a] + p;
    forall i | 0 <= i < |q| - 1 ensures q[i+1] in reg[q[i]].refs {
      assert q[i+1] == p[i];
    }
    assert Path(reg, q);
  }

  ghost predicate Closed(reg: map<string, Skill>, seen: set<string>, name: string)
    requires name in reg
  {
    forall r :: r in reg[name].refs && r in reg ==> r in seen
  }

  /** A set closed under resolvable refs holds everything reachable from it. */
  lemma {:induction false} ClosedHoldsReachable(reg: map<string, Skill>, seen: set<string>, p: seq<string>)
    requires forall n :: n in seen ==> n in reg && Closed(reg, seen, n)
    requires Path(reg, p) && p[0] in seen
    ensures p[|p|-1] in seen
  {
    if |p| > 1 {
      assert Closed(reg, seen, p[0]) && p[1] in reg[p[0]].refs;
      forall i | 0 <= i < |p[1..]| - 1 ensures p[1..][i+1] in reg[p[1..][i]].refs {
        assert p[i+1+1] in reg[p[i+1]].refs;
      }
      ClosedHoldsReachable(reg, seen, p[1..]);
    }
  }

  // ---------------------------------------------------------------- what one walk does

  lemma {:induction false} AddNewAddsAll(tools: seq<string>, more: seq<string>)
    ensures forall t :: t in AddNew(tools, more) <==> t in tools || t in more
    ensures NoDup(tools) ==> NoDup(AddNew(tools, more))
    decreases |more|
  {
    if more != [] {
      AddNewAddsAll(if more[0] in tools then tools else tools + [more[0]], more[1..]);
      assert forall t :: t in more <==> t == more[0] || t in more[1..];
    }
  }

  /** Names a visit added: all registered, and everything they refer to is seen by now. */
  ghost predicate Settled(reg: map<string, Skill>, before: set<string>, after: set<string>) {
    forall n :: n in after && n !in before ==> n in reg && Closed(reg, after, n)
  }

  /** The tools gathered are the old ones and those of the names added. */
  ghost predicate Gathered(reg: map<string, Skill>, added: set<string>, old': seq<string>, now: seq<string>) {
    forall t :: t in now <==> t in old' || exists n :: n in added && n in reg && t in reg[n].tools
  }

  ghost predicate AllReached(reg: map<string, Skill>, refs: seq<string>, added: set<string>) {
    forall n :: n in added ==> exists r :: r in refs && r in reg && Reaches(reg, r, n)
  }

  lemma GatheredTwice(reg: map<string, Skill>, a: set<string>, b: set<string>, t0: seq<string>, t1: seq<string>,
                      t2: seq<string>)
    requires Gathered(reg, a, t0, t1) && Gathered(reg, b, t1, t2)
    ensures Gathered(reg, a + b, t0, t2)
  {
    forall t ensures t in t2 <==> t in t0 || exists n :: n in a + b && n in reg && t in reg[n].tools {
      if t in t2 {
        if t !in t1 {
          var n :| n in b && n in reg && t in reg[n].tools;
          assert n in a + b;
        } else if t !in t0 {
          var n :| n in a && n in reg && t in reg[n].tools;
          assert n in a + b;
        }
      }
    }
  }

  /** A visited ref contributes itself and what its own refs added. */
  lemma VisitGathers(reg: map<string, Skill>, name: string, added: set<string>, t0: seq<string>, t1: seq<string>)
    requires name in reg && Gathered(reg, added, t0, t1)
    ensures Gathered(reg, added + {name}, t0, AddNew(t1, reg[name].tools))
  {
    AddNewAddsAll(t1, reg[name].tools);
    forall t ensures t in AddNew(t1, reg[name].tools) <==>
                     t in t0 || exists n :: n in added + {name} && n in reg && t in reg[n].tools
    {
      if t in reg[name].tools {
        assert name in added + {name};
      } else if t in t1 && t !in t0 {
        var n :| n in added && n in reg && t in reg[n].tools;
        assert n in added + {name};
      }
    }
  }

  /** The whole effect of walking a list of refs. */
  ghost predicate WalkOk(reg: map<string, Skill>, refs: seq<string>, seen: set<string>, tools: seq<string>) {
    var (s, t) := WalkRefs(reg, refs, seen, tools);
    (forall r :: r in refs && r in reg ==> r in s) &&
    Settled(reg, seen, s) && Gathered(reg, s - seen, tools, t) && AllReached(reg, refs, s - seen) &&
    (NoDup(tools) ==> NoDup(t))
  }

  lemma AllReachedThrough(reg: map<string, Skill>, name: string, added: set<string>)
    requires name in reg && AllReached(reg, reg[name].refs, added)
    ensures forall n :: n in added + {name} ==> Reaches(reg, name, n)
  {
    ReachesItself(reg, name);
    forall n | n in added ensures Reaches(reg, name, n) {
      var r :| r in reg[name].refs && r in reg && Reaches(reg, r, n);
      ReachesThrough(reg, name, r, n);
    }
  }

  lemma {:induction false} WalkRefsOk(reg: map<string, Skill>, refs: seq<string>, seen: set<string>, tools: seq<string>)
    ensures WalkOk(reg, refs, seen, tools)
    decreases reg.Keys - seen, |refs|
  {
    if refs == [] {
    } else if refs[0] in reg && refs[0] !in seen {
      VisitThenRest(reg, refs, seen, tools);
    } else {
      WalkRefsOk(reg, refs[1..], seen, tools);
      assert forall r :: r in refs <==> r == refs[0] || r in refs[1..];
    }
  }

  lemma {:induction false} VisitThenRest(reg: map<string, Skill>, refs: seq<string>, seen: set<string>,
                                         tools: seq<string>)
    requires refs != [] && refs[0] in reg && refs[0] !in seen
    ensures WalkOk(reg, refs, seen, tools)
    decreases reg.Keys - seen, |refs|, 0
  {
    var name := refs[0];
    var inner := seen + {name};
    WalkRefsOk(reg, reg[name].refs, inner, tools);
    var (s1, t1) := WalkRefs(reg, reg[name].refs, inner, tools);
    var t1' := AddNew(t1, reg[name].tools);
    AddNewAddsAll(t1, reg[name].tools);
    VisitGathers(reg, name, s1 - inner, tools, t1);
    AllReachedThrough(reg, name, s1 - inner);
    assert s1 - inner + {name} == s1 - seen;

    WalkRefsOk(reg, refs[1..], s1, t1');
    var (s2, t2) := WalkRefs(reg, refs[1..], s1, t1');
    GatheredTwice(reg, s1 - seen, s2 - s1, tools, t1', t2);
    assert (s1 - seen) + (s2 - s1) == s2 - seen;
    assert WalkRefs(reg, refs, seen, tools) == (s2, t2);
    assert forall r :: r in refs <==> r == name || r in refs[1..];
    assert Closed(reg, s1, name);
  }

  /** The expansion terminates on every graph, cycles included, visits exactly the skills
      reachable through resolvable refs, and returns exactly their tools, each once. */
  lemma ExpansionIsReachability(reg: map<string, Skill>, root: string)
    requires root in reg
    ensures var (seen, tools) := Walk(reg, reg[root], {root}, []);
            (forall n :: n in seen <==> Reaches(reg, root, n)) &&
            (forall t :: t in tools <==> exists n :: Reaches(reg, root, n) && t in reg[n].tools) &&
            NoDup(tools)
  {
    var (seen, t) := WalkRefs(reg, reg[root].refs, {root}, []);
    WalkRefsOk(reg, reg[root].refs, {root}, []);
    AllReachedThrough(reg, root, seen - {root});
    VisitGathers(reg, root, seen - {root}, [], t);
    AddNewAddsAll(t, reg[root].tools);
    assert seen - {root} + {root} == seen;
    assert Closed(reg, seen, root);
    forall n | Reaches(reg, root, n) ensures n in seen {
      var p :| Path(reg, p) && p[0] == root && p[|p|-1] == n;
      ClosedHoldsReachable(reg, seen, p);
    }
  }

  // ---------------------------------------------------------------- the order of the tools

  /** Tools are added in the order in which they come, each at its first occurrence. */
  lemma {:induction false} AddNewInOrder(tools: seq<string>, more: seq<string>, last: string)
    ensures tools <= AddNew(tools, more)
    ensures AddNew(tools, more + [last]) ==
            if last in AddNew(tools, more) then AddNew(tools, more) else AddNew(tools, more) + [last]
    decreases |more|
  {
    if more == [] {
      assert more + [last] == [last] && [last][1..] == [];
    } else {
      assert (more + [last])[0] == more[0] && (more + [last])[1..] == more[1..] + [last];
      AddNewInOrder(if more[0] in tools then tools else tools + [more[0]], more[1..], last);
    }
  }

  /** Refs are walked in order: what the earlier ones gave comes first. */
  lemma {:induction false} RefsInOrder(reg: map<string, Skill>, refs: seq<string>, last: string, seen: set<string>,
                                       tools: seq<string>)
    ensures var (s, t) := WalkRefs(reg, refs, seen, tools);
            WalkRefs(reg, refs + [last], seen, tools) ==
              if last in reg && last !in s then Walk(reg, reg[last], s + {last}, t) else (s, t)
    decreases reg.Keys - seen, |refs|
  {
    var all := refs + [last];
    if refs == [] {
      assert all == [last] && all[1..] == [];
    } else {
      assert all[0] == refs[0] && all[1..] == refs[1..] + [last];
      if refs[0] in reg && refs[0] !in seen {
        var (s, t) := Walk(reg, reg[refs[0]], seen + {refs[0]}, tools);
        RefsInOrder(reg, refs[1..], last, s, t);
      } else {
        RefsInOrder(reg, refs[1..], last, seen, tools);
      }
    }
  }

  /** The first k tools are those of the skills the root composes; the root's own others follow. */
  ghost predicate RefsThenOwn(reg: map<string, Skill>, root: string, tools: seq<string>, k: nat)
    requires root in reg
  {
    k <= |tools| &&
    (forall t :: t in tools[..k] <==> exists n :: n != root && Reaches(reg, root, n) && t in reg[n].tools) &&
    forall t :: t in tools[k..] ==> t in reg[root].tools && t !in tools[..k]
  }

  lemma {:induction false} AddNewTail(tools: seq<string>, more: seq<string>)
    ensures tools <= AddNew(tools, more)
    ensures forall t :: t in AddNew(tools, more)[|tools|..] ==> t in more && t !in tools
    decreases |more|
  {
    if more != [] {
      var first := if more[0] in tools then tools else tools + [more[0]];
      AddNewTail(first, more[1..]);
      forall t | t in AddNew(tools, more)[|tools|..] ensures t in more && t !in tools {
        if t !in AddNew(first, more[1..])[|first|..] {
          assert first == tools + [more[0]] && t == more[0];
        }
      }
    }
  }

  lemma RefsBeforeOwn(reg: map<string, Skill>, root: string) returns (k: nat)
    requires root in reg
    ensures RefsThenOwn(reg, root, Walk(reg, reg[root], {root}, []).1, k)
  {
    var (seen, t) := WalkRefs(reg, reg[root].refs, {root}, []);
    var tools := Walk(reg, reg[root], {root}, []).1;
    WalkRefsOk(reg, reg[root].refs, {root}, []);
    ExpansionIsReachability(reg, root);
    AddNewTail(t, reg[root].tools);
    k := |t|;
    assert tools[..k] == t;
    forall x ensures x in t <==> exists n :: n != root && Reaches(reg, root, n) && x in reg[n].tools {
      if x in t {
        var n :| n in seen - {root} && n in reg && x in reg[n].tools;
        assert n != root && Reaches(reg, root, n);
      }
      if n :| n != root && Reaches(reg, root, n) && x in reg[n].tools {
        assert n in seen - {root};
      }
    }
  }

  // ---------------------------------------------------------------- the registry

  /** One call of `resolve_tools`: the set and the list its nested function shares. */
  class Walker {
    const reg: map<string, Skill>
    var seen: set<string>
    var tools: seq<string>

    constructor (reg: map<string, Skill>, root: string)
      ensures this.reg == reg && seen == {root} && tools == []
    {
      this.reg, seen, tools := reg, {root}, [];
    }

    method AddTools(more: seq<string>)
      modifies `tools
      ensures tools == AddNew(old(tools), more)
    {
      for i := 0 to |more|
        invariant AddNew(tools, more[i..]) == AddNew(old(tools), more)
      {
        if more[i] !in tools {
          tools := tools + [more[i]];
        }
      }
    }

    method WalkSkill(skill: Skill)
      requires forall k :: k in reg ==> reg[k].name == k
      modifies this
      ensures (seen, tools) == Walk(reg, skill, old(seen), old(tools))
      decreases reg.Keys - seen
    {
      for i := 0 to |skill.refs|
        invariant old(seen) <= seen
        invariant WalkRefs(reg, skill.refs[i..], seen, tools) == WalkRefs(reg, skill.refs, old(seen), old(tools))
      {
        if skill.refs[i] in reg {
          var base := reg[skill.refs[i]];
          if base.name !in seen {
            seen := seen + {base.name};
            WalkSkill(base);
          }
        }
      }
      AddTools(skill.tools);
    }
  }

  class SkillsRegistry {
    var skills: map<string, Skill>

    ghost predicate Valid()
      reads this
    {
      IsRegistry(skills)
    }

    constructor (defaults: map<string, Skill>)
      requires IsRegistry(defaults)
      ensures Valid() && skills == defaults
    {
      skills := defaults;
    }

    method Save(skill: Skill)
      requires Valid()
      modifies this
      ensures Valid() && skills == old(skills)[skill.name := skill]
    {
      skills := skills[skill.name := skill];
    }

    /** An absent, empty or unknown name resolves to `default`. */
    method ResolveTools(name: Option<string>) returns (skill: Skill, tools: seq<string>)
      requires Valid()
      ensures name.Some? && name.value != "" && name.value in skills ==>
                skill == skills[name.value] && skill.name == name.value
      ensures name.None? || name.value == "" || name.value !in skills ==> skill == skills["default"]
      ensures skill.name in skills && skills[skill.name] == skill
      ensures forall t :: t in tools <==> exists n :: Reaches(skills, skill.name, n) && t in skills[n].tools
      ensures NoDup(tools) && exists k: nat :: RefsThenOwn(skills, skill.name, tools, k)
      ensures tools == Walk(skills, skill, {skill.name}, []).1
    {
      var wanted := if name.None? || name.value == "" then "default" else name.value;
      skill := if wanted in skills then skills[wanted] else skills["default"];
      var walker := new Walker(skills, skill.name);
      walker.WalkSkill(skill);
      tools := walker.tools;
      ExpansionIsReachability(skills, skill.name);
      ghost var k := RefsBeforeOwn(skills, skill.name);
    }
  }
}
