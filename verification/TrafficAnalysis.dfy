/** `suggest` and `simulate` in `analyse.py`: a policy drafted from observed traffic, and recorded
    traffic replayed against a policy. */
module TrafficAnalysis {
  import opened Outcomes
  import opened Postures
  import opened Glob
  import opened Ordering
  import B = Bundles
  import C = Compiler
  import opened PolicyEngine

  datatype Observation = Observation(
    tool: string, action: string, agent: string, roles: seq<string>, risk: int,
    reversibility: string, effect: string, allowed: bool)

  // ----- what was observed -----------------------------------------------------------------------

  function ToolsOf(obs: seq<Observation>, agent: string): set<string> {
    set o | o in obs && o.agent == agent :: o.tool
  }

  function ActionsOf(obs: seq<Observation>, agent: string): set<string> {
    set o | o in obs && o.agent == agent :: o.action
  }

  function RolesOf(obs: seq<Observation>, agent: string): set<string> {
    set o, role | o in obs && o.agent == agent && role in o.roles :: role
  }

  function OneWayToolsOf(obs: seq<Observation>, agent: string): set<string> {
    set o | o in obs && o.agent == agent && IsOneWayName(o.reversibility) :: o.tool
  }

  function OneWayTools(obs: seq<Observation>): set<string> {
    set o | o in obs && IsOneWayName(o.reversibility) :: o.tool
  }

  function MaxRisk(obs: seq<Observation>, agent: string): (max: int)
    ensures max >= 0
    ensures forall o :: o in obs && o.agent == agent ==> o.risk <= max
    ensures max == 0 || exists o :: o in obs && o.agent == agent && o.risk == max
  {
    if |obs| == 0 then 0
    else
      var last := obs[|obs| - 1];
      var before := MaxRisk(obs[..|obs| - 1], agent);
      assert obs == obs[..|obs| - 1] + [last];
      if last.agent == agent && last.risk > before then last.risk else before
  }

  // How often an agent used each tool and each action.
  function ToolUses(obs: seq<Observation>, agent: string): (uses: multiset<string>)
    ensures forall t :: t in uses <==> t in ToolsOf(obs, agent)
  {
    if |obs| == 0 then multiset{}
    else
      var last := obs[|obs| - 1];
      assert obs == obs[..|obs| - 1] + [last];
      ToolUses(obs[..|obs| - 1], agent) + if last.agent == agent then multiset{last.tool} else multiset{}
  }

  function ActionUses(obs: seq<Observation>, agent: string): (uses: multiset<string>)
    ensures forall a :: a in uses <==> a in ActionsOf(obs, agent)
  {
    if |obs| == 0 then multiset{}
    else
      var last := obs[|obs| - 1];
      assert obs == obs[..|obs| - 1] + [last];
      ActionUses(obs[..|obs| - 1], agent) + if last.agent == agent then multiset{last.action} else multiset{}
  }

  function AgentsOf(obs: seq<Observation>): set<string> {
    set o | o in obs :: o.agent
  }

  // ----- the draft -------------------------------------------------------------------------------

  ghost predicate Lists(list: seq<string>, s: set<string>) {
    Ascending(LessString, list) && forall x :: x in list <==> x in s
  }

  const APPROVAL_ID := "irreversible-needs-a-human"

  function Label(agent: string): string {
    if agent != "" then agent else "unattributed"
  }

  function AllowId(agent: string): string {
    "allow-" + Label(agent)
  }

  // The rules as the policy loader reads them back: a field that is not given has its default.
  function ApprovalRule(tools: seq<string>): Rule {
    Rule(APPROVAL_ID, RequireApproval, tools, ["*"], ["*"], [], [], None, None, None, None, [], AlwaysTrue, None,
         "observed in traffic, but nothing can undo it")
  }

  function AllowRule(agent: string, tools: seq<string>, actions: seq<string>, maxRisk: int): Rule {
    Rule(AllowId(agent), Allow, tools, actions, [if agent != "" then agent else "*"], [], [], None,
         None, Some(maxRisk), None, [], AlwaysTrue, None,
         "observed behaviour of " + if agent != "" then agent else "unattributed callers")
  }

  // The agents with a tool of their own that they were never seen to use irreversibly.
  function AgentsWithRule(obs: seq<Observation>): set<string> {
    set a | a in AgentsOf(obs) && ToolsOf(obs, a) - OneWayToolsOf(obs, a) != {}
  }

  ghost predicate IsAllowRuleFor(obs: seq<Observation>, agent: string, r: Rule) {
    && Lists(r.tools, ToolsOf(obs, agent) - OneWayToolsOf(obs, agent))
    && Lists(r.actions, ActionsOf(obs, agent))
    && r == AllowRule(agent, r.tools, r.actions, MaxRisk(obs, agent))
  }

  // How many rules come before those of the agents.
  function ApprovalCount(obs: seq<Observation>): (n: nat)
    ensures n <= 1
  {
    if OneWayTools(obs) == {} then 0 else 1
  }

  /** The approval clause first, if any tool was seen to be one-way; then one clause for each agent. */
  ghost predicate IsDraft(obs: seq<Observation>, agents: seq<string>, rules: seq<Rule>) {
    var n := ApprovalCount(obs);
    && Lists(agents, AgentsWithRule(obs))
    && |rules| == n + |agents|
    && (n == 1 ==> Lists(rules[0].tools, OneWayTools(obs)) && rules[0] == ApprovalRule(rules[0].tools))
    && forall i :: 0 <= i < |agents| ==> IsAllowRuleFor(obs, agents[i], rules[n + i])
  }

  datatype Profile = Profile(
    tools: multiset<string>, actions: multiset<string>, maxRisk: int, roles: set<string>, irreversible: set<string>)

  ghost predicate IsProfile(obs: seq<Observation>, agent: string, p: Profile) {
    && p.tools == ToolUses(obs, agent)
    && p.actions == ActionUses(obs, agent)
    && p.maxRisk == MaxRisk(obs, agent)
    && p.roles == RolesOf(obs, agent)
    && p.irreversible == OneWayToolsOf(obs, agent)
  }

  ghost predicate AreProfiles(obs: seq<Observation>, byAgent: map<string, Profile>) {
    byAgent.Keys == AgentsOf(obs) && forall a :: a in byAgent ==> IsProfile(obs, a, byAgent[a])
  }

  function Noted(o: Observation, p: Profile): Profile {
    Profile(p.tools + multiset{o.tool}, p.actions + multiset{o.action},
            if o.risk > p.maxRisk then o.risk else p.maxRisk,
            p.roles + (set r | r in o.roles),
            if IsOneWayName(o.reversibility) then p.irreversible + {o.tool} else p.irreversible)
  }

  const FRESH_PROFILE := Profile(multiset{}, multiset{}, 0, {}, {})

  lemma SetsGrow(obs: seq<Observation>, o: Observation, agent: string)
    ensures ToolsOf(obs + [o], agent) == ToolsOf(obs, agent) + if o.agent == agent then {o.tool} else {}
    ensures ActionsOf(obs + [o], agent) == ActionsOf(obs, agent) + if o.agent == agent then {o.action} else {}
    ensures OneWayToolsOf(obs + [o], agent) ==
              OneWayToolsOf(obs, agent) + if o.agent == agent && IsOneWayName(o.reversibility) then {o.tool} else {}
    ensures AgentsOf(obs + [o]) == AgentsOf(obs) + {o.agent}
    ensures RolesOf(obs + [o], agent) == RolesOf(obs, agent) + if o.agent == agent then (set r | r in o.roles) else {}
  {
  }

  lemma RiskGrows(obs: seq<Observation>, o: Observation, agent: string)
    ensures MaxRisk(obs + [o], agent) ==
              if o.agent == agent && o.risk > MaxRisk(obs, agent) then o.risk else MaxRisk(obs, agent)
  {
    assert (obs + [o])[..|obs|] == obs;
  }

  lemma UsesGrow(obs: seq<Observation>, o: Observation, agent: string)
    ensures ToolUses(obs + [o], agent) == if o.agent == agent then ToolUses(obs, agent) + multiset{o.tool} else ToolUses(obs, agent)
    ensures ActionUses(obs + [o], agent) ==
              if o.agent == agent then ActionUses(obs, agent) + multiset{o.action} else ActionUses(obs, agent)
  {
    hide ToolsOf, ActionsOf;
    assert (obs + [o])[..|obs|] == obs;
  }

  lemma ProfileGrows(obs: seq<Observation>, o: Observation, agent: string, p: Profile)
    requires IsProfile(obs, agent, p)
    ensures IsProfile(obs + [o], agent, if o.agent == agent then Noted(o, p) else p)
  {
    hide IsOneWayName, MaxRisk, ToolUses, ActionUses, OneWayToolsOf, AgentsOf, RolesOf;
    SetsGrow(obs, o, agent);
    UsesGrow(obs, o, agent);
    RiskGrows(obs, o, agent);
  }

  lemma UnseenProfile(obs: seq<Observation>, agent: string)
    requires agent !in AgentsOf(obs)
    ensures IsProfile(obs, agent, FRESH_PROFILE)
  {
    assert ToolsOf(obs, agent) == {} && ActionsOf(obs, agent) == {};
    assert forall t :: t !in ToolUses(obs, agent);
    assert forall a :: a !in ActionUses(obs, agent);
    assert forall o :: o in obs ==> o.agent != agent;
  }

  /** The first pass: one profile for each agent. */
  method Profiles(obs: seq<Observation>) returns (byAgent: map<string, Profile>)
    ensures AreProfiles(obs, byAgent)
  {
    hide IsProfile, Noted, AgentsOf;
    byAgent := map[];
    assert AgentsOf([]) == {} by { NoAgents(); }
    for i := 0 to |obs|
      invariant AreProfiles(obs[..i], byAgent)
    {
      var o := obs[i];
      assert obs[..i + 1] == obs[..i] + [o];
      if o.agent !in byAgent {
        UnseenProfile(obs[..i], o.agent);
      }
      var p := if o.agent in byAgent then byAgent[o.agent] else FRESH_PROFILE;
      forall a | a in byAgent || a == o.agent
        ensures IsProfile(obs[..i + 1], a, if a == o.agent then Noted(o, p) else byAgent[a])
      {
        ProfileGrows(obs[..i], o, a, if a == o.agent then p else byAgent[a]);
      }
      SetsGrow(obs[..i], o, o.agent);
      byAgent := byAgent[o.agent := Noted(o, p)];
    }
    assert obs[..|obs|] == obs;
  }

  lemma NoAgents()
    ensures AgentsOf([]) == {}
  {
  }

  method Sorted(s: set<string>) returns (list: seq<string>)
    ensures Lists(list, s)
  {
    hide LessString;
    StringsAreOrdered();
    list := [];
    var rest := s;
    while rest != {}
      invariant rest <= s && Lists(list, s - rest)
    {
      var x :| x in rest;
      rest := rest - {x};
      list := Insert(LessString, x, list);
    }
  }

  // The agents of a list that get a rule, in order.
  function Filtered(obs: seq<Observation>, list: seq<string>): seq<string> {
    if |list| == 0 then []
    else
      var last := list[|list| - 1];
      var before := Filtered(obs, list[..|list| - 1]);
      if ToolsOf(obs, last) - OneWayToolsOf(obs, last) != {} then before + [last] else before
  }

  lemma {:induction false} FilteredAscends(obs: seq<Observation>, list: seq<string>)
    requires Ascending(LessString, list)
    ensures Ascending(LessString, Filtered(obs, list))
    ensures var f := Filtered(obs, list);
            |f| > 0 ==> |list| > 0 && (f[|f| - 1] == list[|list| - 1] || LessString(f[|f| - 1], list[|list| - 1]))
  {
    hide LessString, ToolsOf, OneWayToolsOf;
    if |list| > 0 {
      var n := |list| - 1;
      FilteredAscends(obs, list[..n]);
      var f := Filtered(obs, list[..n]);
      if |f| > 0 {
        assert LessString(list[n - 1], list[n]);
        if f[|f| - 1] != list[n - 1] {
          StringsChain(f[|f| - 1], list[n - 1], list[n]);
        }
      }
    }
  }

  lemma {:induction false} FilteredHolds(obs: seq<Observation>, list: seq<string>)
    ensures forall a :: a in Filtered(obs, list) <==> a in list && ToolsOf(obs, a) - OneWayToolsOf(obs, a) != {}
  {
    hide ToolsOf, OneWayToolsOf;
    if |list| > 0 {
      FilteredHolds(obs, list[..|list| - 1]);
      assert list == list[..|list| - 1] + [list[|list| - 1]];
    }
  }

  lemma FilteredLists(obs: seq<Observation>, list: seq<string>)
    requires Lists(list, AgentsOf(obs))
    ensures Lists(Filtered(obs, list), AgentsWithRule(obs))
  {
    hide ToolsOf, OneWayToolsOf, AgentsOf, LessString, Filtered;
    FilteredAscends(obs, list);
    FilteredHolds(obs, list);
  }

  // The clause of one agent, if it has a tool that may be allowed.
  method AllowClause(agent: string, a: Profile, ghost obs: seq<Observation>) returns (clause: Option<Rule>)
    requires IsProfile(obs, agent, a)
    ensures clause.Some? <==> ToolsOf(obs, agent) - OneWayToolsOf(obs, agent) != {}
    ensures clause.Some? ==> IsAllowRuleFor(obs, agent, clause.value)
  {
    hide ToolsOf, ActionsOf, OneWayToolsOf, MaxRisk, Lists, AllowRule;
    var usable := set t | t in a.tools && t !in a.irreversible;
    assert usable == ToolsOf(obs, agent) - OneWayToolsOf(obs, agent);
    if usable == {} {
      return None;
    }
    var tools := Sorted(usable);
    var did := set x | x in a.actions;
    assert did == ActionsOf(obs, agent);
    var actions := Sorted(did);
    AllowFields(agent, tools, actions, a.maxRisk);
    return Some(AllowRule(agent, tools, actions, a.maxRisk));
  }

  // The approval clause, if some tool was seen to be one-way.
  method ApprovalClause(byAgent: map<string, Profile>, ghost obs: seq<Observation>) returns (rules: seq<Rule>)
    requires AreProfiles(obs, byAgent)
    ensures rules == [] <==> OneWayTools(obs) == {}
    ensures rules != [] ==> |rules| == 1 && Lists(rules[0].tools, OneWayTools(obs)) && rules[0] == ApprovalRule(rules[0].tools)
  {
    hide OneWayTools, Lists, IsProfile;
    var oneWay := set a, t | a in byAgent && t in byAgent[a].irreversible :: t;
    OneWayIsPerAgent(obs, byAgent, oneWay);
    if oneWay == {} {
      return [];
    }
    var tools := Sorted(oneWay);
    return [ApprovalRule(tools)];
  }

  // The clauses of the agents, in the order of their names.
  method AllowClauses(byAgent: map<string, Profile>, ghost obs: seq<Observation>)
    returns (allows: seq<Rule>, ghost agents: seq<string>)
    requires AreProfiles(obs, byAgent)
    ensures |agents| == |allows| && Lists(agents, AgentsWithRule(obs))
    ensures forall k :: 0 <= k < |agents| ==> IsAllowRuleFor(obs, agents[k], allows[k])
  {
    hide Lists, IsAllowRuleFor, IsProfile, Filtered, AgentsWithRule, ToolsOf, OneWayToolsOf;
    var everyone := Sorted(byAgent.Keys);
    FilteredNothing(obs);
    allows, agents := [], [];
    for i := 0 to |everyone|
      invariant |agents| == |allows|
      invariant forall k :: 0 <= k < |agents| ==> IsAllowRuleFor(obs, agents[k], allows[k])
      invariant agents == Filtered(obs, everyone[..i])
    {
      FilteredStep(obs, everyone, i);
      ListedIsMember(everyone, byAgent.Keys, i);
      var clause := AllowClause(everyone[i], byAgent[everyone[i]], obs);
      if clause.Some? {
        allows := allows + [clause.value];
        agents := agents + [everyone[i]];
      }
    }
    assert everyone[..|everyone|] == everyone;
    FilteredLists(obs, everyone);
  }

  lemma FilteredNothing(obs: seq<Observation>)
    ensures Filtered(obs, []) == []
  {
  }

  lemma FilteredStep(obs: seq<Observation>, list: seq<string>, i: nat)
    requires i < |list|
    ensures Filtered(obs, list[..i + 1]) ==
              Filtered(obs, list[..i]) + if ToolsOf(obs, list[i]) - OneWayToolsOf(obs, list[i]) != {} then [list[i]] else []
  {
    hide ToolsOf, OneWayToolsOf;
    assert list[..i + 1][..i] == list[..i];
  }

  /** The draft: the tightest policy for what was seen, with one-way tools set aside for a human. */
  method Suggest(obs: seq<Observation>, name: string) returns (p: Policy, ghost agents: seq<string>)
    ensures p.name == name && p.version == "1" && p.defaultEffect == Deny
    ensures IsDraft(obs, agents, p.rules)
  {
    hide Lists, IsAllowRuleFor, AreProfiles, AgentsWithRule, OneWayTools, ApprovalRule;
    var byAgent := Profiles(obs);
    var approval := ApprovalClause(byAgent, obs);
    var allows: seq<Rule>;
    allows, agents := AllowClauses(byAgent, obs);
    p := Policy(name, "1", Deny, approval + allows);
  }

  /** The draft, spelled out. The approval clause is there if anything was seen to be irreversible or of an
      unknown posture, and lists exactly the tools that were. */
  lemma ApprovalSpelledOut(obs: seq<Observation>, agents: seq<string>, rules: seq<Rule>)
    requires IsDraft(obs, agents, rules)
    ensures |rules| == |agents| + 1
       <==> exists o :: o in obs && (o.reversibility == "irreversible" || o.reversibility == "unknown")
    ensures |rules| == |agents| || |rules| == |agents| + 1
    ensures |rules| == |agents| + 1 ==>
              && rules[0].id == "irreversible-needs-a-human" && rules[0].effect == RequireApproval
              && rules[0].actions == ["*"] && rules[0].agents == ["*"] && rules[0].requireRoles == []
              && rules[0].maxRisk == None && rules[0].minRisk == None && rules[0].minThreat == None
              && rules[0].reversibility == [] && rules[0].minReversibility == None && rules[0].redactFields == []
              && rules[0].condition == AlwaysTrue && rules[0].budget == None
              && rules[0].reason == "observed in traffic, but nothing can undo it"
              && Ascending(LessString, rules[0].tools)
              && forall t :: t in rules[0].tools
                   <==> exists o :: o in obs && o.tool == t
                          && (o.reversibility == "irreversible" || o.reversibility == "unknown")
  {
    hide IsAllowRuleFor, LessString, Ascending;
    if o :| o in obs && (o.reversibility == "irreversible" || o.reversibility == "unknown") {
      assert o.tool in OneWayTools(obs);
    }
    if OneWayTools(obs) != {} {
      var t :| t in OneWayTools(obs);
    }
  }

  /** The clause of an agent: its own tools but those it was seen to use as irreversible or of an unknown
      posture, its actions, and its highest risk. */
  lemma AllowSpelledOut(obs: seq<Observation>, agents: seq<string>, rules: seq<Rule>, i: nat)
    requires IsDraft(obs, agents, rules) && i < |agents|
    ensures var r, a := rules[|rules| - |agents| + i], agents[i];
            && r.id == "allow-" + (if a != "" then a else "unattributed") && r.effect == Allow
            && r.agents == [if a != "" then a else "*"] && r.requireRoles == []
            && r.minRisk == None && r.minThreat == None && r.reversibility == [] && r.minReversibility == None
            && r.redactFields == [] && r.condition == AlwaysTrue && r.budget == None
            && r.reason == "observed behaviour of " + (if a != "" then a else "unattributed callers")
            && (forall t ::
                  (t in r.tools
                   <==> && (exists o :: o in obs && o.agent == a && o.tool == t)
                        && (forall o :: o in obs && o.agent == a && o.tool == t ==>
                              o.reversibility != "irreversible" && o.reversibility != "unknown")))
            && (forall x :: x in r.actions <==> exists o :: o in obs && o.agent == a && o.action == x)
            && r.maxRisk.Some? && r.maxRisk.value >= 0
            && (forall o :: o in obs && o.agent == a ==> o.risk <= r.maxRisk.value)
            && (r.maxRisk.value == 0 || exists o :: o in obs && o.agent == a && o.risk == r.maxRisk.value)
  {
    hide LessString, Ascending, ApprovalRule, IsOneWayName;
    var a := agents[i];
    assert IsAllowRuleFor(obs, a, rules[ApprovalCount(obs) + i]);
    forall t
      ensures t in ToolsOf(obs, a) - OneWayToolsOf(obs, a) <==> IsPlainlyUsed(obs, a, t)
    {
      PlainlyUsedSpelledOut(obs, a, t);
    }
  }

  // The agent used the tool, and never with one of the two postures that nothing undoes.
  predicate IsPlainlyUsed(obs: seq<Observation>, a: string, t: string) {
    && (exists o :: o in obs && o.agent == a && o.tool == t)
    && (forall o :: o in obs && o.agent == a && o.tool == t ==> o.reversibility != "irreversible" && o.reversibility != "unknown")
  }

  lemma PlainlyUsedSpelledOut(obs: seq<Observation>, a: string, t: string)
    ensures t in ToolsOf(obs, a) - OneWayToolsOf(obs, a) <==> IsPlainlyUsed(obs, a, t)
  {
  }

  /** An agent has a clause exactly if there is such a tool; so one seen only with the other three postures
      is in its agent's clause. */
  lemma ClausesSpelledOut(obs: seq<Observation>, agents: seq<string>, rules: seq<Rule>)
    requires IsDraft(obs, agents, rules)
    ensures forall a :: a in agents <==> exists t :: IsPlainlyUsed(obs, a, t)
    ensures forall o :: o in obs && IsPlainlyUsed(obs, o.agent, o.tool) ==>
              exists i :: 0 <= i < |agents| && agents[i] == o.agent && o.tool in rules[|rules| - |agents| + i].tools
  {
    hide Ascending, ApprovalRule, IsAllowRuleFor, AgentsWithRule, IsPlainlyUsed;
    forall a
      ensures a in AgentsWithRule(obs) <==> exists t :: IsPlainlyUsed(obs, a, t)
    {
      AgentSpelledOut(obs, a);
    }
    forall o | o in obs && IsPlainlyUsed(obs, o.agent, o.tool)
      ensures exists i :: 0 <= i < |agents| && agents[i] == o.agent && o.tool in rules[|rules| - |agents| + i].tools
    {
      assert o.agent in agents;
      var i :| 0 <= i < |agents| && agents[i] == o.agent;
      PlainToolIsListed(obs, agents, rules, i, o.tool);
    }
  }

  lemma PlainToolIsListed(obs: seq<Observation>, agents: seq<string>, rules: seq<Rule>, i: nat, t: string)
    requires IsDraft(obs, agents, rules) && i < |agents| && IsPlainlyUsed(obs, agents[i], t)
    ensures t in rules[|rules| - |agents| + i].tools
  {
    hide LessString, Ascending, ApprovalRule, IsOneWayName, IsAllowRuleFor;
    AllowSpelledOut(obs, agents, rules, i);
  }

  lemma AgentSpelledOut(obs: seq<Observation>, a: string)
    ensures a in AgentsWithRule(obs) <==> exists t :: IsPlainlyUsed(obs, a, t)
  {
    hide IsPlainlyUsed, OneWayToolsOf;
    forall t
      ensures t in ToolsOf(obs, a) - OneWayToolsOf(obs, a) <==> IsPlainlyUsed(obs, a, t)
    {
      PlainlyUsedSpelledOut(obs, a, t);
    }
    if t :| IsPlainlyUsed(obs, a, t) {
      assert t in ToolsOf(obs, a) - OneWayToolsOf(obs, a);
    }
    if ToolsOf(obs, a) - OneWayToolsOf(obs, a) != {} {
      var t :| t in ToolsOf(obs, a) - OneWayToolsOf(obs, a);
    }
  }

  lemma ListedIsMember(list: seq<string>, s: set<string>, i: nat)
    requires Lists(list, s) && i < |list|
    ensures list[i] in s
  {
  }

  lemma AllowFields(agent: string, tools: seq<string>, actions: seq<string>, maxRisk: int)
    ensures AllowRule(agent, tools, actions, maxRisk).tools == tools
    ensures AllowRule(agent, tools, actions, maxRisk).actions == actions
  {
  }

  lemma OneWayIsPerAgent(obs: seq<Observation>, byAgent: map<string, Profile>, oneWay: set<string>)
    requires AreProfiles(obs, byAgent)
    requires oneWay == set a, t | a in byAgent && t in byAgent[a].irreversible :: t
    ensures oneWay == OneWayTools(obs)
  {
    hide IsOneWayName;
    forall t | t in OneWayTools(obs)
      ensures t in oneWay
    {
      var o :| o in obs && IsOneWayName(o.reversibility) && o.tool == t;
      assert o.agent in byAgent && t in byAgent[o.agent].irreversible;
    }
  }

  // ----- what the draft decides --------------------------------------------------------------------

  // Some name of the set, read as a pattern, matches the value.
  predicate Hit(patterns: set<string>, value: string) {
    exists p :: p in patterns && FnMatchCase(value, p)
  }

  lemma ListHits(list: seq<string>, s: set<string>, value: string)
    requires Lists(list, s)
    ensures B.AnyGlob(value, list) <==> Hit(s, value)
  {
    hide FnMatchCase, LessString;
  }

  /** What the clause of one agent lets through: callers that its id matches, tools that it was seen to use
      and never irreversibly, its actions, up to its highest risk. */
  predicate Allows(obs: seq<Observation>, agent: string, c: B.Call) {
    && (agent == "" || FnMatchCase(c.agent, agent))
    && Hit(ToolsOf(obs, agent) - OneWayToolsOf(obs, agent), c.tool)
    && Hit(ActionsOf(obs, agent), c.action)
    && c.risk <= MaxRisk(obs, agent)
  }

  predicate IsAllowed(obs: seq<Observation>, c: B.Call) {
    exists a :: a in AgentsOf(obs) && Allows(obs, a, c)
  }

  lemma AllowRuleShape(obs: seq<Observation>, agent: string, r: Rule)
    requires IsAllowRuleFor(obs, agent, r)
    ensures r.effect == Allow && r.id == AllowId(agent) && r.condition.AlwaysTrue? && r.budget.None?
  {
    hide AllowId, Lists;
  }

  lemma ApprovalRuleShape(tools: seq<string>)
    ensures var r := ApprovalRule(tools);
            r.effect == RequireApproval && r.id == APPROVAL_ID && r.condition.AlwaysTrue? && r.budget.None?
  {
  }

  lemma ApprovalMatches(obs: seq<Observation>, r: Rule, c: B.Call, posture: Posture, around: Surroundings)
    requires Lists(r.tools, OneWayTools(obs)) && r == ApprovalRule(r.tools)
    ensures RuleMatches(r, c, posture, around) <==> Hit(OneWayTools(obs), c.tool)
  {
    hide B.AnyGlob, Hit, Lists;
    ListHits(r.tools, OneWayTools(obs), c.tool);
    B.StarIsAny(c.action);
    B.StarIsAny(c.agent);
  }

  lemma OneGlob(value: string, pattern: string)
    ensures B.AnyGlob(value, [pattern]) <==> FnMatchCase(value, pattern)
  {
    hide FnMatchCase;
    assert [pattern][0] == pattern;
  }

  lemma AllowMatches(obs: seq<Observation>, agent: string, r: Rule, c: B.Call, posture: Posture, around: Surroundings)
    requires IsAllowRuleFor(obs, agent, r)
    ensures RuleMatches(r, c, posture, around) <==> Allows(obs, agent, c)
  {
    hide B.AnyGlob, FnMatchCase, MaxRisk, Hit, Lists, ToolsOf, ActionsOf, OneWayToolsOf;
    ListHits(r.tools, ToolsOf(obs, agent) - OneWayToolsOf(obs, agent), c.tool);
    ListHits(r.actions, ActionsOf(obs, agent), c.action);
    if agent == "" {
      B.StarIsAny(c.agent);
    } else {
      OneGlob(c.agent, agent);
    }
  }

  lemma DraftMatches(obs: seq<Observation>, agents: seq<string>, p: Policy, c: B.Call, posture: Posture,
        around: Surroundings)
    requires IsDraft(obs, agents, p.rules)
    ensures var n := ApprovalCount(obs);
            && |p.rules| == n + |agents|
            && (n == 1 ==> p.rules[0].effect == RequireApproval
                           && (RuleMatches(p.rules[0], c, posture, around) <==> Hit(OneWayTools(obs), c.tool)))
            && forall i :: n <= i < |p.rules| ==>
                 && p.rules[i].effect == Allow
                 && (RuleMatches(p.rules[i], c, posture, around) <==> Allows(obs, agents[i - n], c))
  {
    hide RuleMatches, Allows, Hit, Lists, OneWayTools, IsAllowRuleFor, ApprovalRule;
    var n := ApprovalCount(obs);
    if n == 1 {
      ApprovalRuleShape(p.rules[0].tools);
      ApprovalMatches(obs, p.rules[0], c, posture, around);
    }
    forall i | n <= i < |p.rules|
      ensures p.rules[i].effect == Allow
      ensures RuleMatches(p.rules[i], c, posture, around) <==> Allows(obs, agents[i - n], c)
    {
      assert IsAllowRuleFor(obs, agents[i - n], p.rules[n + (i - n)]);
      AllowRuleShape(obs, agents[i - n], p.rules[i]);
      AllowMatches(obs, agents[i - n], p.rules[i], c, posture, around);
    }
  }

  // Every agent whose clause lets a call through has a clause.
  lemma AllowingIsListed(obs: seq<Observation>, agents: seq<string>, agent: string, c: B.Call)
    requires Lists(agents, AgentsWithRule(obs)) && Allows(obs, agent, c)
    ensures agent in agents
  {
    hide FnMatchCase, MaxRisk, LessString;
  }

  lemma ListedIsAgent(obs: seq<Observation>, agents: seq<string>, i: nat)
    requires Lists(agents, AgentsWithRule(obs)) && i < |agents|
    ensures agents[i] in AgentsOf(obs)
  {
    assert agents[i] in agents;
  }

  lemma SomeClauseAllows(obs: seq<Observation>, agents: seq<string>, c: B.Call)
    requires Lists(agents, AgentsWithRule(obs))
    ensures IsAllowed(obs, c) <==> exists i :: 0 <= i < |agents| && Allows(obs, agents[i], c)
  {
    hide Allows, Lists, AgentsOf;
    if IsAllowed(obs, c) {
      var a :| a in AgentsOf(obs) && Allows(obs, a, c);
      AllowingIsListed(obs, agents, a, c);
    }
    if i :| 0 <= i < |agents| && Allows(obs, agents[i], c) {
      ListedIsAgent(obs, agents, i);
    }
  }

  lemma NoToolsNoHit(obs: seq<Observation>, value: string)
    ensures ApprovalCount(obs) == 0 ==> !Hit(OneWayTools(obs), value)
  {
  }

  lemma FirstRuleDecides(p: Policy, c: B.Call, posture: Posture, around: Surroundings)
    requires |p.rules| > 0 && RuleMatches(p.rules[0], c, posture, around)
    ensures Decided(p, c, posture, around).effect == p.rules[0].effect
  {
    hide RuleMatches;
  }

  lemma LaterRuleAllows(p: Policy, n: nat, i: nat, c: B.Call, posture: Posture, around: Surroundings)
    requires n <= i < |p.rules| && RuleMatches(p.rules[i], c, posture, around)
    requires forall j :: 0 <= j < n ==> !RuleMatches(p.rules[j], c, posture, around)
    requires forall j :: n <= j < |p.rules| ==> p.rules[j].effect == Allow
    ensures Decided(p, c, posture, around).effect == Allow
  {
    hide RuleMatches, FirstMatch;
  }

  lemma NoRuleDecides(p: Policy, c: B.Call, posture: Posture, around: Surroundings)
    requires forall j :: 0 <= j < |p.rules| ==> !RuleMatches(p.rules[j], c, posture, around)
    ensures Decided(p, c, posture, around).effect == p.defaultEffect
  {
    hide RuleMatches, FirstMatch;
  }

  /** The draft decides every call, seen or not, with names of any kind: what a one-way tool's name
      matches needs a human; what the clause of some agent lets through is allowed; everything else is
      denied. */
  lemma DraftDecides(obs: seq<Observation>, agents: seq<string>, p: Policy, c: B.Call, posture: Posture,
        around: Surroundings)
    requires IsDraft(obs, agents, p.rules) && p.defaultEffect == Deny
    ensures Decided(p, c, posture, around).effect ==
              if Hit(OneWayTools(obs), c.tool) then RequireApproval
              else if IsAllowed(obs, c) then Allow
              else Deny
  {
    hide RuleMatches, Allows, Hit, Lists, Decided, OneWayTools, IsDraft, IsAllowed, ApprovalCount;
    var n := ApprovalCount(obs);
    DraftLists(obs, agents, p.rules);
    DraftMatches(obs, agents, p, c, posture, around);
    NoToolsNoHit(obs, c.tool);
    SomeClauseAllows(obs, agents, c);
    if Hit(OneWayTools(obs), c.tool) {
      FirstRuleDecides(p, c, posture, around);
    } else if IsAllowed(obs, c) {
      var i :| 0 <= i < |agents| && Allows(obs, agents[i], c);
      assert agents[(n + i) - n] == agents[i];
      LaterRuleAllows(p, n, n + i, c, posture, around);
    } else {
      NoRuleDecides(p, c, posture, around);
    }
  }

  // ----- the draft fits its own evidence -----------------------------------------------------------

  function CallOf(o: Observation): B.Call {
    B.Call(o.tool, o.action, o.agent, o.roles, o.risk, 0, o.reversibility)
  }

  // What the draft is meant to do with an observation: hold back the tools that were ever seen to be
  // one-way, whoever used them, and allow the rest.
  function Wanted(obs: seq<Observation>, o: Observation): Effect {
    if o.tool in OneWayTools(obs) then RequireApproval else Allow
  }

  /** What the names must be like for that: a one-way tool is matched by the name of a one-way tool; any
      other is matched by none, and some agent's clause lets the observed call through. */
  predicate NamesFit(obs: seq<Observation>, o: Observation) {
    if o.tool in OneWayTools(obs) then Hit(OneWayTools(obs), o.tool)
    else !Hit(OneWayTools(obs), o.tool) && IsAllowed(obs, CallOf(o))
  }

  /** The draft fits its own evidence exactly when the observed names, read as patterns, match as wanted. */
  lemma DraftFitsExactly(obs: seq<Observation>, agents: seq<string>, p: Policy, posture: Posture, around: Surroundings)
    requires IsDraft(obs, agents, p.rules) && p.defaultEffect == Deny
    ensures (forall o :: o in obs ==> Decided(p, CallOf(o), posture, around).effect == Wanted(obs, o))
       <==> (forall o :: o in obs ==> NamesFit(obs, o))
  {
    hide Decided, IsDraft, OneWayTools, Hit, IsAllowed, CallOf;
    forall o | o in obs
      ensures Decided(p, CallOf(o), posture, around).effect == Wanted(obs, o) <==> NamesFit(obs, o)
    {
      DraftDecides(obs, agents, p, CallOf(o), posture, around);
      assert CallOf(o).tool == o.tool by { CallOfTool(o); }
    }
  }

  lemma CallOfTool(o: Observation)
    ensures CallOf(o).tool == o.tool
  {
  }

  predicate NamesAreLiteral(obs: seq<Observation>) {
    forall o :: o in obs ==> IsLiteral(o.tool) && IsLiteral(o.action) && IsLiteral(o.agent)
  }

  lemma LiteralHits(patterns: set<string>, value: string)
    requires forall p :: p in patterns ==> IsLiteral(p)
    ensures Hit(patterns, value) <==> value in patterns
  {
    hide FnMatchCase, IsLiteral;
    forall p | p in patterns
      ensures FnMatchCase(value, p) <==> value == p
    {
      LiteralMatchesItself(p, value);
    }
  }

  /** Names without glob characters always match as wanted. */
  lemma LiteralNamesFit(obs: seq<Observation>, o: Observation)
    requires NamesAreLiteral(obs) && o in obs
    ensures NamesFit(obs, o)
  {
    hide FnMatchCase, IsLiteral, Hit, IsOneWayName, MaxRisk;
    LiteralHits(OneWayTools(obs), o.tool);
    if o.tool !in OneWayTools(obs) {
      OneWayOfIsOneWay(obs, o.agent);
      LiteralHits(ToolsOf(obs, o.agent) - OneWayToolsOf(obs, o.agent), o.tool);
      LiteralHits(ActionsOf(obs, o.agent), o.action);
      LiteralMatchesItself(o.agent, o.agent);
      RiskIsBounded(obs, o);
      assert Allows(obs, o.agent, CallOf(o)) && o.agent in AgentsOf(obs);
    }
  }

  lemma OneWayOfIsOneWay(obs: seq<Observation>, agent: string)
    ensures OneWayToolsOf(obs, agent) <= OneWayTools(obs)
  {
  }

  lemma RiskIsBounded(obs: seq<Observation>, o: Observation)
    requires o in obs
    ensures o.risk <= MaxRisk(obs, o.agent)
  {
  }

  /** So with names free of glob characters the draft holds back exactly the calls to tools that were ever
      seen to be one-way, whoever used them, and allows the rest. */
  lemma DraftFitsItsEvidence(obs: seq<Observation>, agents: seq<string>, p: Policy, o: Observation,
                             posture: Posture, around: Surroundings)
    requires IsDraft(obs, agents, p.rules) && p.defaultEffect == Deny && NamesAreLiteral(obs) && o in obs
    ensures Decided(p, CallOf(o), posture, around).effect == Wanted(obs, o)
  {
    hide Decided, IsDraft, NamesFit, Wanted, NamesAreLiteral;
    DraftFitsExactly(obs, agents, p, posture, around);
    forall x | x in obs
      ensures NamesFit(obs, x)
    {
      LiteralNamesFit(obs, x);
    }
  }

  lemma DraftCompiles(obs: seq<Observation>, agents: seq<string>, p: Policy)
    requires IsDraft(obs, agents, p.rules)
    ensures C.Compiled(p, None, "unknown").Ok?
  {
    hide C.Compiled, OneWayTools, Lists, IsAllowRuleFor, ApprovalRule;
    var n := ApprovalCount(obs);
    forall r | r in p.rules
      ensures r.condition.AlwaysTrue? && r.budget.None?
    {
      var i :| 0 <= i < |p.rules| && p.rules[i] == r;
      if i < n {
        ApprovalRuleShape(p.rules[0].tools);
      } else {
        assert IsAllowRuleFor(obs, agents[i - n], p.rules[n + (i - n)]);
        AllowRuleShape(obs, agents[i - n], r);
      }
    }
    C.CompilesExactly(p, None, "unknown");
  }

  // A rule that does not look at the posture.
  predicate IsPostureFree(r: B.Rule) {
    r.minReversibility.None? && r.reversibility == []
  }

  /** Without clauses on postures the verdict does not depend on the one the call carries, whatever
      string that is. */
  lemma PostureIsIdle(b: B.Bundle, c: B.Call, other: string)
    requires forall i :: 0 <= i < |b.rules| ==> IsPostureFree(b.rules[i])
    ensures B.Judged(b, c).allowed <==> B.Judged(b, c.(reversibility := other)).allowed
  {
    hide B.RuleMatches, B.FirstMatch, B.PostureOf;
    var d := c.(reversibility := other);
    var k := B.FirstMatch(b.rules, 0, c, B.PostureOf(b, c));
    forall i | 0 <= i < |b.rules|
      ensures B.RuleMatches(b.rules[i], c, B.PostureOf(b, c)) <==> B.RuleMatches(b.rules[i], d, B.PostureOf(b, d))
    {
      MatchesForAnyPosture(b.rules[i], c, other, B.PostureOf(b, c), B.PostureOf(b, d));
    }
    B.FirstMatchIs(b.rules, d, B.PostureOf(b, d), k);
  }

  lemma MatchesForAnyPosture(r: B.Rule, c: B.Call, other: string, rev: string, rev': string)
    requires IsPostureFree(r)
    ensures B.RuleMatches(r, c, rev) <==> B.RuleMatches(r, c.(reversibility := other), rev')
  {
    hide B.AnyGlob, B.RolesMatch, B.NumbersMatch;
  }

  lemma DraftIsPostureFree(obs: seq<Observation>, agents: seq<string>, p: Policy)
    requires IsDraft(obs, agents, p.rules) && C.Compiled(p, None, "unknown").Ok?
    ensures var rules := C.Compiled(p, None, "unknown").value.rules;
            forall i :: 0 <= i < |rules| ==> IsPostureFree(rules[i])
  {
    hide OneWayTools, Lists, IsAllowRuleFor, ApprovalRule, C.CompileRules;
    C.CompileRulesExactly(p.rules);
    var n := ApprovalCount(obs);
    forall i | 0 <= i < |p.rules|
      ensures p.rules[i].minReversibility.None? && p.rules[i].reversibility == []
    {
      if i < n {
        ApprovalIsPostureFree(p.rules[0].tools);
      } else {
        assert IsAllowRuleFor(obs, agents[i - n], p.rules[n + (i - n)]);
        AllowIsPostureFree(obs, agents[i - n], p.rules[i]);
      }
    }
    forall i | 0 <= i < |p.rules|
      ensures IsPostureFree(C.CompileRules(p.rules).value[i])
    {
      assert C.CompileRule(p.rules[i]) == Ok(C.CompileRules(p.rules).value[i]);
    }
  }

  lemma ApprovalIsPostureFree(tools: seq<string>)
    ensures ApprovalRule(tools).minReversibility.None? && ApprovalRule(tools).reversibility == []
  {
  }

  lemma AllowIsPostureFree(obs: seq<Observation>, agent: string, r: Rule)
    requires IsAllowRuleFor(obs, agent, r)
    ensures r.minReversibility.None? && r.reversibility == []
  {
  }

  /** The same as the bundle evaluator, and so `simulate`, sees it: for names and postures of any kind, and
      on the draft's own evidence when the names match as wanted. */
  lemma CompiledDraftFitsItsEvidence(obs: seq<Observation>, agents: seq<string>, p: Policy, o: Observation)
    requires IsDraft(obs, agents, p.rules) && p.defaultEffect == Deny
    ensures C.Compiled(p, None, "unknown").Ok?
    ensures var v := B.Judged(C.Compiled(p, None, "unknown").value, CallOf(o));
            && (v.allowed <==> !Hit(OneWayTools(obs), o.tool) && IsAllowed(obs, CallOf(o)))
            && (o in obs && NamesFit(obs, o) ==> (v.allowed <==> o.tool !in OneWayTools(obs)))
  {
    hide Decided, B.Judged, C.Compiled, OneWayTools, Hit, IsDraft, Name;
    DraftCompiles(obs, agents, p);
    DraftIsPostureFree(obs, agents, p);
    var around := Surroundings(map[], map[]);
    var named := CallOf(o).(reversibility := Name(Unknown));
    PostureIsIdle(C.Compiled(p, None, "unknown").value, CallOf(o), Name(Unknown));
    DraftDecides(obs, agents, p, named, Unknown, around);
    C.CompilationPreservesMeaning(p, None, "unknown", named, Unknown, around);
    AllowedForAnyPosture(obs, CallOf(o), Name(Unknown));
  }

  lemma AllowedForAnyPosture(obs: seq<Observation>, c: B.Call, other: string)
    ensures IsAllowed(obs, c) <==> IsAllowed(obs, c.(reversibility := other))
  {
    hide AgentsOf, Hit, ActionsOf, MaxRisk;
    forall a
      ensures Allows(obs, a, c) <==> Allows(obs, a, c.(reversibility := other))
    {
    }
  }

  // ----- what stands in the way of the draft -------------------------------------------------------

  ghost predicate DistinctIds(rules: seq<Rule>) {
    forall i, j :: 0 <= i < j < |rules| ==> rules[i].id != rules[j].id
  }

  lemma DraftIdAt(obs: seq<Observation>, agents: seq<string>, rules: seq<Rule>, i: nat)
    requires IsDraft(obs, agents, rules) && i < |rules|
    ensures |rules| == ApprovalCount(obs) + |agents|
    ensures rules[i].id == if i < ApprovalCount(obs) then APPROVAL_ID else AllowId(agents[i - ApprovalCount(obs)])
  {
  }

  lemma SameAllowId(a: string, b: string)
    ensures AllowId(a) == AllowId(b) <==> a == b || (a == "" && b == "unattributed") || (a == "unattributed" && b == "")
  {
    assert AllowId(a)[6..] == Label(a) && AllowId(b)[6..] == Label(b);
  }

  lemma NoAllowIdIsTheApproval(agent: string)
    ensures AllowId(agent) != APPROVAL_ID
  {
    assert AllowId(agent)[0] == 'a';
  }

  lemma DraftLists(obs: seq<Observation>, agents: seq<string>, rules: seq<Rule>)
    requires IsDraft(obs, agents, rules)
    ensures Lists(agents, AgentsWithRule(obs)) && Ascending(LessString, agents)
  {
  }

  // Two clauses share an id exactly when they are those of the nameless callers and of `unattributed`.
  lemma ClausesClash(agents: seq<string>, i: nat, j: nat)
    requires Ascending(LessString, agents) && i < j < |agents|
    ensures AllowId(agents[i]) == AllowId(agents[j]) ==> "" in agents && "unattributed" in agents
  {
    hide AllowId, LessString;
    StringsAreStrict();
    assert Ascending(LessString, agents[i..]);
    FirstIsLeast(LessString, agents[i..], j - i);
    SameAllowId(agents[i], agents[j]);
    assert agents[i] in agents && agents[j] in agents;
  }

  lemma ClashNeedsBoth(obs: seq<Observation>, agents: seq<string>, rules: seq<Rule>, i: nat, j: nat)
    requires IsDraft(obs, agents, rules) && i < j < |rules| && rules[i].id == rules[j].id
    ensures "" in agents && "unattributed" in agents
  {
    hide AgentsWithRule, ApprovalCount, LessString, IsDraft, AllowId, Lists, Ascending;
    DraftIdAt(obs, agents, rules, i);
    DraftIdAt(obs, agents, rules, j);
    DraftLists(obs, agents, rules);
    var n := ApprovalCount(obs);
    NoAllowIdIsTheApproval(agents[j - n]);
    ClausesClash(agents, i - n, j - n);
  }

  lemma BothClash(obs: seq<Observation>, agents: seq<string>, rules: seq<Rule>, i: nat, j: nat)
    requires IsDraft(obs, agents, rules) && i < |agents| && j < |agents|
    requires agents[i] == "" && agents[j] == "unattributed"
    ensures !DistinctIds(rules)
  {
  }

  /** The policy loader refuses a repeated rule id. The draft repeats one exactly when callers without an
      id and an agent named `unattributed` both get a clause. */
  lemma DraftIdsClashExactly(obs: seq<Observation>, agents: seq<string>, rules: seq<Rule>)
    requires IsDraft(obs, agents, rules)
    ensures DistinctIds(rules) <==> !("" in AgentsWithRule(obs) && "unattributed" in AgentsWithRule(obs))
  {
    DraftLists(obs, agents, rules);
    hide AgentsWithRule, LessString, IsDraft;
    if "" in agents && "unattributed" in agents {
      var i :| 0 <= i < |agents| && agents[i] == "";
      var j :| 0 <= j < |agents| && agents[j] == "unattributed";
      BothClash(obs, agents, rules, i, j);
    }
    if i, j :| 0 <= i < j < |rules| && rules[i].id == rules[j].id {
      ClashNeedsBoth(obs, agents, rules, i, j);
    }
  }

  /** A name that reads as a pattern need not match itself: the draft denies the very call it was
      drafted from. */
  lemma PatternNamesBreakTheFit(obs: seq<Observation>)
    requires obs == [Observation("a[b]", "write", "agent", [], 0, "reversible", "allow", true)]
    ensures !NamesFit(obs, obs[0]) && !Hit(OneWayTools(obs), "a[b]") && !IsAllowed(obs, CallOf(obs[0]))
  {
    hide FnMatchCase;
    BracketNameMissesItself();
    assert OneWayTools(obs) == {};
    forall a
      ensures !Allows(obs, a, CallOf(obs[0]))
    {
      assert forall t :: t in ToolsOf(obs, a) ==> t == "a[b]";
    }
  }

  lemma BracketNameMissesItself()
    ensures !FnMatchCase("a[b]", "a[b]")
  {
  }

  /** And it may match another: a one-way tool named `a*` makes the draft hold back the tool `ab`, which was
      only ever seen to be reversible. */
  lemma OneWayPatternHoldsBack(obs: seq<Observation>)
    requires obs == [Observation("a*", "write", "agent", [], 0, "irreversible", "allow", true),
                     Observation("ab", "write", "agent", [], 0, "reversible", "allow", true)]
    ensures "ab" !in OneWayTools(obs) && Hit(OneWayTools(obs), "ab") && !NamesFit(obs, obs[1])
  {
    hide FnMatchCase;
    assert "a" + "*" + "" == "a*" && "ab"[1..][1..] == "";
    OneStarMatches("a", "", "ab");
    assert obs[0] in obs && obs[1] in obs;
    assert "a*" in OneWayTools(obs);
  }

  // ----- replaying traffic -------------------------------------------------------------------------

  datatype Change = Change(tool: string, action: string, agent: string, was: string, now: string, count: nat)

  predicate SameKey(e: Change, o: Observation) {
    e.tool == o.tool && e.action == o.action && e.agent == o.agent
  }

  // A dictionary keyed by tool, action and agent, in insertion order.
  function Bump(rows: seq<Change>, o: Observation, now: string): seq<Change> {
    if |rows| == 0 then [Change(o.tool, o.action, o.agent, o.effect, now, 1)]
    else if SameKey(rows[0], o) then [rows[0].(count := rows[0].count + 1)] + rows[1..]
    else [rows[0]] + Bump(rows[1..], o, now)
  }

  function SumCounts(rows: seq<Change>): nat {
    if |rows| == 0 then 0 else rows[0].count + SumCounts(rows[1..])
  }

  /** The observations the bundle would decide otherwise, among those that were (or were not) allowed. */
  function Flipped(obs: seq<Observation>, b: B.Bundle, was: bool): seq<Observation> {
    if |obs| == 0 then []
    else
      var o := obs[|obs| - 1];
      var before := Flipped(obs[..|obs| - 1], b, was);
      if o.allowed == was && B.Judged(b, CallOf(o)).allowed != was then before + [o] else before
  }

  function CountKey(obs: seq<Observation>, e: Change): nat {
    if |obs| == 0 then 0
    else CountKey(obs[..|obs| - 1], e) + if SameKey(e, obs[|obs| - 1]) then 1 else 0
  }

  predicate SameRow(e: Change, f: Change) {
    e.tool == f.tool && e.action == f.action && e.agent == f.agent
  }

  ghost predicate KeysDistinct(rows: seq<Change>) {
    forall i, j :: 0 <= i < j < |rows| ==> !SameRow(rows[i], rows[j])
  }

  // The row shows the verdicts, old and new, of the first call of its kind that flipped.
  ghost predicate ShowsFirst(row: Change, flipped: seq<Observation>, b: B.Bundle) {
    exists k :: 0 <= k < |flipped| && SameKey(row, flipped[k]) && (forall j :: 0 <= j < k ==> !SameKey(row, flipped[j]))
                && row.was == flipped[k].effect && row.now == B.Judged(b, CallOf(flipped[k])).effect
  }

  lemma StillShowsFirst(row: Change, row': Change, flipped: seq<Observation>, o: Observation, b: B.Bundle)
    requires ShowsFirst(row, flipped, b) && row' == row.(count := row'.count)
    ensures ShowsFirst(row', flipped + [o], b)
  {
    hide B.Judged;
    var k :| 0 <= k < |flipped| && SameKey(row, flipped[k]) && (forall j :: 0 <= j < k ==> !SameKey(row, flipped[j]))
             && row.was == flipped[k].effect && row.now == B.Judged(b, CallOf(flipped[k])).effect;
    var all := flipped + [o];
    assert all[k] == flipped[k] && forall j :: 0 <= j < k ==> all[j] == flipped[j];
  }

  lemma ShowsItself(row: Change, flipped: seq<Observation>, o: Observation, b: B.Bundle)
    requires forall j :: 0 <= j < |flipped| ==> !SameKey(row, flipped[j])
    requires SameKey(row, o) && row.was == o.effect && row.now == B.Judged(b, CallOf(o)).effect
    ensures ShowsFirst(row, flipped + [o], b)
  {
    hide B.Judged;
    var all := flipped + [o];
    assert all[|flipped|] == o && forall j :: 0 <= j < |flipped| ==> all[j] == flipped[j];
  }

  /** One row for each kind of call that flipped, with the number of times it did and the verdicts of the
      first. */
  ghost predicate Tallies(rows: seq<Change>, flipped: seq<Observation>, b: B.Bundle) {
    && (forall i :: 0 <= i < |rows| ==> ShowsFirst(rows[i], flipped, b))
    && KeysDistinct(rows)
    && (forall i :: 0 <= i < |rows| ==> rows[i].count == CountKey(flipped, rows[i]))
    && (forall o :: o in flipped ==> exists i :: 0 <= i < |rows| && SameKey(rows[i], o))
    && SumCounts(rows) == |flipped|
  }

  lemma {:induction false} BumpAddsOne(rows: seq<Change>, o: Observation, now: string)
    ensures SumCounts(Bump(rows, o, now)) == SumCounts(rows) + 1
    ensures |rows| <= |Bump(rows, o, now)| <= |rows| + 1
    ensures forall i :: 0 <= i < |rows| ==>
              || Bump(rows, o, now)[i] == rows[i]
              || (SameKey(rows[i], o) && Bump(rows, o, now)[i] == rows[i].(count := rows[i].count + 1))
    ensures |Bump(rows, o, now)| > |rows| ==>
              && Bump(rows, o, now)[|rows|] == Change(o.tool, o.action, o.agent, o.effect, now, 1)
              && forall i :: 0 <= i < |rows| ==> !SameKey(rows[i], o) && Bump(rows, o, now)[i] == rows[i]
    ensures |Bump(rows, o, now)| == |rows| ==>
              exists i :: 0 <= i < |rows| && SameKey(rows[i], o) && Bump(rows, o, now)[i] == rows[i].(count := rows[i].count + 1)
  {
    hide SameKey;
    if |rows| > 0 && !SameKey(rows[0], o) {
      BumpAddsOne(rows[1..], o, now);
    }
  }

  // A count depends on the key alone.
  lemma {:induction false} CountGoesByKey(obs: seq<Observation>, e: Change, f: Change)
    requires SameRow(e, f)
    ensures CountKey(obs, e) == CountKey(obs, f)
  {
    if |obs| > 0 {
      CountGoesByKey(obs[..|obs| - 1], e, f);
    }
  }

  lemma {:induction false} CountOfAbsent(obs: seq<Observation>, e: Change)
    requires forall o :: o in obs ==> !SameKey(e, o)
    ensures CountKey(obs, e) == 0
  {
    if |obs| > 0 {
      CountOfAbsent(obs[..|obs| - 1], e);
    }
  }

  lemma CountOneMore(obs: seq<Observation>, o: Observation, e: Change)
    ensures CountKey(obs + [o], e) == CountKey(obs, e) + if SameKey(e, o) then 1 else 0
  {
    assert (obs + [o])[..|obs|] == obs;
  }

  // The row after the update that stands where a row stood before counts what it should.
  lemma OldRowCounts(rows: seq<Change>, flipped: seq<Observation>, o: Observation, now: string, i: nat, b: B.Bundle)
    requires Tallies(rows, flipped, b) && i < |rows| && |Bump(rows, o, now)| >= |rows|
    requires Bump(rows, o, now)[i] == if SameKey(rows[i], o) then rows[i].(count := rows[i].count + 1) else rows[i]
    ensures Bump(rows, o, now)[i].count == CountKey(flipped + [o], Bump(rows, o, now)[i])
  {
    hide Bump, SumCounts, CountKey, ShowsFirst, B.Judged;
    var e := Bump(rows, o, now)[i];
    CountGoesByKey(flipped, rows[i], e);
    CountOneMore(flipped, o, e);
  }

  lemma NewRowCounts(rows: seq<Change>, flipped: seq<Observation>, o: Observation, e: Change, b: B.Bundle)
    requires Tallies(rows, flipped, b) && SameKey(e, o) && forall i :: 0 <= i < |rows| ==> !SameKey(rows[i], o)
    ensures CountKey(flipped + [o], e) == 1
  {
    hide SumCounts, CountKey, ShowsFirst;
    forall x | x in flipped
      ensures !SameKey(e, x)
    {
      var i :| 0 <= i < |rows| && SameKey(rows[i], x);
    }
    CountOfAbsent(flipped, e);
    CountOneMore(flipped, o, e);
  }

  lemma NewRowIsFirst(rows: seq<Change>, flipped: seq<Observation>, o: Observation, e: Change, b: B.Bundle)
    requires Tallies(rows, flipped, b) && SameKey(e, o) && forall i :: 0 <= i < |rows| ==> !SameKey(rows[i], o)
    ensures forall j :: 0 <= j < |flipped| ==> !SameKey(e, flipped[j])
  {
    hide SumCounts, CountKey, ShowsFirst;
    forall j | 0 <= j < |flipped|
      ensures !SameKey(e, flipped[j])
    {
      assert flipped[j] in flipped;
      var i :| 0 <= i < |rows| && SameKey(rows[i], flipped[j]);
    }
  }

  // With distinct keys, the one row that changes is the row of the key.
  lemma RowsAfterBump(rows: seq<Change>, o: Observation, now: string)
    requires KeysDistinct(rows)
    ensures var r := Bump(rows, o, now);
            && |rows| <= |r| <= |rows| + 1
            && (forall i :: 0 <= i < |rows| ==>
                  r[i] == if SameKey(rows[i], o) then rows[i].(count := rows[i].count + 1) else rows[i])
            && (|r| > |rows| ==> SameKey(r[|rows|], o) && r[|rows|].count == 1
                                 && r[|rows|].was == o.effect && r[|rows|].now == now
                                 && forall i :: 0 <= i < |rows| ==> !SameKey(rows[i], o))
            && (exists i :: 0 <= i < |r| && SameKey(r[i], o))
  {
  }

  /** One more flipped call keeps the rows an exact tally. */
  lemma BumpKeepsTally(rows: seq<Change>, flipped: seq<Observation>, o: Observation, now: string, b: B.Bundle)
    requires now == B.Judged(b, CallOf(o)).effect
    requires Tallies(rows, flipped, b)
    ensures Tallies(Bump(rows, o, now), flipped + [o], b)
  {
    hide Bump, SumCounts, CountKey, ShowsFirst, B.Judged;
    var r := Bump(rows, o, now);
    BumpAddsOne(rows, o, now);
    RowsAfterBump(rows, o, now);
    forall i | 0 <= i < |r|
      ensures r[i].count == CountKey(flipped + [o], r[i])
      ensures ShowsFirst(r[i], flipped + [o], b)
    {
      if i < |rows| {
        StillShowsFirst(rows[i], r[i], flipped, o, b);
        OldRowCounts(rows, flipped, o, now, i, b);
      } else {
        NewRowIsFirst(rows, flipped, o, r[i], b);
        ShowsItself(r[i], flipped, o, b);
        NewRowCounts(rows, flipped, o, r[i], b);
      }
    }
    forall x | x in flipped + [o]
      ensures exists i :: 0 <= i < |r| && SameKey(r[i], x)
    {
      if x in flipped {
        var i :| 0 <= i < |rows| && SameKey(rows[i], x);
        assert SameKey(r[i], x);
      }
    }
  }

  datatype Replay = Replay(
    observations: nat, asBefore: nat, blockedCalls: nat, allowedCalls: nat,
    newlyBlocked: seq<Change>, newlyAllowed: seq<Change>)

  method Total(rows: seq<Change>) returns (n: nat)
    ensures n == SumCounts(rows)
  {
    n := 0;
    for i := 0 to |rows|
      invariant n + SumCounts(rows[i..]) == SumCounts(rows)
    {
      assert rows[i..][1..] == rows[i + 1..];
      n := n + rows[i].count;
    }
  }

  lemma FlippedStep(obs: seq<Observation>, b: B.Bundle, was: bool, i: nat)
    requires i < |obs|
    ensures Flipped(obs[..i + 1], b, was) ==
              if obs[i].allowed == was && B.Judged(b, CallOf(obs[i])).allowed != was
              then Flipped(obs[..i], b, was) + [obs[i]] else Flipped(obs[..i], b, was)
  {
    hide B.Judged;
    assert obs[..i + 1][..i] == obs[..i];
  }

  /** The replay: every observation is unchanged, newly blocked or newly allowed, and the rows say how
      often each kind of call flipped. */
  method Simulate(obs: seq<Observation>, b: B.Bundle) returns (r: Replay)
    ensures r.observations == |obs|
    ensures r.blockedCalls == |Flipped(obs, b, true)| && r.allowedCalls == |Flipped(obs, b, false)|
    ensures r.asBefore + r.blockedCalls + r.allowedCalls == r.observations
    ensures Tallies(r.newlyBlocked, Flipped(obs, b, true), b) && Tallies(r.newlyAllowed, Flipped(obs, b, false), b)
    // Spelled out: the observations that were allowed and would not be, and the other way round.
    ensures r.blockedCalls == |set i: nat | i < |obs| && obs[i].allowed && !Replayed(obs[i], b).allowed|
    ensures r.allowedCalls == |set i: nat | i < |obs| && !obs[i].allowed && Replayed(obs[i], b).allowed|
  {
    hide B.Judged, Flipped, Bump, CountKey, Replayed;
    var blocked: seq<Change> := [];
    var unlocked: seq<Change> := [];
    var asBefore, total := 0, 0;
    NothingFlipped(b);
    for i := 0 to |obs|
      invariant total == i
      invariant Tallies(blocked, Flipped(obs[..i], b, true), b) && Tallies(unlocked, Flipped(obs[..i], b, false), b)
      invariant asBefore + |Flipped(obs[..i], b, true)| + |Flipped(obs[..i], b, false)| == i
    {
      var o := obs[i];
      FlippedStep(obs, b, true, i);
      FlippedStep(obs, b, false, i);
      total := total + 1;
      var verdict := B.Evaluate(b, CallOf(o));
      if verdict.allowed == o.allowed {
        asBefore := asBefore + 1;
      } else if o.allowed {
        BumpKeepsTally(blocked, Flipped(obs[..i], b, true), o, verdict.effect, b);
        blocked := Bump(blocked, o, verdict.effect);
      } else {
        BumpKeepsTally(unlocked, Flipped(obs[..i], b, false), o, verdict.effect, b);
        unlocked := Bump(unlocked, o, verdict.effect);
      }
    }
    assert obs[..|obs|] == obs;
    FlippedSpelledOut(obs, b);
    var blockedCalls := Total(blocked);
    var allowedCalls := Total(unlocked);
    r := Replay(total, asBefore, blockedCalls, allowedCalls, blocked, unlocked);
  }

  // The evaluator's verdict on an observation: all that was recorded of the call, and no threat.
  function Replayed(o: Observation, b: B.Bundle): B.Verdict {
    B.Judged(b, B.Call(o.tool, o.action, o.agent, o.roles, o.risk, 0, o.reversibility))
  }

  predicate Flips(o: Observation, b: B.Bundle, was: bool) {
    o.allowed == was && Replayed(o, b).allowed != was
  }

  lemma FlippedSpelledOut(obs: seq<Observation>, b: B.Bundle)
    ensures |Flipped(obs, b, true)| == |set i: nat | i < |obs| && obs[i].allowed && !Replayed(obs[i], b).allowed|
    ensures |Flipped(obs, b, false)| == |set i: nat | i < |obs| && !obs[i].allowed && Replayed(obs[i], b).allowed|
  {
    hide B.Judged, Flipped, Replayed;
    var blocked := seq(|obs|, i requires 0 <= i < |obs| => Flips(obs[i], b, true));
    var unlocked := seq(|obs|, i requires 0 <= i < |obs| => Flips(obs[i], b, false));
    FlippedCount(obs, b, true, blocked, |obs|);
    FlippedCount(obs, b, false, unlocked, |obs|);
    assert obs[..|obs|] == obs;
    assert (set i: nat | i < |obs| && obs[i].allowed && !Replayed(obs[i], b).allowed)
        == set i: nat | i < |obs| && blocked[i];
    assert (set i: nat | i < |obs| && !obs[i].allowed && Replayed(obs[i], b).allowed)
        == set i: nat | i < |obs| && unlocked[i];
  }

  lemma TruesGrow(marks: seq<bool>, n: nat)
    requires n < |marks|
    ensures |set i: nat | i < n + 1 && marks[i]| == |set i: nat | i < n && marks[i]| + if marks[n] then 1 else 0
  {
    var before, now := set i: nat | i < n && marks[i], set i: nat | i < n + 1 && marks[i];
    assert now == before + if marks[n] then {n} else {};
  }

  lemma {:induction false} RowCount(obs: seq<Observation>, b: B.Bundle, was: bool, e: Change, marks: seq<bool>, n: nat)
    requires n <= |obs| == |marks|
    requires forall i :: 0 <= i < |obs| ==> marks[i] == (Flips(obs[i], b, was) && SameKey(e, obs[i]))
    ensures CountKey(Flipped(obs[..n], b, was), e) == |set i: nat | i < n && marks[i]|
  {
    hide Flipped, Flips, CountKey, SameKey;
    var marked := set i: nat | i < n && marks[i];
    assert n == 0 ==> marked == {};
    if n == 0 {
      NothingFlipped(b);
      assert obs[..0] == [];
      NothingCounted(e);
    } else {
      RowCount(obs, b, was, e, marks, n - 1);
      CountGrows(obs, b, was, e, n - 1);
      TruesGrow(marks, n - 1);
    }
  }

  /** What a row counts: the observations with its tool, action and agent whose verdict flips. */
  lemma RowCountSpelledOut(obs: seq<Observation>, b: B.Bundle, was: bool, e: Change)
    ensures CountKey(Flipped(obs, b, was), e) ==
              |set i: nat | i < |obs| && obs[i].allowed == was && Replayed(obs[i], b).allowed != was
                            && obs[i].tool == e.tool && obs[i].action == e.action && obs[i].agent == e.agent|
  {
    hide Flipped, CountKey, Replayed;
    var marks := seq(|obs|, i requires 0 <= i < |obs| => Flips(obs[i], b, was) && SameKey(e, obs[i]));
    RowCount(obs, b, was, e, marks, |obs|);
    assert obs[..|obs|] == obs;
    assert (set i: nat | i < |obs| && marks[i])
        == set i: nat | i < |obs| && obs[i].allowed == was && Replayed(obs[i], b).allowed != was
                        && obs[i].tool == e.tool && obs[i].action == e.action && obs[i].agent == e.agent;
  }

  lemma RowsShowFirst(rows: seq<Change>, flipped: seq<Observation>, b: B.Bundle, i: nat)
    requires Tallies(rows, flipped, b) && i < |rows|
    ensures ShowsFirst(rows[i], flipped, b)
  {
    hide ShowsFirst, CountKey, SumCounts;
  }

  lemma ShownObservation(row: Change, flipped: seq<Observation>, b: B.Bundle) returns (o: Observation)
    requires ShowsFirst(row, flipped, b)
    ensures o in flipped && SameKey(row, o) && row.was == o.effect && row.now == B.Judged(b, CallOf(o)).effect
  {
    hide B.Judged;
    var k :| 0 <= k < |flipped| && SameKey(row, flipped[k]) && (forall j :: 0 <= j < k ==> !SameKey(row, flipped[j]))
                && row.was == flipped[k].effect && row.now == B.Judged(b, CallOf(flipped[k])).effect;
    o := flipped[k];
  }

  /** What a row shows: the recorded effect and the new one of an observation of its kind that flips. */
  lemma RowShowsSpelledOut(row: Change, obs: seq<Observation>, b: B.Bundle, was: bool) returns (o: Observation)
    requires ShowsFirst(row, Flipped(obs, b, was), b)
    ensures o in obs && o.allowed == was && Replayed(o, b).allowed != was
    ensures o.tool == row.tool && o.action == row.action && o.agent == row.agent
    ensures row.was == o.effect && row.now == Replayed(o, b).effect
  {
    hide Flipped, B.Judged, ShowsFirst;
    o := ShownObservation(row, Flipped(obs, b, was), b);
    FlippedAreObserved(obs, b, was, o);
  }

  lemma {:induction false} FlippedAreObserved(obs: seq<Observation>, b: B.Bundle, was: bool, o: Observation)
    requires o in Flipped(obs, b, was)
    ensures o in obs && Flips(o, b, was)
  {
    hide B.Judged;
    if |obs| > 0 {
      var before := Flipped(obs[..|obs| - 1], b, was);
      if o in before {
        FlippedAreObserved(obs[..|obs| - 1], b, was, o);
      }
    }
  }

  lemma NothingCounted(e: Change)
    ensures CountKey([], e) == 0
  {
  }

  lemma CountGrows(obs: seq<Observation>, b: B.Bundle, was: bool, e: Change, n: nat)
    requires n < |obs|
    ensures CountKey(Flipped(obs[..n + 1], b, was), e) ==
              CountKey(Flipped(obs[..n], b, was), e) + if Flips(obs[n], b, was) && SameKey(e, obs[n]) then 1 else 0
  {
    hide B.Judged, Flipped;
    FlippedStep(obs, b, was, n);
    var before := Flipped(obs[..n], b, was);
    assert (before + [obs[n]])[..|before|] == before;
  }

  lemma FlippedGrows(obs: seq<Observation>, b: B.Bundle, was: bool, n: nat)
    requires n < |obs|
    ensures |Flipped(obs[..n + 1], b, was)| == |Flipped(obs[..n], b, was)| + if Flips(obs[n], b, was) then 1 else 0
  {
    hide B.Judged, Flipped;
    FlippedStep(obs, b, was, n);
  }

  lemma {:induction false} FlippedCount(obs: seq<Observation>, b: B.Bundle, was: bool, marks: seq<bool>, n: nat)
    requires n <= |obs| == |marks|
    requires forall i :: 0 <= i < |obs| ==> marks[i] == Flips(obs[i], b, was)
    ensures |Flipped(obs[..n], b, was)| == |set i: nat | i < n && marks[i]|
  {
    hide Flipped, Flips;
    var marked := set i: nat | i < n && marks[i];
    assert n == 0 ==> marked == {};
    if n == 0 {
      NothingFlipped(b);
      assert obs[..0] == [];
    } else {
      FlippedCount(obs, b, was, marks, n - 1);
      FlippedGrows(obs, b, was, n - 1);
      TruesGrow(marks, n - 1);
    }
  }

  lemma NothingFlipped(b: B.Bundle)
    ensures Flipped([], b, true) == [] && Flipped([], b, false) == [] && Tallies([], [], b)
  {
  }
}
