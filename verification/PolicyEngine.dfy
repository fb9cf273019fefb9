/** Live policies and the policy engine of `gate/engine.py`. */
module PolicyEngine {
  import opened Outcomes
  import opened Postures
  import opened Glob
  import B = Bundles

  datatype Effect = Allow | Deny | RequireApproval | Redact

  function EffectName(e: Effect): string {
    match e
    case Allow => "allow"
    case Deny => "deny"
    case RequireApproval => "require_approval"
    case Redact => "redact"
  }

  lemma EffectsOnTheWire()
    ensures [EffectName(Allow), EffectName(Deny), EffectName(RequireApproval), EffectName(Redact)]
         == ["allow", "deny", "require_approval", "redact"]
  {
  }

  // A condition and a budget both depend on what the bundle does not see: the arguments, and the
  // running totals of the session.
  datatype Surroundings = Surroundings(args: map<string, string>, spent: map<string, int>)

  datatype Condition = AlwaysTrue | Test(name: string, holds: Surroundings -> bool)

  datatype Budget = Budget(key: string, exceeded: Surroundings -> bool)

  datatype Rule = Rule(
    id: string, effect: Effect,
    tools: seq<string>, actions: seq<string>, agents: seq<string>, requireRoles: seq<string>,
    reversibility: seq<Posture>, minReversibility: Option<Posture>,
    minRisk: Option<int>, maxRisk: Option<int>, minThreat: Option<int>,
    redactFields: seq<string>, condition: Condition, budget: Option<Budget>, reason: string)

  datatype Policy = Policy(name: string, version: string, defaultEffect: Effect, rules: seq<Rule>)

  datatype Decision = Decision(effect: Effect, ruleId: string, reason: string, redactFields: seq<string>)

  // ----- the policy engine ---------------------------------------------------------------------

  predicate ConditionHolds(c: Condition, around: Surroundings) {
    c.AlwaysTrue? || c.holds(around)
  }

  predicate PostureMatches(r: Rule, posture: Posture) {
    && (r.minReversibility.Some? ==> Rank(posture) >= Rank(r.minReversibility.value))
    && (|r.reversibility| > 0 ==> posture in r.reversibility)
  }

  predicate RuleMatches(r: Rule, c: B.Call, posture: Posture, around: Surroundings) {
    && B.AnyGlob(c.tool, r.tools)
    && B.AnyGlob(c.action, r.actions)
    && B.AnyGlob(c.agent, r.agents)
    && B.RolesMatch(r.requireRoles, c.roles)
    && PostureMatches(r, posture)
    && B.NumbersMatch(r.minThreat, r.minRisk, r.maxRisk, c.risk, c.threat)
    && ConditionHolds(r.condition, around)
    && (r.budget.Some? ==> !r.budget.value.exceeded(around))
  }

  function Reason(r: Rule): string {
    if r.reason != "" then r.reason else "matched rule " + r.id
  }

  function DecisionOfRule(r: Rule): Decision {
    Decision(r.effect, r.id, Reason(r), r.redactFields)
  }

  function DecisionOfDefault(effect: Effect): Decision {
    Decision(effect, B.DEFAULT_RULE, "no rule matched; default " + EffectName(effect), [])
  }

  function FirstMatch(rules: seq<Rule>, i: nat, c: B.Call, posture: Posture, around: Surroundings): (k: nat)
    requires i <= |rules|
    ensures i <= k <= |rules|
    ensures k < |rules| ==> RuleMatches(rules[k], c, posture, around)
    ensures forall j :: i <= j < k ==> !RuleMatches(rules[j], c, posture, around)
    decreases |rules| - i
  {
    hide RuleMatches;
    if i == |rules| || RuleMatches(rules[i], c, posture, around) then i
    else FirstMatch(rules, i + 1, c, posture, around)
  }

  function Decided(p: Policy, c: B.Call, posture: Posture, around: Surroundings): Decision {
    var k := FirstMatch(p.rules, 0, c, posture, around);
    if k < |p.rules| then DecisionOfRule(p.rules[k]) else DecisionOfDefault(p.defaultEffect)
  }

  // ----- conditions and budgets --------------------------------------------------------------------

  predicate IsInForce(r: Rule, around: Surroundings) {
    && (r.condition.Test? ==> r.condition.holds(around))
    && (r.budget.Some? ==> !r.budget.value.exceeded(around))
  }

  /** The rules whose conditions hold and whose budgets are not exceeded, without both. */
  function InForce(rules: seq<Rule>, around: Surroundings): seq<Rule> {
    if |rules| == 0 then []
    else
      var r, rest := rules[0], InForce(rules[1..], around);
      if (r.condition.Test? ==> r.condition.holds(around)) && (r.budget.Some? ==> !r.budget.value.exceeded(around))
      then [r.(condition := AlwaysTrue, budget := None)] + rest
      else rest
  }

  lemma MatchingIsInForce(r: Rule, c: B.Call, posture: Posture, around: Surroundings)
    requires RuleMatches(r, c, posture, around)
    ensures IsInForce(r, around)
  {
    hide B.AnyGlob, B.RolesMatch, PostureMatches, B.NumbersMatch;
  }

  lemma MatchesStripped(r: Rule, c: B.Call, posture: Posture, around: Surroundings)
    ensures RuleMatches(r, c, posture, around)
       <==> IsInForce(r, around) && RuleMatches(r.(condition := AlwaysTrue, budget := None), c, posture, around)
  {
    hide B.AnyGlob, B.RolesMatch, B.NumbersMatch;
  }

  function DecidedFrom(rules: seq<Rule>, i: nat, defaultEffect: Effect, c: B.Call, posture: Posture,
        around: Surroundings): Decision
    requires i <= |rules|
  {
    var k := FirstMatch(rules, i, c, posture, around);
    if k < |rules| then DecisionOfRule(rules[k]) else DecisionOfDefault(defaultEffect)
  }

  lemma {:induction false} FirstMatchOfTail(rules: seq<Rule>, i: nat, c: B.Call, posture: Posture, around: Surroundings)
    requires 0 < i <= |rules|
    ensures FirstMatch(rules, i, c, posture, around) == FirstMatch(rules[1..], i - 1, c, posture, around) + 1
    decreases |rules| - i
  {
    hide RuleMatches;
    if i < |rules| {
      assert rules[1..][i - 1] == rules[i];
      FirstMatchOfTail(rules, i + 1, c, posture, around);
    }
  }

  lemma DecidedStep(rules: seq<Rule>, defaultEffect: Effect, c: B.Call, posture: Posture, around: Surroundings)
    requires |rules| > 0
    ensures DecidedFrom(rules, 0, defaultEffect, c, posture, around) ==
              if RuleMatches(rules[0], c, posture, around) then DecisionOfRule(rules[0])
              else DecidedFrom(rules[1..], 0, defaultEffect, c, posture, around)
  {
    hide RuleMatches;
    FirstMatchOfTail(rules, 1, c, posture, around);
  }

  lemma {:induction false} DecidedByInForce(rules: seq<Rule>, defaultEffect: Effect, c: B.Call, posture: Posture,
        around: Surroundings)
    ensures DecidedFrom(rules, 0, defaultEffect, c, posture, around)
         == DecidedFrom(InForce(rules, around), 0, defaultEffect, c, posture, around)
    decreases |rules|
  {
    hide RuleMatches, DecidedFrom;
    var inForce := InForce(rules, around);
    if |rules| == 0 {
      assert inForce == rules;
    } else {
      DecidedStep(rules, defaultEffect, c, posture, around);
      DecidedByInForce(rules[1..], defaultEffect, c, posture, around);
      MatchesStripped(rules[0], c, posture, around);
      if IsInForce(rules[0], around) {
        assert inForce[0] == rules[0].(condition := AlwaysTrue, budget := None);
        assert inForce[1..] == InForce(rules[1..], around);
        DecidedStep(inForce, defaultEffect, c, posture, around);
      }
    }
  }

  /** Conditions and budgets only decide which rules take part: the decision is that of the policy from
      which every rule whose condition fails or whose budget is exceeded is taken out, and the rest stripped
      of both. */
  lemma OnlyRulesInForceDecide(p: Policy, c: B.Call, posture: Posture, around: Surroundings)
    ensures Decided(p, c, posture, around) == Decided(p.(rules := InForce(p.rules, around)), c, posture, around)
  {
    hide FirstMatch;
    DecidedByInForce(p.rules, p.defaultEffect, c, posture, around);
  }

  /** So a call over a rule's budget, or one for which its condition fails, is never decided by that rule. */
  lemma OverBudgetIsNotDecidedBy(p: Policy, c: B.Call, posture: Posture, around: Surroundings, i: nat)
    requires i < |p.rules| && forall j, k :: 0 <= j < k < |p.rules| ==> p.rules[j].id != p.rules[k].id
    requires p.rules[i].id != "__default__"
    requires || (p.rules[i].budget.Some? && p.rules[i].budget.value.exceeded(around))
             || (p.rules[i].condition.Test? && !p.rules[i].condition.holds(around))
    ensures Decided(p, c, posture, around).ruleId != p.rules[i].id
  {
    hide RuleMatches, FirstMatch;
    var k := FirstMatch(p.rules, 0, c, posture, around);
    if k < |p.rules| {
      MatchingIsInForce(p.rules[k], c, posture, around);
    }
  }

  /** `_rule_matches`: the clauses in the source's order, conditions and budgets last. */
  method Matches(r: Rule, c: B.Call, posture: Posture, around: Surroundings) returns (ok: bool)
    ensures ok <==> RuleMatches(r, c, posture, around)
    ensures ok <==>
      && (exists p :: p in r.tools && FnMatchCase(c.tool, p))
      && (exists p :: p in r.actions && FnMatchCase(c.action, p))
      && (exists p :: p in r.agents && FnMatchCase(c.agent, p))
      && (forall role :: role in r.requireRoles ==> role in c.roles)
      && (r.minReversibility.Some? ==> Rank(posture) >= Rank(r.minReversibility.value))
      && (r.reversibility == [] || posture in r.reversibility)
      && (r.minThreat.Some? ==> c.threat >= r.minThreat.value)
      && (r.minRisk.Some? ==> c.risk >= r.minRisk.value)
      && (r.maxRisk.Some? ==> c.risk <= r.maxRisk.value)
      && (r.condition.Test? ==> r.condition.holds(around))
      && (r.budget.Some? ==> !r.budget.value.exceeded(around))
  {
    hide Rank, FnMatchCase;
    if !B.AnyGlob(c.tool, r.tools) {
      return false;
    }
    if !B.AnyGlob(c.action, r.actions) {
      return false;
    }
    if !B.AnyGlob(c.agent, r.agents) {
      return false;
    }
    if !B.RolesMatch(r.requireRoles, c.roles) {
      return false;
    }
    if r.minReversibility.Some? && Rank(posture) < Rank(r.minReversibility.value) {
      return false;
    }
    if r.reversibility != [] && posture !in r.reversibility {
      return false;
    }
    if r.minThreat.Some? && c.threat < r.minThreat.value {
      return false;
    }
    if r.minRisk.Some? && c.risk < r.minRisk.value {
      return false;
    }
    if r.maxRisk.Some? && c.risk > r.maxRisk.value {
      return false;
    }
    if r.condition.Test? && !r.condition.holds(around) {
      return false;
    }
    if r.budget.Some? && r.budget.value.exceeded(around) {
      return false;
    }
    return true;
  }

  method Evaluate(p: Policy, c: B.Call, posture: Posture, around: Surroundings) returns (d: Decision)
    ensures d == Decided(p, c, posture, around)
    ensures forall k :: 0 <= k < |p.rules| && RuleMatches(p.rules[k], c, posture, around)
                     && (forall j :: 0 <= j < k ==> !RuleMatches(p.rules[j], c, posture, around))
              ==> d.ruleId == p.rules[k].id && d.effect == p.rules[k].effect
    ensures (forall j :: 0 <= j < |p.rules| ==> !RuleMatches(p.rules[j], c, posture, around))
              ==> d.ruleId == B.DEFAULT_RULE && d.effect == p.defaultEffect
    // The deciding rule's condition holds and its budget is not exceeded; what is to be masked is its own.
    ensures || (exists k :: 0 <= k < |p.rules|
                  && var r := p.rules[k];
                     && (r.condition.Test? ==> r.condition.holds(around))
                     && (r.budget.Some? ==> !r.budget.value.exceeded(around))
                     && d == Decision(r.effect, r.id, if r.reason != "" then r.reason else "matched rule " + r.id, r.redactFields))
            || (d.effect == p.defaultEffect && d.ruleId == "__default__" && d.redactFields == []
                && d.reason == "no rule matched; default " + EffectName(p.defaultEffect))
  {
    hide RuleMatches;
    for i := 0 to |p.rules|
      invariant FirstMatch(p.rules, 0, c, posture, around) == FirstMatch(p.rules, i, c, posture, around)
    {
      var hit := Matches(p.rules[i], c, posture, around);
      if hit {
        MatchingIsInForce(p.rules[i], c, posture, around);
        return DecisionOfRule(p.rules[i]);
      }
    }
    return DecisionOfDefault(p.defaultEffect);
  }
}
