/** The compiled policy bundle and its reference evaluator, `bundle.py`. Postures and effects are
    strings on the wire, and any string can arrive there. */
module Bundles {
  import opened Outcomes
  import opened Glob

  datatype Rule = Rule(
    id: string, effect: string,
    tools: seq<string>, actions: seq<string>, agents: seq<string>, requireRoles: seq<string>,
    reversibility: seq<string>, minReversibility: Option<string>,
    minRisk: Option<int>, maxRisk: Option<int>, minThreat: Option<int>,
    redactFields: seq<string>, reason: string)

  datatype GlobKind = GlobKind(tool: string, kind: string)

  datatype Bundle = Bundle(
    schema: int, policyId: string, defaultEffect: string,
    reversibility: map<string, string>, globs: seq<GlobKind>, unknownTool: string,
    rules: seq<Rule>)

  // An empty reversibility asks for the bundle's own classification of the tool.
  datatype Call = Call(
    tool: string, action: string, agent: string, roles: seq<string>,
    risk: int, threat: int, reversibility: string)

  datatype Verdict = Verdict(
    effect: string, ruleId: string, reason: string, reversibility: string, allowed: bool)

  const ALLOW := "allow"
  const DEFAULT_RULE := "__default__"

  // ----- matching ----------------------------------------------------------------------------

  predicate AnyGlob(value: string, patterns: seq<string>) {
    exists p :: p in patterns && FnMatchCase(value, p)
  }

  lemma StarIsAny(s: string)
    ensures AnyGlob(s, ["*"])
  {
    hide FnMatchCase;
    StarMatchesAll(s);
    assert "*" in ["*"];
  }

  function RankOr(name: string, missing: int): int {
    if name == "unknown" then 0
    else if name == "irreversible" then 1
    else if name == "compensable" then 2
    else if name == "reversible" then 3
    else if name == "idempotent" then 4
    else missing
  }

  predicate NamesMatch(r: Rule, c: Call) {
    && AnyGlob(c.tool, r.tools)
    && AnyGlob(c.action, r.actions)
    && AnyGlob(c.agent, r.agents)
  }

  predicate RolesMatch(required: seq<string>, held: seq<string>) {
    forall role :: role in required ==> role in held
  }

  // A posture with no rank is below every floor, and a floor with no rank is above every posture.
  predicate PostureMatches(r: Rule, rev: string) {
    && (r.minReversibility.Some? ==> RankOr(rev, -1) >= RankOr(r.minReversibility.value, 99))
    && (|r.reversibility| > 0 ==> rev in r.reversibility)
  }

  predicate NumbersMatch(minThreat: Option<int>, minRisk: Option<int>, maxRisk: Option<int>, risk: int, threat: int) {
    && (minThreat.Some? ==> threat >= minThreat.value)
    && (minRisk.Some? ==> risk >= minRisk.value)
    && (maxRisk.Some? ==> risk <= maxRisk.value)
  }

  predicate RuleMatches(r: Rule, c: Call, rev: string) {
    && NamesMatch(r, c)
    && RolesMatch(r.requireRoles, c.roles)
    && PostureMatches(r, rev)
    && NumbersMatch(r.minThreat, r.minRisk, r.maxRisk, c.risk, c.threat)
  }

  /** The first rule, from position i on, that matches; the number of rules when none does. */
  function FirstMatch(rules: seq<Rule>, i: nat, c: Call, rev: string): (k: nat)
    requires i <= |rules|
    ensures i <= k <= |rules|
    ensures k < |rules| ==> RuleMatches(rules[k], c, rev)
    ensures forall j :: i <= j < k ==> !RuleMatches(rules[j], c, rev)
    decreases |rules| - i
  {
    hide RuleMatches;
    if i == |rules| || RuleMatches(rules[i], c, rev) then i else FirstMatch(rules, i + 1, c, rev)
  }

  lemma FirstMatchIs(rules: seq<Rule>, c: Call, rev: string, k: nat)
    requires k <= |rules|
    requires k < |rules| ==> RuleMatches(rules[k], c, rev)
    requires forall j :: 0 <= j < k ==> !RuleMatches(rules[j], c, rev)
    ensures FirstMatch(rules, 0, c, rev) == k
  {
  }

  // ----- classification ------------------------------------------------------------------------

  // The kind of the first glob, from position i on, that matches the tool.
  function KindByGlob(globs: seq<GlobKind>, i: nat, tool: string): (kind: Option<string>)
    requires i <= |globs|
    decreases |globs| - i
  {
    if i == |globs| then None
    else if FnMatchCase(tool, globs[i].tool) then Some(globs[i].kind)
    else KindByGlob(globs, i + 1, tool)
  }

  /** Exact names first, then globs in order, then the fallback. */
  function Classified(b: Bundle, tool: string): string {
    if tool in b.reversibility then b.reversibility[tool]
    else match KindByGlob(b.globs, 0, tool)
      case Some(kind) => kind
      case None => b.unknownTool
  }

  function PostureOf(b: Bundle, c: Call): string {
    if c.reversibility != "" then c.reversibility else Classified(b, c.tool)
  }

  // ----- evaluation ----------------------------------------------------------------------------

  function VerdictOfRule(r: Rule, rev: string): Verdict {
    Verdict(r.effect, r.id, r.reason, rev, r.effect == ALLOW)
  }

  function VerdictOfDefault(effect: string, rev: string): Verdict {
    Verdict(effect, DEFAULT_RULE, "no rule matched; default " + effect, rev, effect == ALLOW)
  }

  function Judged(b: Bundle, c: Call): Verdict {
    var rev := PostureOf(b, c);
    var k := FirstMatch(b.rules, 0, c, rev);
    if k < |b.rules| then VerdictOfRule(b.rules[k], rev) else VerdictOfDefault(b.defaultEffect, rev)
  }

  method Classify(b: Bundle, tool: string) returns (kind: string)
    ensures kind == Classified(b, tool)
    ensures tool in b.reversibility ==> kind == b.reversibility[tool]
    ensures forall i ::
              (tool !in b.reversibility && 0 <= i < |b.globs| && FnMatchCase(tool, b.globs[i].tool)
               && forall j :: 0 <= j < i ==> !FnMatchCase(tool, b.globs[j].tool))
              ==> kind == b.globs[i].kind
    ensures (tool !in b.reversibility && forall i :: 0 <= i < |b.globs| ==> !FnMatchCase(tool, b.globs[i].tool))
              ==> kind == b.unknownTool
  {
    hide FnMatchCase;
    if tool in b.reversibility {
      return b.reversibility[tool];
    }
    for i := 0 to |b.globs|
      invariant KindByGlob(b.globs, 0, tool) == KindByGlob(b.globs, i, tool)
      invariant forall j :: 0 <= j < i ==> !FnMatchCase(tool, b.globs[j].tool)
    {
      if FnMatchCase(tool, b.globs[i].tool) {
        return b.globs[i].kind;
      }
    }
    return b.unknownTool;
  }

  /** The clause by clause test of one rule, which leaves at the first clause that fails. */
  method Matches(r: Rule, c: Call, rev: string) returns (ok: bool)
    ensures ok <==> RuleMatches(r, c, rev)
    ensures ok <==>
      && (exists p :: p in r.tools && FnMatchCase(c.tool, p))
      && (exists p :: p in r.actions && FnMatchCase(c.action, p))
      && (exists p :: p in r.agents && FnMatchCase(c.agent, p))
      && (forall role :: role in r.requireRoles ==> role in c.roles)
      && (r.minReversibility.Some? ==> RankOr(rev, -1) >= RankOr(r.minReversibility.value, 99))
      && (r.reversibility == [] || rev in r.reversibility)
      && (r.minThreat.Some? ==> c.threat >= r.minThreat.value)
      && (r.minRisk.Some? ==> c.risk >= r.minRisk.value)
      && (r.maxRisk.Some? ==> c.risk <= r.maxRisk.value)
  {
    hide FnMatchCase, RankOr;
    if !AnyGlob(c.tool, r.tools) {
      return false;
    }
    if !AnyGlob(c.action, r.actions) {
      return false;
    }
    if !AnyGlob(c.agent, r.agents) {
      return false;
    }
    if !RolesMatch(r.requireRoles, c.roles) {
      return false;
    }
    if r.minReversibility.Some? && RankOr(rev, -1) < RankOr(r.minReversibility.value, 99) {
      return false;
    }
    if r.reversibility != [] && rev !in r.reversibility {
      return false;
    }
    if r.minThreat.Some? && c.threat < r.minThreat.value {
      return false;
    }
    if r.minRisk.Some? && c.risk < r.minRisk.value {
      return false;
    }
    if r.maxRisk.Some? && c.risk > r.maxRisk.value {
      return false;
    }
    return true;
  }

  /** The scan answers with the first rule that matches, and with the default only when none does. */
  method Evaluate(b: Bundle, c: Call) returns (v: Verdict)
    ensures v == Judged(b, c)
    ensures forall k :: 0 <= k < |b.rules| && RuleMatches(b.rules[k], c, PostureOf(b, c))
                     && (forall j :: 0 <= j < k ==> !RuleMatches(b.rules[j], c, PostureOf(b, c)))
              ==> v.ruleId == b.rules[k].id && v.effect == b.rules[k].effect
    ensures (forall j :: 0 <= j < |b.rules| ==> !RuleMatches(b.rules[j], c, PostureOf(b, c)))
              ==> v.ruleId == DEFAULT_RULE && v.effect == b.defaultEffect
    ensures v.allowed <==> v.effect == "allow"
    ensures c.reversibility != "" ==> v.reversibility == c.reversibility
    ensures || (exists k :: 0 <= k < |b.rules| && v.effect == b.rules[k].effect
                  && v.ruleId == b.rules[k].id && v.reason == b.rules[k].reason)
            || (v.effect == b.defaultEffect && v.ruleId == "__default__"
                && v.reason == "no rule matched; default " + b.defaultEffect)
  {
    hide RuleMatches, Classified;
    var rev := c.reversibility;
    if rev == "" {
      rev := Classify(b, c.tool);
    }
    for i := 0 to |b.rules|
      invariant FirstMatch(b.rules, 0, c, rev) == FirstMatch(b.rules, i, c, rev)
    {
      var hit := Matches(b.rules[i], c, rev);
      if hit {
        return VerdictOfRule(b.rules[i], rev);
      }
    }
    return VerdictOfDefault(b.defaultEffect, rev);
  }
}
