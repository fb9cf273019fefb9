/** The enforcer's side of a bundle, `decision.go`: what it loads and how it judges a call. */
module GoDecision {
  import opened Outcomes
  import opened Postures
  import opened Glob
  import opened Bundles
  import GR = GlobRegex
  import C = Compiler
  import PE = PolicyEngine
  import R = InverseRegistry
  import GL = GlobLimits

  // ----- loading -------------------------------------------------------------------------------

  // A rule as decoded from JSON: a list that is null or left out stays nil.
  datatype WireRule = WireRule(
    tools: Option<seq<string>>, actions: Option<seq<string>>, agents: Option<seq<string>>, rest: Rule)

  datatype LoadError =
    | WrongSchema
    | NoDefaultEffect
    | NoIdOrEffect(i: nat)
    | MissingList(i: nat)
    | UnknownFloor(i: nat)
    | FloorAndSet(i: nat)

  predicate IsPostureName(name: string) {
    RankOr(name, -1) != -1
  }

  function RuleFault(r: WireRule, i: nat): Option<LoadError> {
    if r.rest.id == "" || r.rest.effect == "" then Some(NoIdOrEffect(i))
    else if r.tools.None? || r.actions.None? || r.agents.None? then Some(MissingList(i))
    else if r.rest.minReversibility.Some? && !IsPostureName(r.rest.minReversibility.value) then Some(UnknownFloor(i))
    else if r.rest.minReversibility.Some? && |r.rest.reversibility| > 0 then Some(FloorAndSet(i))
    else None
  }

  lemma FaultSpelledOut(r: WireRule, i: nat)
    ensures RuleFault(r, i).None? <==>
      && r.rest.id != "" && r.rest.effect != ""
      && r.tools.Some? && r.actions.Some? && r.agents.Some?
      && (r.rest.minReversibility.Some? ==>
            && r.rest.minReversibility.value in {"unknown", "irreversible", "compensable", "reversible", "idempotent"}
            && r.rest.reversibility == [])
  {
  }

  function Decoded(r: WireRule): Rule
    requires r.tools.Some? && r.actions.Some? && r.agents.Some?
  {
    r.rest.(tools := r.tools.value, actions := r.actions.value, agents := r.agents.value)
  }

  function OnWire(r: Rule): WireRule {
    WireRule(Some(r.tools), Some(r.actions), Some(r.agents), r)
  }

  /** Validation stops at the first fault, and otherwise returns the bundle as it was sent. */
  method Load(frame: Bundle, wire: seq<WireRule>) returns (r: Result<Bundle, LoadError>)
    ensures r.Ok? <==> frame.schema == C.SCHEMA && frame.defaultEffect != ""
                       && forall i :: 0 <= i < |wire| ==> RuleFault(wire[i], i).None?
    ensures r.Ok? ==> |r.value.rules| == |wire| && r.value.(rules := []) == frame.(rules := [])
                      && forall i :: 0 <= i < |wire| ==> OnWire(r.value.rules[i]) == wire[i].(rest := r.value.rules[i])
                                                         && r.value.rules[i] == Decoded(wire[i])
    ensures r.Err? && frame.schema == C.SCHEMA && frame.defaultEffect != "" ==>
              exists i :: 0 <= i < |wire| && RuleFault(wire[i], i) == Some(r.error)
                          && forall j :: 0 <= j < i ==> RuleFault(wire[j], j).None?
    // What loads, spelled out.
    ensures r.Ok? <==>
      && frame.schema == 2 && frame.defaultEffect != ""
      && forall i :: 0 <= i < |wire| ==>
           && wire[i].rest.id != "" && wire[i].rest.effect != ""
           && wire[i].tools.Some? && wire[i].actions.Some? && wire[i].agents.Some?
           && (wire[i].rest.minReversibility.Some? ==>
                 && wire[i].rest.minReversibility.value
                      in {"unknown", "irreversible", "compensable", "reversible", "idempotent"}
                 && wire[i].rest.reversibility == [])
    ensures frame.schema != 2 ==> r == Err(WrongSchema)
    ensures frame.schema == 2 && frame.defaultEffect == "" ==> r == Err(NoDefaultEffect)
  {
    forall i | 0 <= i < |wire|
      ensures RuleFault(wire[i], i).None? <==>
        && wire[i].rest.id != "" && wire[i].rest.effect != ""
        && wire[i].tools.Some? && wire[i].actions.Some? && wire[i].agents.Some?
        && (wire[i].rest.minReversibility.Some? ==>
              && wire[i].rest.minReversibility.value
                   in {"unknown", "irreversible", "compensable", "reversible", "idempotent"}
              && wire[i].rest.reversibility == [])
    {
      FaultSpelledOut(wire[i], i);
    }
    hide RuleFault;
    if frame.schema != C.SCHEMA {
      return Err(WrongSchema);
    }
    if frame.defaultEffect == "" {
      return Err(NoDefaultEffect);
    }
    var rules: seq<Rule> := [];
    for i := 0 to |wire|
      invariant |rules| == i
      invariant forall j :: 0 <= j < i ==> RuleFault(wire[j], j).None? && rules[j] == Decoded(wire[j])
    {
      var rule := wire[i];
      var fault := RuleFault(rule, i);
      if fault.Some? {
        return Err(fault.value);
      }
      rules := rules + [Decoded(rule)];
    }
    return Ok(frame.(rules := rules));
  }

  predicate Loadable(b: Bundle) {
    && b.schema == C.SCHEMA
    && b.defaultEffect != ""
    && forall i :: 0 <= i < |b.rules| ==> RuleFault(OnWire(b.rules[i]), i).None?
  }

  /** What the compiler emits is loaded exactly when no rule has an empty id or states both a floor and
      a set: the compiler itself refuses neither. */
  lemma WhatTheCompilerEmitsLoads(p: PE.Policy, reg: Option<R.Registry>, unknown: string)
    requires C.Compiled(p, reg, unknown).Ok?
    ensures Loadable(C.Compiled(p, reg, unknown).value)
       <==> forall i :: 0 <= i < |p.rules| ==>
              p.rules[i].id != "" && (p.rules[i].minReversibility.None? || p.rules[i].reversibility == [])
  {
    hide C.CompileRules, C.CompileRule, C.ExactOf, C.GlobsOf, RuleFault;
    var b := C.Compiled(p, reg, unknown).value;
    C.CompileRulesExactly(p.rules);
    assert b.schema == C.SCHEMA && b.defaultEffect != "";
    forall i | 0 <= i < |p.rules|
      ensures RuleFault(OnWire(b.rules[i]), i).None?
         <==> p.rules[i].id != "" && (p.rules[i].minReversibility.None? || p.rules[i].reversibility == [])
    {
      assert p.rules[i] in p.rules;
      FaultOfCompiled(p.rules[i], b.rules[i], i);
    }
  }

  lemma FaultOfCompiled(r: PE.Rule, compiled: Rule, i: nat)
    requires C.CompileRule(r) == Ok(compiled)
    ensures RuleFault(OnWire(compiled), i).None? <==> r.id != "" && (r.minReversibility.None? || r.reversibility == [])
  {
  }

  // ----- matching ------------------------------------------------------------------------------

  predicate AnyGoGlob(go: GR.Regexps, value: string, patterns: seq<string>) {
    exists p :: p in patterns && GR.GoFnMatch(go, value, p)
  }

  // The floor is tested only when both ranks are known.
  predicate GoPostureMatches(r: Rule, rev: string) {
    && (r.minReversibility.Some? ==>
          && IsPostureName(r.minReversibility.value)
          && IsPostureName(rev)
          && RankOr(rev, 0) >= RankOr(r.minReversibility.value, 0))
    && (|r.reversibility| > 0 ==> rev in r.reversibility)
  }

  predicate GoNamesMatch(go: GR.Regexps, r: Rule, c: Call) {
    && AnyGoGlob(go, c.tool, r.tools)
    && AnyGoGlob(go, c.action, r.actions)
    && AnyGoGlob(go, c.agent, r.agents)
  }

  predicate GoRuleMatches(go: GR.Regexps, r: Rule, c: Call, rev: string) {
    && GoNamesMatch(go, r, c)
    && RolesMatch(r.requireRoles, c.roles)
    && GoPostureMatches(r, rev)
    && NumbersMatch(r.minThreat, r.minRisk, r.maxRisk, c.risk, c.threat)
  }

  function GoKindByGlob(go: GR.Regexps, globs: seq<GlobKind>, i: nat, tool: string): Option<string>
    requires i <= |globs|
    decreases |globs| - i
  {
    if i == |globs| then None
    else if GR.GoFnMatch(go, tool, globs[i].tool) then Some(globs[i].kind)
    else GoKindByGlob(go, globs, i + 1, tool)
  }

  function GoClassified(go: GR.Regexps, b: Bundle, tool: string): string {
    if tool in b.reversibility then b.reversibility[tool]
    else match GoKindByGlob(go, b.globs, 0, tool)
      case Some(kind) => kind
      case None => b.unknownTool
  }

  function GoPostureOf(go: GR.Regexps, b: Bundle, c: Call): string {
    if c.reversibility == "" then GoClassified(go, b, c.tool) else c.reversibility
  }

  function GoFirstMatch(go: GR.Regexps, rules: seq<Rule>, i: nat, c: Call, rev: string): (k: nat)
    requires i <= |rules|
    ensures i <= k <= |rules|
    decreases |rules| - i
  {
    if i == |rules| || GoRuleMatches(go, rules[i], c, rev) then i else GoFirstMatch(go, rules, i + 1, c, rev)
  }

  lemma {:induction false} GoFirstMatchIsFirst(go: GR.Regexps, rules: seq<Rule>, i: nat, c: Call, rev: string)
    requires i <= |rules|
    ensures var k := GoFirstMatch(go, rules, i, c, rev);
            && (k < |rules| ==> GoRuleMatches(go, rules[k], c, rev))
            && (forall j :: i <= j < k ==> !GoRuleMatches(go, rules[j], c, rev))
    decreases |rules| - i
  {
    hide GoRuleMatches;
    if i < |rules| && !GoRuleMatches(go, rules[i], c, rev) {
      GoFirstMatchIsFirst(go, rules, i + 1, c, rev);
    }
  }

  function GoJudged(go: GR.Regexps, b: Bundle, c: Call): Verdict {
    var rev := GoPostureOf(go, b, c);
    var k := GoFirstMatch(go, b.rules, 0, c, rev);
    if k < |b.rules| then VerdictOfRule(b.rules[k], rev) else VerdictOfDefault(b.defaultEffect, rev)
  }

  // ----- the enforcer ----------------------------------------------------------------------------

  class Enforcer {
    const bundle: Bundle
    const patterns: GR.Matcher

    constructor (go: GR.Regexps, b: Bundle)
      ensures bundle == b && patterns.Valid() && fresh(patterns) && patterns.go == go
    {
      bundle := b;
      patterns := new GR.Matcher(go);
    }

    method Classify(tool: string) returns (kind: string)
      requires patterns.Valid()
      modifies patterns
      ensures patterns.Valid() && kind == GoClassified(patterns.go, bundle, tool)
    {
      hide GR.GoFnMatch;
      if tool in bundle.reversibility {
        return bundle.reversibility[tool];
      }
      for i := 0 to |bundle.globs|
        invariant patterns.Valid()
        invariant GoKindByGlob(patterns.go, bundle.globs, 0, tool) == GoKindByGlob(patterns.go, bundle.globs, i, tool)
      {
        var hit := patterns.FnMatch(tool, bundle.globs[i].tool);
        if hit {
          return bundle.globs[i].kind;
        }
      }
      return bundle.unknownTool;
    }

    method AnyGlob(value: string, globs: seq<string>) returns (ok: bool)
      requires patterns.Valid()
      modifies patterns
      ensures patterns.Valid() && (ok <==> AnyGoGlob(patterns.go, value, globs))
    {
      hide GR.GoFnMatch;
      ok := patterns.MatchAny(value, globs);
    }

    method HoldsAll(required: seq<string>, held: seq<string>) returns (ok: bool)
      ensures ok <==> RolesMatch(required, held)
    {
      for i := 0 to |required|
        invariant forall j :: 0 <= j < i ==> required[j] in held
      {
        if required[i] !in held {
          return false;
        }
      }
      return true;
    }

    method Matches(r: Rule, c: Call, rev: string) returns (ok: bool)
      requires patterns.Valid()
      modifies patterns
      ensures patterns.Valid() && (ok <==> GoRuleMatches(patterns.go, r, c, rev))
      ensures ok <==>
        && (exists p :: p in r.tools && GR.GoFnMatch(patterns.go, c.tool, p))
        && (exists p :: p in r.actions && GR.GoFnMatch(patterns.go, c.action, p))
        && (exists p :: p in r.agents && GR.GoFnMatch(patterns.go, c.agent, p))
        && (forall role :: role in r.requireRoles ==> role in c.roles)
        && (r.minReversibility.Some? ==>
              && IsPostureName(r.minReversibility.value) && IsPostureName(rev)
              && RankOr(rev, 0) >= RankOr(r.minReversibility.value, 0))
        && (r.reversibility == [] || rev in r.reversibility)
        && (r.minThreat.Some? ==> c.threat >= r.minThreat.value)
        && (r.minRisk.Some? ==> c.risk >= r.minRisk.value)
        && (r.maxRisk.Some? ==> c.risk <= r.maxRisk.value)
    {
      hide GR.GoFnMatch, IsPostureName, RankOr;
      var tool := AnyGlob(c.tool, r.tools);
      if !tool {
        return false;
      }
      var action := AnyGlob(c.action, r.actions);
      if !action {
        return false;
      }
      var agent := AnyGlob(c.agent, r.agents);
      if !agent {
        return false;
      }
      var roles := HoldsAll(r.requireRoles, c.roles);
      if !roles {
        return false;
      }
      if r.minReversibility.Some? {
        var floor := r.minReversibility.value;
        if !IsPostureName(floor) || !IsPostureName(rev) || RankOr(rev, 0) < RankOr(floor, 0) {
          return false;
        }
      }
      if |r.reversibility| > 0 && rev !in r.reversibility {
        return false;
      }
      if r.minThreat.Some? && c.threat < r.minThreat.value {
        return false;
      }
      if r.minRisk.Some? && c.risk < r.minRisk.value {
        return false;
      }
      if r.maxRisk.Some? && c.risk > r.maxRisk.value {
        return false;
      }
      return true;
    }

    /** The scan, with the pattern cache it fills on the way, answers as the specification does. */
    method Evaluate(c: Call) returns (v: Verdict)
      requires patterns.Valid()
      modifies patterns
      ensures patterns.Valid() && v == GoJudged(patterns.go, bundle, c)
      ensures v.allowed <==> v.effect == "allow"
      ensures || (exists k :: 0 <= k < |bundle.rules| && v.effect == bundle.rules[k].effect
                    && v.ruleId == bundle.rules[k].id && v.reason == bundle.rules[k].reason)
              || (v.effect == bundle.defaultEffect && v.ruleId == "__default__"
                  && v.reason == "no rule matched; default " + bundle.defaultEffect)
    {
      hide GoRuleMatches, GoClassified;
      var rev := c.reversibility;
      if rev == "" {
        rev := Classify(c.tool);
      }
      for i := 0 to |bundle.rules|
        invariant patterns.Valid()
        invariant GoFirstMatch(patterns.go, bundle.rules, 0, c, rev) == GoFirstMatch(patterns.go, bundle.rules, i, c, rev)
      {
        var hit := Matches(bundle.rules[i], c, rev);
        if hit {
          return VerdictOfRule(bundle.rules[i], rev);
        }
      }
      return VerdictOfDefault(bundle.defaultEffect, rev);
    }
  }

  // ----- the two runtimes agree ------------------------------------------------------------------

  predicate AllReadAlike(patterns: seq<string>) {
    forall p :: p in patterns ==> GR.ReadsAlike(p)
  }

  // No class in any pattern of the bundle holds a range, or opens what Go takes for a named class.
  predicate BundleReadsAlike(b: Bundle) {
    && (forall i :: 0 <= i < |b.globs| ==> GR.ReadsAlike(b.globs[i].tool))
    && (forall i :: 0 <= i < |b.rules| ==>
          AllReadAlike(b.rules[i].tools) && AllReadAlike(b.rules[i].actions) && AllReadAlike(b.rules[i].agents))
  }

  lemma GlobsAgree(go: GR.Regexps, value: string, patterns: seq<string>)
    requires AllReadAlike(patterns)
    ensures AnyGoGlob(go, value, patterns) <==> AnyGlob(value, patterns)
  {
    hide GR.GoFnMatch, FnMatchCase, GR.ReadsAlike;
    forall p | p in patterns
      ensures GR.GoFnMatch(go, value, p) <==> FnMatchCase(value, p)
    {
      GR.TranslationPreservesMeaning(go, value, p);
    }
  }

  /** The two floor tests agree on every pair of strings, posture names or not. */
  lemma FloorsAgree(r: Rule, rev: string)
    ensures GoPostureMatches(r, rev) <==> PostureMatches(r, rev)
  {
  }

  lemma KindsAgree(go: GR.Regexps, globs: seq<GlobKind>, i: nat, tool: string)
    requires i <= |globs| && forall k :: 0 <= k < |globs| ==> GR.ReadsAlike(globs[k].tool)
    ensures GoKindByGlob(go, globs, i, tool) == KindByGlob(globs, i, tool)
    decreases |globs| - i
  {
    hide GR.GoFnMatch, FnMatchCase, GR.ReadsAlike;
    if i < |globs| {
      GR.TranslationPreservesMeaning(go, tool, globs[i].tool);
      KindsAgree(go, globs, i + 1, tool);
    }
  }

  lemma RulesAgree(go: GR.Regexps, b: Bundle, i: nat, c: Call, rev: string)
    requires BundleReadsAlike(b) && i < |b.rules|
    ensures GoRuleMatches(go, b.rules[i], c, rev) <==> RuleMatches(b.rules[i], c, rev)
  {
    hide AnyGlob, AnyGoGlob, RolesMatch, NumbersMatch, PostureMatches, GoPostureMatches;
    var r := b.rules[i];
    FloorsAgree(r, rev);
    GlobsAgree(go, c.tool, r.tools);
    GlobsAgree(go, c.action, r.actions);
    GlobsAgree(go, c.agent, r.agents);
  }

  /** On every bundle whose patterns Go reads as Python does, and every call, whatever strings stand for
      postures, the Go evaluator returns the verdict of the reference evaluator: effect, rule, reason and posture. */
  lemma RuntimesAgree(go: GR.Regexps, b: Bundle, c: Call)
    requires BundleReadsAlike(b)
    ensures GoJudged(go, b, c) == Judged(b, c)
  {
    hide GoRuleMatches, RuleMatches, GoKindByGlob, KindByGlob, FirstMatch, GoFirstMatch;
    KindsAgree(go, b.globs, 0, c.tool);
    var rev := PostureOf(b, c);
    forall i | 0 <= i < |b.rules|
      ensures GoRuleMatches(go, b.rules[i], c, rev) <==> RuleMatches(b.rules[i], c, rev)
    {
      RulesAgree(go, b, i, c, rev);
    }
    GoFirstMatchIsFirst(go, b.rules, 0, c, rev);
    FirstMatchIs(b.rules, c, rev, GoFirstMatch(go, b.rules, 0, c, rev));
  }

  /** The three evaluators agree: what the enforcer answers for a compiled policy is what the policy
      engine decides, on every call, posture, threat score, argument and session. */
  lemma EnforcerDecidesAsTheEngine(
      go: GR.Regexps, p: PE.Policy, reg: Option<R.Registry>, unknown: string, c: Call, posture: Posture, around: PE.Surroundings)
    requires reg.Some? ==> R.WellFormed(reg.value)
    requires C.Compiled(p, reg, unknown).Ok? && BundleReadsAlike(C.Compiled(p, reg, unknown).value)
    requires C.SamePosture(c, posture, reg, unknown)
    ensures C.SameVerdict(GoJudged(go, C.Compiled(p, reg, unknown).value, c), PE.Decided(p, c, posture, around))
  {
    hide C.Compiled, BundleReadsAlike, GoJudged, Judged, PE.Decided, C.SameVerdict, R.WellFormed, C.SamePosture;
    RuntimesAgree(go, C.Compiled(p, reg, unknown).value, c);
    C.CompilationPreservesMeaning(p, reg, unknown, c, posture, around);
  }

  // ----- where they do not -----------------------------------------------------------------------

  function WidenedBundle(): Bundle {
    Bundle(C.SCHEMA, "widened@1", "deny", map[], [], "unknown",
           [Rule("r", ALLOW, [GL.WIDENED], ["*"], ["*"], [], [], None, None, None, None, [], "")])
  }

  /** A pattern that opens a named class widens an allow rule: the enforcer allows a call that the
      reference evaluator denies. */
  lemma WidenedRuleAllows(go: GR.Regexps)
    ensures var c := Call("q", "write", "agent", [], 0, 0, "unknown");
            && Loadable(WidenedBundle()) && !BundleReadsAlike(WidenedBundle())
            && GoJudged(go, WidenedBundle(), c).allowed && !Judged(WidenedBundle(), c).allowed
  {
    hide GR.GoFnMatch, FnMatchCase, GR.RangeFree, GR.Untrapped;
    var b := WidenedBundle();
    var c := Call("q", "write", "agent", [], 0, 0, "unknown");
    GL.NamedClassWidens(go);
    StarMatchesAll("write");
    StarMatchesAll("agent");
    GR.StarReadsAlike();
    GR.TranslationPreservesMeaning(go, "write", "*");
    GR.TranslationPreservesMeaning(go, "agent", "*");
    assert GL.WIDENED in b.rules[0].tools && "*" in ["*"];
    assert GoRuleMatches(go, b.rules[0], c, "unknown");
    assert !RuleMatches(b.rules[0], c, "unknown");
    assert AllReadAlike(b.rules[0].tools) ==> GR.ReadsAlike(GL.WIDENED);
  }
}
