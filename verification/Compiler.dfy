/** The compiler of `bundle.py`: a live policy and a registry become a bundle, or are refused. */
module Compiler {
  import opened Outcomes
  import opened Postures
  import opened Glob
  import B = Bundles
  import opened PolicyEngine
  import R = InverseRegistry

  datatype BundleError = CarriesCondition(rule: string, condition: string) | CarriesBudget(rule: string)

  function Names(postures: seq<Posture>): (names: seq<string>)
    ensures |names| == |postures|
    ensures forall i :: 0 <= i < |names| ==> names[i] == Name(postures[i])
  {
    seq(|postures|, i requires 0 <= i < |postures| => Name(postures[i]))
  }

  function Floor(r: Rule): Option<string> {
    match r.minReversibility
    case None => None
    case Some(p) => Some(Name(p))
  }

  function CompileRule(r: Rule): Result<B.Rule, BundleError> {
    if r.condition.Test? then Err(CarriesCondition(r.id, r.condition.name))
    else if r.budget.Some? then Err(CarriesBudget(r.id))
    else Ok(B.Rule(r.id, EffectName(r.effect), r.tools, r.actions, r.agents, r.requireRoles,
                   Names(r.reversibility), Floor(r), r.minRisk, r.maxRisk, r.minThreat,
                   r.redactFields, Reason(r)))
  }

  // Compilation stops at the first rule that cannot be expressed.
  function CompileRules(rules: seq<Rule>): Result<seq<B.Rule>, BundleError> {
    if |rules| == 0 then Ok([])
    else match CompileRule(rules[0])
      case Err(e) => Err(e)
      case Ok(first) =>
        match CompileRules(rules[1..])
        case Err(e) => Err(e)
        case Ok(rest) => Ok([first] + rest)
  }

  predicate Expressible(r: Rule) {
    r.condition.AlwaysTrue? && r.budget.None?
  }

  lemma {:induction false} CompileRulesExactly(rules: seq<Rule>)
    ensures CompileRules(rules).Ok? <==> forall r :: r in rules ==> Expressible(r)
    ensures CompileRules(rules).Ok? ==>
              && |CompileRules(rules).value| == |rules|
              && forall i :: 0 <= i < |rules| ==> CompileRule(rules[i]) == Ok(CompileRules(rules).value[i])
  {
    hide Reason, Names, Floor, EffectName;
    if |rules| > 0 {
      CompileRulesExactly(rules[1..]);
      assert rules == [rules[0]] + rules[1..];
      assert CompileRule(rules[0]).Ok? <==> Expressible(rules[0]);
      assert forall i :: 1 <= i < |rules| ==> rules[i] == rules[1..][i - 1];
    }
  }

  lemma {:induction false} FirstRefusal(rules: seq<Rule>, i: nat)
    requires i < |rules| && !Expressible(rules[i]) && forall j :: 0 <= j < i ==> Expressible(rules[j])
    ensures CompileRules(rules) == Err(CompileRule(rules[i]).error)
  {
    if i > 0 {
      assert Expressible(rules[0]);
      FirstRefusal(rules[1..], i - 1);
    }
  }

  // ----- the static half of reversibility --------------------------------------------------------

  function ExactOf(specs: seq<R.Spec>): (exact: map<string, string>)
    ensures forall tool :: tool in exact ==>
              exists x :: x in specs && x.tool == tool && IsLiteral(tool) && exact[tool] == Name(x.kind)
    ensures forall x :: x in specs && IsLiteral(x.tool) ==> x.tool in exact
  {
    if |specs| == 0 then map[]
    else
      var last := specs[|specs| - 1];
      var before := ExactOf(specs[..|specs| - 1]);
      if IsLiteral(last.tool) then before[last.tool := Name(last.kind)] else before
  }

  function GlobsOf(specs: seq<R.Spec>): (globs: seq<B.GlobKind>)
  {
    if |specs| == 0 then []
    else
      var last := specs[|specs| - 1];
      var before := GlobsOf(specs[..|specs| - 1]);
      if IsLiteral(last.tool) then before else before + [B.GlobKind(last.tool, Name(last.kind))]
  }

  const SCHEMA := 2

  function Compiled(p: Policy, reg: Option<R.Registry>, unknown: string): Result<B.Bundle, BundleError> {
    var specs := if reg.Some? then R.All(reg.value) else [];
    match CompileRules(p.rules)
    case Err(e) => Err(e)
    case Ok(rules) =>
      Ok(B.Bundle(SCHEMA, p.name + "@" + p.version, EffectName(p.defaultEffect),
                  ExactOf(specs), GlobsOf(specs), unknown, rules))
  }

  lemma NothingCollected()
    ensures ExactOf([]) == map[] && GlobsOf([]) == []
  {
  }

  lemma CollectOne(specs: seq<R.Spec>, i: nat)
    requires i < |specs|
    ensures var s := specs[i];
            && ExactOf(specs[..i + 1]) ==
                 (if IsLiteral(s.tool) then ExactOf(specs[..i])[s.tool := Name(s.kind)] else ExactOf(specs[..i]))
            && GlobsOf(specs[..i + 1]) ==
                 (if IsLiteral(s.tool) then GlobsOf(specs[..i]) else GlobsOf(specs[..i]) + [B.GlobKind(s.tool, Name(s.kind))])
  {
    hide IsLiteral, Name;
    assert specs[..i + 1][..i] == specs[..i];
  }

  lemma CompiledFromItsRule(p: Policy, reg: Option<R.Registry>, unknown: string)
    ensures var r := Compiled(p, reg, unknown);
            r.Ok? ==> |r.value.rules| == |p.rules|
                      && forall i :: 0 <= i < |p.rules| ==> CompileRule(p.rules[i]) == Ok(r.value.rules[i])
  {
    hide CompileRule, ExactOf, GlobsOf, EffectName;
    CompileRulesExactly(p.rules);
  }

  method CompileBundle(p: Policy, reg: Option<R.Registry>, unknown: string)
    returns (r: Result<B.Bundle, BundleError>)
    ensures r == Compiled(p, reg, unknown)
    // Everything of the policy but conditions and budgets arrives in the bundle.
    ensures r.Ok? ==>
              && r.value.schema == 2 && r.value.policyId == p.name + "@" + p.version
              && r.value.defaultEffect == EffectName(p.defaultEffect) && r.value.unknownTool == unknown
              && |r.value.rules| == |p.rules|
              && forall i :: 0 <= i < |p.rules| ==>
                   var live, wire := p.rules[i], r.value.rules[i];
                   && wire.id == live.id && wire.effect == EffectName(live.effect)
                   && wire.tools == live.tools && wire.actions == live.actions && wire.agents == live.agents
                   && wire.requireRoles == live.requireRoles && wire.redactFields == live.redactFields
                   && wire.minRisk == live.minRisk && wire.maxRisk == live.maxRisk && wire.minThreat == live.minThreat
                   && wire.reason == (if live.reason != "" then live.reason else "matched rule " + live.id)
  {
    CompiledFromItsRule(p, reg, unknown);
    hide IsLiteral, Name, ExactOf, GlobsOf, CompileRules, EffectName;
    var exact: map<string, string>, globs: seq<B.GlobKind> := map[], [];
    var specs := if reg.Some? then R.All(reg.value) else [];
    assert specs[..0] == [];
    NothingCollected();
    for i := 0 to |specs|
      invariant exact == ExactOf(specs[..i]) && globs == GlobsOf(specs[..i])
    {
      CollectOne(specs, i);
      if IsLiteral(specs[i].tool) {
        exact := exact[specs[i].tool := Name(specs[i].kind)];
      } else {
        globs := globs + [B.GlobKind(specs[i].tool, Name(specs[i].kind))];
      }
    }
    assert specs[..|specs|] == specs;
    var rules := CompileRules(p.rules);
    if rules.Err? {
      return Err(rules.error);
    }
    return Ok(B.Bundle(SCHEMA, p.name + "@" + p.version, EffectName(p.defaultEffect),
                       exact, globs, unknown, rules.value));
  }

  /** A policy compiles exactly when no rule carries a condition or a budget. */
  lemma CompilesExactly(p: Policy, reg: Option<R.Registry>, unknown: string)
    ensures Compiled(p, reg, unknown).Ok? <==> forall r :: r in p.rules ==> r.condition.AlwaysTrue? && r.budget.None?
  {
    CompileRulesExactly(p.rules);
  }

  /** The refusal names the first rule that cannot be expressed, and its condition before its budget. */
  lemma RefusalNamesTheFirstOffender(p: Policy, reg: Option<R.Registry>, unknown: string, i: nat)
    requires i < |p.rules| && !Expressible(p.rules[i]) && forall j :: 0 <= j < i ==> Expressible(p.rules[j])
    ensures Compiled(p, reg, unknown) ==
              Err(if p.rules[i].condition.Test? then CarriesCondition(p.rules[i].id, p.rules[i].condition.name)
                  else CarriesBudget(p.rules[i].id))
  {
    FirstRefusal(p.rules, i);
  }

  // ----- the bundle classifies as the registry does ----------------------------------------------

  // The globs of the bundle are the registry's, in registration order.
  lemma {:induction false} GlobsKeepTheirOrder(exact: seq<R.Spec>, globs: seq<R.Spec>)
    requires forall x :: x in exact ==> IsLiteral(x.tool)
    requires forall x :: x in globs ==> !IsLiteral(x.tool)
    ensures var out := GlobsOf(exact + globs);
            |out| == |globs| && forall i :: 0 <= i < |out| ==> out[i] == B.GlobKind(globs[i].tool, Name(globs[i].kind))
    decreases |globs|, |exact|
  {
    hide IsLiteral;
    var specs := exact + globs;
    if |globs| > 0 {
      assert specs[..|specs| - 1] == exact + globs[..|globs| - 1];
      GlobsKeepTheirOrder(exact, globs[..|globs| - 1]);
    } else if |exact| > 0 {
      assert specs[..|specs| - 1] == exact[..|exact| - 1] + [];
      GlobsKeepTheirOrder(exact[..|exact| - 1], []);
    }
  }

  lemma {:induction false} SameFirstGlob(out: seq<B.GlobKind>, globs: seq<R.Spec>, i: nat, tool: string)
    requires i <= |out| == |globs|
    requires forall k :: 0 <= k < |out| ==> out[k] == B.GlobKind(globs[k].tool, Name(globs[k].kind))
    ensures B.KindByGlob(out, i, tool) ==
              match R.KindByGlob(globs[i..], tool) case Some(kind) => Some(Name(kind)) case None => None
    decreases |out| - i
  {
    hide FnMatchCase;
    if i < |out| {
      SameFirstGlob(out, globs, i + 1, tool);
      assert globs[i..][1..] == globs[i + 1..];
    }
  }

  lemma ExactNamesAgree(reg: R.Registry, tool: string)
    requires R.WellFormed(reg)
    ensures var exact := ExactOf(reg.exact + reg.globs);
            var kind := R.Lookup(reg.exact, tool);
            && (tool in exact <==> kind.Some?)
            && (tool in exact ==> exact[tool] == Name(kind.value))
  {
    hide IsLiteral, Name;
    var all := reg.exact + reg.globs;
    var exact := ExactOf(all);
    if tool in exact {
      var x :| x in all && x.tool == tool && IsLiteral(tool) && exact[tool] == Name(x.kind);
      R.LookupFinds(reg.exact, x);
    } else {
      assert forall x :: x in reg.exact ==> x in all;
    }
  }

  function StaticPosture(reg: Option<R.Registry>, tool: string): Posture {
    if reg.Some? then R.Classified(reg.value, tool) else Unknown
  }

  /** The bundle gives each tool the posture the registry gives it: exact names first, then the globs
      in registration order. Every registry that registration builds is well formed. */
  lemma BundleClassifiesLikeRegistry(p: Policy, reg: Option<R.Registry>, tool: string)
    requires reg.Some? ==> R.WellFormed(reg.value)
    requires Compiled(p, reg, Name(Unknown)).Ok?
    ensures B.Classified(Compiled(p, reg, Name(Unknown)).value, tool) == Name(StaticPosture(reg, tool))
  {
    hide IsLiteral, FnMatchCase, ExactOf, GlobsOf, R.Lookup, R.KindByGlob, B.KindByGlob, CompileRules, Name;
    match reg
    case None =>
      NothingCollected();
      SameFirstGlob([], [], 0, tool);
      NoGlobs(tool);
    case Some(r) =>
      ExactNamesAgree(r, tool);
      GlobsKeepTheirOrder(r.exact, r.globs);
      SameFirstGlob(GlobsOf(r.exact + r.globs), r.globs, 0, tool);
      assert r.globs[0..] == r.globs;
  }

  lemma NoGlobs(tool: string)
    ensures R.KindByGlob([], tool) == None
  {
  }

  // ----- the compiled rules decide as the live ones do -------------------------------------------

  lemma RanksAgree(p: Posture, missing: int)
    ensures B.RankOr(Name(p), missing) == Rank(p)
  {
  }

  lemma PosturesAgree(r: Rule, posture: Posture)
    requires Expressible(r)
    ensures B.PostureMatches(CompileRule(r).value, Name(posture)) <==> PostureMatches(r, posture)
  {
    var names := Names(r.reversibility);
    RanksAgree(posture, -1);
    if r.minReversibility.Some? {
      RanksAgree(r.minReversibility.value, 99);
    }
    if Name(posture) in names {
      var i :| 0 <= i < |names| && names[i] == Name(posture);
      NameIsInjective(r.reversibility[i], posture);
    }
    if posture in r.reversibility {
      var i :| 0 <= i < |names| && r.reversibility[i] == posture;
      assert names[i] == Name(posture);
    }
  }

  lemma RulesAgree(r: Rule, c: B.Call, posture: Posture, around: Surroundings)
    requires Expressible(r)
    ensures B.RuleMatches(CompileRule(r).value, c, Name(posture)) <==> RuleMatches(r, c, posture, around)
  {
    hide B.AnyGlob, B.RolesMatch, B.PostureMatches, PostureMatches, B.NumbersMatch, Name;
    PosturesAgree(r, posture);
  }

  // What of a verdict the live engine also decides.
  predicate SameVerdict(v: B.Verdict, d: Decision) {
    && v.effect == EffectName(d.effect)
    && v.ruleId == d.ruleId
    && v.reason == d.reason
    && (v.allowed <==> d.effect == Allow)
  }

  // The posture a call carries is the one the live engine is told; or the call carries none, and the
  // live engine is told what the registry says.
  predicate SamePosture(c: B.Call, posture: Posture, reg: Option<R.Registry>, unknown: string) {
    c.reversibility == Name(posture)
    || (c.reversibility == "" && unknown == Name(Unknown) && posture == StaticPosture(reg, c.tool))
  }

  lemma PostureArrives(p: Policy, reg: Option<R.Registry>, unknown: string, c: B.Call, posture: Posture)
    requires reg.Some? ==> R.WellFormed(reg.value)
    requires Compiled(p, reg, unknown).Ok? && SamePosture(c, posture, reg, unknown)
    ensures B.PostureOf(Compiled(p, reg, unknown).value, c) == Name(posture)
  {
    hide R.WellFormed, StaticPosture, B.Classified, Compiled;
    if unknown == Name(Unknown) {
      BundleClassifiesLikeRegistry(p, reg, c.tool);
    }
    assert Name(posture) != "";
  }

  /** Compilation preserves meaning: whatever the arguments and the session, the bundle's verdict is
      the live decision, for every policy that compiles, every call and every posture. */
  lemma CompilationPreservesMeaning(
      p: Policy, reg: Option<R.Registry>, unknown: string, c: B.Call, posture: Posture, around: Surroundings)
    requires reg.Some? ==> R.WellFormed(reg.value)
    requires Compiled(p, reg, unknown).Ok?
    requires SamePosture(c, posture, reg, unknown)
    ensures SameVerdict(B.Judged(Compiled(p, reg, unknown).value, c), Decided(p, c, posture, around))
  {
    hide R.WellFormed, StaticPosture, B.Classified, B.RuleMatches, RuleMatches, CompileRules, CompileRule;
    hide B.FirstMatch, FirstMatch, Reason, ExactOf, GlobsOf, SamePosture, B.PostureOf, Name;
    var bundle := Compiled(p, reg, unknown).value;
    PostureArrives(p, reg, unknown, c, posture);
    RulesMatchAlike(p.rules, bundle.rules, c, posture, around);
    var k := FirstMatch(p.rules, 0, c, posture, around);
    B.FirstMatchIs(bundle.rules, c, Name(posture), k);
    if k < |p.rules| {
      CompiledFields(p.rules, k);
    }
  }

  /** A live policy with conditions and budgets is, at each moment, the bundle compiled from its rules in
      force. */
  lemma BundleOfRulesInForce(
      p: Policy, reg: Option<R.Registry>, unknown: string, c: B.Call, posture: Posture, around: Surroundings)
    requires reg.Some? ==> R.WellFormed(reg.value)
    requires SamePosture(c, posture, reg, unknown)
    ensures var inForce := p.(rules := InForce(p.rules, around));
            && Compiled(inForce, reg, unknown).Ok?
            && SameVerdict(B.Judged(Compiled(inForce, reg, unknown).value, c), Decided(p, c, posture, around))
  {
    hide Decided, B.Judged, SameVerdict, SamePosture, R.WellFormed, ExactOf, GlobsOf, CompileRules, B.PostureOf;
    var inForce := p.(rules := InForce(p.rules, around));
    InForceIsExpressible(p.rules, around);
    CompileRulesExactly(inForce.rules);
    OnlyRulesInForceDecide(p, c, posture, around);
    CompilationPreservesMeaning(inForce, reg, unknown, c, posture, around);
  }

  lemma {:induction false} InForceIsExpressible(rules: seq<Rule>, around: Surroundings)
    ensures forall r :: r in InForce(rules, around) ==> r.condition.AlwaysTrue? && r.budget.None?
  {
    if |rules| > 0 {
      InForceIsExpressible(rules[1..], around);
    }
  }

  lemma RulesMatchAlike(rules: seq<Rule>, compiled: seq<B.Rule>, c: B.Call, posture: Posture, around: Surroundings)
    requires CompileRules(rules) == Ok(compiled)
    ensures |compiled| == |rules|
    ensures forall i :: 0 <= i < |rules| ==>
              (B.RuleMatches(compiled[i], c, Name(posture)) <==> RuleMatches(rules[i], c, posture, around))
  {
    hide CompileRules, CompileRule, Expressible, B.RuleMatches, RuleMatches, Name;
    CompileRulesExactly(rules);
    forall i | 0 <= i < |rules|
      ensures B.RuleMatches(compiled[i], c, Name(posture)) <==> RuleMatches(rules[i], c, posture, around)
    {
      assert rules[i] in rules;
      RulesAgree(rules[i], c, posture, around);
    }
  }

  lemma CompiledFields(rules: seq<Rule>, i: nat)
    requires CompileRules(rules).Ok? && i < |rules|
    ensures |CompileRules(rules).value| == |rules|
    ensures var r := CompileRules(rules).value[i];
            r.id == rules[i].id && r.effect == EffectName(rules[i].effect) && r.reason == Reason(rules[i])
  {
    hide CompileRules;
    CompileRulesExactly(rules);
    assert rules[i] in rules;
    assert CompileRule(rules[i]) == Ok(CompileRules(rules).value[i]);
  }
}
