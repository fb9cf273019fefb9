/** The calls that `prove.py` tries on a policy, and why they are enough: whatever rule some call
    reaches first, one of the tried calls reaches first too. */
module CallSpace {
  import opened Outcomes
  import opened Glob
  import opened Bundles
  import opened Ordering
  import opened PatternWitnesses

  // ----- thresholds ----------------------------------------------------------------------------

  datatype Bound = MinRisk | MaxRisk | MinThreat

  function Stated(r: Rule, k: Bound): Option<int> {
    match k
    case MinRisk => r.minRisk
    case MaxRisk => r.maxRisk
    case MinThreat => r.minThreat
  }

  const RISKS := [MinRisk, MaxRisk]
  const THREATS := [MinThreat]

  predicate IsNear(bound: Option<int>, v: int) {
    bound.Some? && bound.value - 1 <= v <= bound.value + 1
  }

  /** Zero, and each stated bound with its two neighbours, when not negative. */
  ghost predicate IsMark(rules: seq<Rule>, bounds: seq<Bound>, v: int) {
    v >= 0 && (v == 0 || exists r, k :: r in rules && k in bounds && IsNear(Stated(r, k), v))
  }

  predicate LessInt(a: int, b: int) {
    a < b
  }

  method Thresholds(rules: seq<Rule>, bounds: seq<Bound>) returns (marks: seq<int>)
    ensures Ascending(LessInt, marks)
    ensures forall v :: v in marks <==> IsMark(rules, bounds, v)
  {
    var seen := {0};
    for i := 0 to |rules|
      invariant forall v :: v in seen <==> v == 0 || exists r, k :: r in rules[..i] && k in bounds && IsNear(Stated(r, k), v)
    {
      ghost var before := seen;
      assert rules[..i + 1] == rules[..i] + [rules[i]];
      for j := 0 to |bounds|
        invariant forall v :: v in seen <==> v in before || exists k :: k in bounds[..j] && IsNear(Stated(rules[i], k), v)
      {
        assert bounds[..j + 1] == bounds[..j] + [bounds[j]];
        var t := Stated(rules[i], bounds[j]);
        if t.Some? {
          assert forall v :: v in {t.value - 1, t.value, t.value + 1} <==> IsNear(t, v);
          seen := seen + {t.value - 1, t.value, t.value + 1};
        }
      }
      assert bounds[..|bounds|] == bounds;
    }
    assert rules[..|rules|] == rules;
    marks := SortedMarks(seen);
  }

  lemma EmptyOrNot(s: set<int>)
    ensures s == {} || exists v :: v in s
  {
    if forall v :: v !in s {
      assert s == {};
    }
  }

  method SortedMarks(seen: set<int>) returns (marks: seq<int>)
    ensures Ascending(LessInt, marks)
    ensures forall v :: v in marks <==> v in seen && v >= 0
  {
    marks := [];
    var rest := seen;
    while rest != {}
      invariant rest <= seen && Ascending(LessInt, marks)
      invariant forall v :: v in marks <==> v in seen - rest && v >= 0
    {
      EmptyOrNot(rest);
      var v: int :| v in rest;
      rest := rest - {v};
      if v >= 0 {
        assert IsTotal(LessInt);
        marks := Insert(LessInt, v, marks);
      }
    }
  }

  /** The risks and the threat scores tried: zero, and each bound that some rule states with its neighbours,
      when not negative. */
  lemma MarksSpelledOut(rules: seq<Rule>, v: int)
    ensures IsMark(rules, RISKS, v)
       <==> v >= 0
            && (v == 0
                || exists r :: r in rules
                     && ((r.minRisk.Some? && v in {r.minRisk.value - 1, r.minRisk.value, r.minRisk.value + 1})
                         || (r.maxRisk.Some? && v in {r.maxRisk.value - 1, r.maxRisk.value, r.maxRisk.value + 1})))
    ensures IsMark(rules, THREATS, v)
       <==> v >= 0
            && (v == 0
                || exists r :: r in rules
                     && r.minThreat.Some? && v in {r.minThreat.value - 1, r.minThreat.value, r.minThreat.value + 1})
  {
    assert MinRisk in RISKS && MaxRisk in RISKS && MinThreat in THREATS;
    forall r, k | r in rules && k in RISKS && IsNear(Stated(r, k), v)
      ensures (r.minRisk.Some? && v in {r.minRisk.value - 1, r.minRisk.value, r.minRisk.value + 1})
           || (r.maxRisk.Some? && v in {r.maxRisk.value - 1, r.maxRisk.value, r.maxRisk.value + 1})
    {
    }
    forall r | r in rules
      ensures IsNear(Stated(r, MinRisk), v)
         <==> r.minRisk.Some? && v in {r.minRisk.value - 1, r.minRisk.value, r.minRisk.value + 1}
      ensures IsNear(Stated(r, MaxRisk), v)
         <==> r.maxRisk.Some? && v in {r.maxRisk.value - 1, r.maxRisk.value, r.maxRisk.value + 1}
      ensures IsNear(Stated(r, MinThreat), v)
         <==> r.minThreat.Some? && v in {r.minThreat.value - 1, r.minThreat.value, r.minThreat.value + 1}
    {
    }
  }

  /** The largest mark not above a value stands for it: it is on the same side of every bound. */
  lemma MarkBelow(rules: seq<Rule>, bounds: seq<Bound>, x: nat) returns (y: int)
    ensures IsMark(rules, bounds, y) && y <= x
    ensures forall v :: y < v <= x ==> !IsMark(rules, bounds, v)
  {
    if IsMark(rules, bounds, x) {
      y := x;
    } else {
      y := MarkBelow(rules, bounds, x - 1);
    }
  }

  lemma MarkStandsFor(rules: seq<Rule>, bounds: seq<Bound>, x: nat, y: int, r: Rule, k: Bound)
    requires IsMark(rules, bounds, y) && y <= x
    requires forall v :: y < v <= x ==> !IsMark(rules, bounds, v)
    requires r in rules && k in bounds && Stated(r, k).Some?
    ensures x >= Stated(r, k).value <==> y >= Stated(r, k).value
    ensures x <= Stated(r, k).value <==> y <= Stated(r, k).value
  {
    var t := Stated(r, k).value;
    assert IsNear(Stated(r, k), t) && IsNear(Stated(r, k), t + 1);
    assert t >= 0 ==> IsMark(rules, bounds, t);
    assert t + 1 >= 0 ==> IsMark(rules, bounds, t + 1);
  }

  // ----- roles ---------------------------------------------------------------------------------

  const ROLE_CAP := 6

  function Requirement(r: Rule): seq<string> {
    SortedStrings(r.requireRoles)
  }

  function WithRoles(roles: seq<string>, all: seq<string>): (r: seq<string>)
    ensures forall x :: x in r <==> x in roles || x in all
  {
    if |roles| == 0 then all else Insert(LessString, roles[0], WithRoles(roles[1..], all))
  }

  // Every role that some rule asks for, in order.
  function AllRoles(rules: seq<Rule>): (all: seq<string>)
    ensures forall x :: x in all <==> exists r :: r in rules && x in r.requireRoles
  {
    if |rules| == 0 then []
    else
      var n := |rules| - 1;
      assert rules == rules[..n] + [rules[n]];
      WithRoles(rules[n].requireRoles, AllRoles(rules[..n]))
  }

  // The empty combination and what each rule asks for, in order.
  function RuleCombos(rules: seq<Rule>): (combos: seq<seq<string>>)
    ensures forall x :: x in combos <==> x == [] || exists r :: r in rules && x == Requirement(r)
    ensures |combos| > 0 && combos[0] == []
  {
    if |rules| == 0 then [[]]
    else
      var n := |rules| - 1;
      assert rules == rules[..n] + [rules[n]];
      var before := RuleCombos(rules[..n]);
      var asked := Requirement(rules[n]);
      if asked == [] then before else Insert(LessTuple, asked, before)
  }

  function RoleCombos(rules: seq<Rule>): seq<seq<string>> {
    var all := AllRoles(rules);
    if all == [] then RuleCombos(rules) else Insert(LessTuple, all, RuleCombos(rules))
  }

  // No more than the first `cap` are tried.
  function RoleSets(rules: seq<Rule>, cap: nat): seq<seq<string>> {
    var combos := RoleCombos(rules);
    if |combos| > cap then combos[..cap] else combos
  }

  method ChooseRoles(rules: seq<Rule>, cap: nat) returns (sets: seq<seq<string>>)
    ensures sets == RoleSets(rules, cap)
  {
    hide Requirement, LessTuple, Insert;
    var combos: seq<seq<string>> := [[]];
    for i := 0 to |rules|
      invariant combos == RuleCombos(rules[..i])
    {
      assert rules[..i + 1][..i] == rules[..i];
      var asked := Requirement(rules[i]);
      if asked != [] {
        combos := Insert(LessTuple, asked, combos);
      }
    }
    assert rules[..|rules|] == rules;
    var all := AllRoles(rules);
    if all != [] {
      combos := Insert(LessTuple, all, combos);
    }
    return if |combos| > cap then combos[..cap] else combos;
  }

  lemma {:induction false} WithRolesAscends(roles: seq<string>, all: seq<string>)
    requires Ascending(LessString, all)
    ensures Ascending(LessString, WithRoles(roles, all))
  {
    hide LessString;
    StringsAreOrdered();
    if |roles| > 0 {
      WithRolesAscends(roles[1..], all);
    }
  }

  lemma {:induction false} AllRolesAscend(rules: seq<Rule>)
    ensures Ascending(LessString, AllRoles(rules))
  {
    hide LessString, WithRoles;
    if |rules| > 0 {
      AllRolesAscend(rules[..|rules| - 1]);
      WithRolesAscends(rules[|rules| - 1].requireRoles, AllRoles(rules[..|rules| - 1]));
    }
  }

  lemma {:induction false} RuleCombosAscend(rules: seq<Rule>)
    ensures Ascending(LessTuple, RuleCombos(rules))
  {
    hide LessTuple, Requirement;
    TuplesAreOrdered();
    if |rules| > 0 {
      RuleCombosAscend(rules[..|rules| - 1]);
    }
  }

  /** The combinations are the empty one, what each rule asks for and all roles together, each once and
      in order. */
  lemma CombosAreSorted(rules: seq<Rule>)
    ensures Ascending(LessTuple, RoleCombos(rules)) && Ascending(LessString, AllRoles(rules))
    ensures forall x :: x in RoleCombos(rules)
              <==> x == [] || x == AllRoles(rules) || exists r :: r in rules && x == Requirement(r)
  {
    hide LessTuple, LessString, RuleCombos, AllRoles, Requirement;
    TuplesAreOrdered();
    AllRolesAscend(rules);
    RuleCombosAscend(rules);
  }

  /** The cap never drops the empty combination. */
  lemma NoRolesIsTried(rules: seq<Rule>, cap: nat)
    requires cap > 0
    ensures [] in RoleSets(rules, cap)
  {
  }

  predicate SameRoles(a: seq<string>, b: seq<string>) {
    (forall x :: x in a ==> x in b) && (forall x :: x in b ==> x in a)
  }

  // Some combination that is tried holds exactly these roles.
  predicate IsCovered(rules: seq<Rule>, cap: nat, roles: seq<string>) {
    exists t :: t in RoleSets(rules, cap) && SameRoles(t, roles)
  }

  predicate RolesCovered(rules: seq<Rule>, cap: nat) {
    forall r :: r in rules ==> IsCovered(rules, cap, r.requireRoles)
  }

  /** Nothing that a rule asks for is missed when there are no more combinations than the cap; so there
      is always a cap under which nothing is missed. */
  lemma FewCombosAreCovered(rules: seq<Rule>, cap: nat)
    requires |RoleCombos(rules)| <= cap
    ensures RolesCovered(rules, cap)
  {
    hide AllRoles, Requirement, RoleCombos;
    CombosAreSorted(rules);
    forall r | r in rules
      ensures IsCovered(rules, cap, r.requireRoles)
    {
      RequirementIsMet(r);
      assert Requirement(r) in RoleSets(rules, cap);
    }
  }

  // ----- the space -----------------------------------------------------------------------------

  datatype Field = Tools | Actions | Agents

  function Of(r: Rule, f: Field): seq<string> {
    match f
    case Tools => r.tools
    case Actions => r.actions
    case Agents => r.agents
  }

  function Patterns(rules: seq<Rule>, f: Field): set<string> {
    set r, p | r in rules && p in Of(r, f) :: p
  }

  function Literals(b: Bundle, f: Field): set<string> {
    match f
    case Tools => b.reversibility.Keys
    case Actions => {"read", "write"}
    case Agents => {}
  }

  const POSTURES := ["idempotent", "reversible", "compensable", "irreversible", "unknown"]

  /** A call as the enforcer meets it: its posture is one of the five, its scores are not negative. */
  predicate IsCall(c: Call) {
    c.risk >= 0 && c.threat >= 0 && c.reversibility in POSTURES
  }

  ghost predicate IsTried(b: Bundle, f: Field, name: string) {
    IsNameWitness(Patterns(b.rules, f), Literals(b, f), name)
  }

  ghost predicate InSpace(b: Bundle, cap: nat, w: Call) {
    && IsTried(b, Tools, w.tool)
    && IsTried(b, Actions, w.action)
    && IsTried(b, Agents, w.agent)
    && w.roles in RoleSets(b.rules, cap)
    && IsMark(b.rules, RISKS, w.risk)
    && IsMark(b.rules, THREATS, w.threat)
    && w.reversibility in POSTURES
  }

  lemma TriedCallsAreCalls(b: Bundle, cap: nat, w: Call)
    requires InSpace(b, cap, w)
    ensures IsCall(w)
  {
  }

  // ----- enumerating the space -----------------------------------------------------------------

  lemma PairsInRow<A, B>(a: A, ys: seq<B>, row: seq<(A, B)>)
    requires |row| == |ys| && forall i :: 0 <= i < |ys| ==> row[i] == (a, ys[i])
    ensures forall b :: b in ys ==> (a, b) in row
  {
  }

  // `itertools.product` of two lists: the second runs fastest.
  function Pairs<A(!new), B(!new)>(xs: seq<A>, ys: seq<B>): (r: seq<(A, B)>)
    ensures forall a, b :: (a, b) in r <==> a in xs && b in ys
    ensures |r| == |xs| * |ys|
  {
    if |xs| == 0 then []
    else
      var row := seq(|ys|, i requires 0 <= i < |ys| => (xs[0], ys[i]));
      assert forall i :: 0 <= i < |ys| ==> row[i] == (xs[0], ys[i]);
      assert forall b :: b in ys ==> (xs[0], b) in row by { PairsInRow(xs[0], ys, row); }
      row + Pairs(xs[1..], ys)
  }

  type Names = (string, (string, string))
  type Scores = (int, (int, string))

  function CallOf(names: Names, roles: seq<string>, scores: Scores): Call {
    Call(names.0, names.1.0, names.1.1, roles, scores.0, scores.1.0, scores.1.1)
  }

  function CallsOf(parts: seq<(Names, (seq<string>, Scores))>): (ws: seq<Call>)
    ensures |ws| == |parts|
    ensures forall i :: 0 <= i < |ws| ==> ws[i] == CallOf(parts[i].0, parts[i].1.0, parts[i].1.1)
  {
    seq(|parts|, i requires 0 <= i < |parts| => CallOf(parts[i].0, parts[i].1.0, parts[i].1.1))
  }

  function Product(tools: seq<string>, actions: seq<string>, agents: seq<string>, roles: seq<seq<string>>,
                   risks: seq<int>, threats: seq<int>): seq<Call> {
    CallsOf(Pairs(Pairs(tools, Pairs(actions, agents)), Pairs(roles, Pairs(risks, Pairs(threats, POSTURES)))))
  }

  lemma ProductHolds(tools: seq<string>, actions: seq<string>, agents: seq<string>, roles: seq<seq<string>>,
                     risks: seq<int>, threats: seq<int>, w: Call)
    ensures w in Product(tools, actions, agents, roles, risks, threats)
       <==> && w.tool in tools && w.action in actions && w.agent in agents && w.roles in roles
            && w.risk in risks && w.threat in threats && w.reversibility in POSTURES
  {
    hide Pairs;
    var names := Pairs(tools, Pairs(actions, agents));
    var rest := Pairs(roles, Pairs(risks, Pairs(threats, POSTURES)));
    var parts := Pairs(names, rest);
    var ws := CallsOf(parts);
    if w in ws {
      var i :| 0 <= i < |ws| && ws[i] == w;
      assert (parts[i].0, parts[i].1) in parts;
      assert (parts[i].0.0, (parts[i].0.1.0, parts[i].0.1.1)) in names;
      assert (parts[i].1.0, (parts[i].1.1.0, (parts[i].1.1.1.0, parts[i].1.1.1.1))) in rest;
    }
    var part := ((w.tool, (w.action, w.agent)), (w.roles, (w.risk, (w.threat, w.reversibility))));
    if part in parts {
      var i :| 0 <= i < |parts| && parts[i] == part;
      assert ws[i] == w;
    }
  }

  // The values tried for each part of a call but its roles and its posture.
  datatype Axes = Axes(tools: seq<string>, actions: seq<string>, agents: seq<string>, risks: seq<int>, threats: seq<int>)

  ghost predicate AreNames(b: Bundle, f: Field, names: seq<string>) {
    Ascending(LessString, names) && forall w :: w in names <==> IsTried(b, f, w)
  }

  ghost predicate AreMarks(b: Bundle, bounds: seq<Bound>, marks: seq<int>) {
    Ascending(LessInt, marks) && forall v :: v in marks <==> IsMark(b.rules, bounds, v)
  }

  ghost predicate AreAxes(b: Bundle, x: Axes) {
    && AreNames(b, Tools, x.tools) && AreNames(b, Actions, x.actions) && AreNames(b, Agents, x.agents)
    && AreMarks(b, RISKS, x.risks) && AreMarks(b, THREATS, x.threats)
  }

  function Enumeration(b: Bundle, cap: nat, x: Axes): seq<Call> {
    Product(x.tools, x.actions, x.agents, RoleSets(b.rules, cap), x.risks, x.threats)
  }

  /** The tried calls in the order of the search. */
  ghost predicate IsEnumeration(b: Bundle, cap: nat, ws: seq<Call>) {
    exists x :: AreAxes(b, x) && ws == Enumeration(b, cap, x)
  }

  lemma OneListOfMarks(b: Bundle, bounds: seq<Bound>, xs: seq<int>, ys: seq<int>)
    requires AreMarks(b, bounds, xs) && AreMarks(b, bounds, ys)
    ensures xs == ys
  {
    hide IsMark, Ascending;
    assert IsStrict(LessInt);
    forall v
      ensures v in xs <==> v in ys
    {
      assert v in xs <==> IsMark(b.rules, bounds, v);
    }
    AscendingIsUnique(LessInt, xs, ys);
  }

  /** That order is fixed by the policy. */
  lemma OneEnumeration(b: Bundle, cap: nat, ws: seq<Call>, ws': seq<Call>)
    requires IsEnumeration(b, cap, ws) && IsEnumeration(b, cap, ws')
    ensures ws == ws'
  {
    hide IsTried, IsMark, LessString, LessInt, Enumeration, Ascending;
    var x :| AreAxes(b, x) && ws == Enumeration(b, cap, x);
    var y :| AreAxes(b, y) && ws' == Enumeration(b, cap, y);
    StringsAreStrict();
    AscendingIsUnique(LessString, x.tools, y.tools);
    AscendingIsUnique(LessString, x.actions, y.actions);
    AscendingIsUnique(LessString, x.agents, y.agents);
    OneListOfMarks(b, RISKS, x.risks, y.risks);
    OneListOfMarks(b, THREATS, x.threats, y.threats);
  }

  lemma EnumeratesTheSpace(b: Bundle, cap: nat, ws: seq<Call>)
    requires IsEnumeration(b, cap, ws)
    ensures forall w :: w in ws <==> InSpace(b, cap, w)
  {
    hide IsTried, IsMark, Product, RoleSets, LessString, LessInt, Ascending;
    var x :| AreAxes(b, x) && ws == Enumeration(b, cap, x);
    forall w
      ensures w in ws <==> InSpace(b, cap, w)
    {
      ProductHolds(x.tools, x.actions, x.agents, RoleSets(b.rules, cap), x.risks, x.threats, w);
    }
  }

  method Witnesses(b: Bundle) returns (ws: seq<Call>)
    ensures IsEnumeration(b, ROLE_CAP, ws)
    ensures forall w :: w in ws <==> InSpace(b, ROLE_CAP, w)
    ensures IsTried(b, Actions, "read") && IsTried(b, Actions, "write") && forall t :: t in b.reversibility ==> IsTried(b, Tools, t)
  {
    hide IsNameWitness, IsMark, Product, RoleSets, InSpace;
    var tools, _ := GlobWitnesses(Patterns(b.rules, Tools), Literals(b, Tools));
    var actions, _ := GlobWitnesses(Patterns(b.rules, Actions), Literals(b, Actions));
    var agents, _ := GlobWitnesses(Patterns(b.rules, Agents), Literals(b, Agents));
    var risks := Thresholds(b.rules, RISKS);
    var threats := Thresholds(b.rules, THREATS);
    var roles := ChooseRoles(b.rules, ROLE_CAP);
    ws := Product(tools, actions, agents, roles, risks, threats);
    ghost var x := Axes(tools, actions, agents, risks, threats);
    assert AreAxes(b, x) && ws == Enumeration(b, ROLE_CAP, x);
    EnumeratesTheSpace(b, ROLE_CAP, ws);
  }

  // ----- the space is enough -------------------------------------------------------------------

  /** Every pattern is simple, and no filled name matches a pattern by accident. */
  predicate Searchable(b: Bundle) {
    forall f: Field :: AllSimple(Patterns(b.rules, f)) && IsFresh(Patterns(b.rules, f))
  }

  // The rule a call reaches, or the number of rules when it falls through to the default.
  function Reached(b: Bundle, c: Call): (k: nat)
    ensures k <= |b.rules|
  {
    FirstMatch(b.rules, 0, c, c.reversibility)
  }

  // Whatever pattern of the field matches `w` matches `s` too.
  ghost predicate StandsFor(patterns: set<string>, w: string, s: string) {
    forall q :: q in patterns && FnMatchCase(w, q) ==> FnMatchCase(s, q)
  }

  ghost predicate CallStandsFor(b: Bundle, w: Call, c: Call) {
    && StandsFor(Patterns(b.rules, Tools), w.tool, c.tool)
    && StandsFor(Patterns(b.rules, Actions), w.action, c.action)
    && StandsFor(Patterns(b.rules, Agents), w.agent, c.agent)
    && (forall role :: role in w.roles ==> role in c.roles)
    && w.reversibility == c.reversibility
    && (forall r :: r in b.rules ==>
          (NumbersMatch(r.minThreat, r.minRisk, r.maxRisk, w.risk, w.threat)
           <==> NumbersMatch(r.minThreat, r.minRisk, r.maxRisk, c.risk, c.threat)))
  }

  lemma NamesCarryOver(b: Bundle, r: Rule, f: Field, w: string, s: string)
    requires r in b.rules && StandsFor(Patterns(b.rules, f), w, s) && AnyGlob(w, Of(r, f))
    ensures AnyGlob(s, Of(r, f))
  {
  }

  lemma MatchesCarryOver(b: Bundle, r: Rule, w: Call, c: Call)
    requires r in b.rules && CallStandsFor(b, w, c) && RuleMatches(r, w, w.reversibility)
    ensures RuleMatches(r, c, c.reversibility)
  {
    hide AnyGlob, StandsFor, PostureMatches, NumbersMatch, Patterns;
    NamesCarryOver(b, r, Tools, w.tool, c.tool);
    NamesCarryOver(b, r, Actions, w.action, c.action);
    NamesCarryOver(b, r, Agents, w.agent, c.agent);
  }

  lemma ScoresFor(b: Bundle, c: Call) returns (risk: int, threat: int)
    requires c.risk >= 0 && c.threat >= 0
    ensures IsMark(b.rules, RISKS, risk) && IsMark(b.rules, THREATS, threat)
    ensures forall r :: r in b.rules ==>
              (NumbersMatch(r.minThreat, r.minRisk, r.maxRisk, risk, threat)
               <==> NumbersMatch(r.minThreat, r.minRisk, r.maxRisk, c.risk, c.threat))
  {
    hide IsMark;
    risk := MarkBelow(b.rules, RISKS, c.risk);
    threat := MarkBelow(b.rules, THREATS, c.threat);
    forall r | r in b.rules
      ensures NumbersMatch(r.minThreat, r.minRisk, r.maxRisk, risk, threat)
         <==> NumbersMatch(r.minThreat, r.minRisk, r.maxRisk, c.risk, c.threat)
    {
      assert MinRisk in RISKS && MaxRisk in RISKS && MinThreat in THREATS;
      if r.minRisk.Some? { MarkStandsFor(b.rules, RISKS, c.risk, risk, r, MinRisk); }
      if r.maxRisk.Some? { MarkStandsFor(b.rules, RISKS, c.risk, risk, r, MaxRisk); }
      if r.minThreat.Some? { MarkStandsFor(b.rules, THREATS, c.threat, threat, r, MinThreat); }
    }
  }

  lemma NameFor(b: Bundle, f: Field, r: Rule, s: string) returns (w: string)
    requires Searchable(b) && r in b.rules && AnyGlob(s, Of(r, f))
    ensures IsTried(b, f, w) && AnyGlob(w, Of(r, f)) && StandsFor(Patterns(b.rules, f), w, s)
  {
    hide FnMatchCase, AllSimple, IsFresh, IsNameWitness;
    var p :| p in Of(r, f) && FnMatchCase(s, p);
    assert p in Patterns(b.rules, f);
    w := FilledIsMostGeneral(Patterns(b.rules, f), Literals(b, f), p, s);
  }

  lemma CatchAllName(b: Bundle, f: Field, s: string)
    requires Searchable(b)
    ensures IsTried(b, f, UNMATCHED) && StandsFor(Patterns(b.rules, f), UNMATCHED, s)
  {
    hide FnMatchCase, AllSimple, Filled, Covers;
    StarMatchesAll(s);
    assert IsFresh(Patterns(b.rules, f));
  }

  /** The roles of the call, or those its rule asks for, are among the combinations that are tried. */
  predicate RolesTried(b: Bundle, cap: nat, c: Call) {
    var k := Reached(b, c);
    k < |b.rules| ==> c.roles in RoleSets(b.rules, cap) || IsCovered(b.rules, cap, b.rules[k].requireRoles)
  }

  /** The small model: for every call there is a tried call with the same posture that reaches the same
      rule first, or the default if the call reaches the default. */
  lemma SmallModel(b: Bundle, cap: nat, c: Call) returns (w: Call)
    requires Searchable(b) && IsCall(c) && cap > 0 && RolesTried(b, cap, c)
    ensures InSpace(b, cap, w) && w.reversibility == c.reversibility && Reached(b, w) == Reached(b, c)
  {
    hide Searchable, IsTried, IsMark, RoleSets, RuleMatches, NumbersMatch, FirstMatch, StandsFor;
    var k := Reached(b, c);
    var risk, threat := ScoresFor(b, c);
    if k < |b.rules| {
      var r := b.rules[k];
      MatchParts(r, c);
      var tool := NameFor(b, Tools, r, c.tool);
      var action := NameFor(b, Actions, r, c.action);
      var agent := NameFor(b, Agents, r, c.agent);
      var roles := RolesFor(b, cap, c, r);
      w := Call(tool, action, agent, roles, risk, threat, c.reversibility);
      MatchWhole(r, w);
    } else {
      CatchAllName(b, Tools, c.tool);
      CatchAllName(b, Actions, c.action);
      CatchAllName(b, Agents, c.agent);
      NoRolesIsTried(b.rules, cap);
      w := Call(UNMATCHED, UNMATCHED, UNMATCHED, [], risk, threat, c.reversibility);
    }
    forall j | 0 <= j < k
      ensures !RuleMatches(b.rules[j], w, w.reversibility)
    {
      if RuleMatches(b.rules[j], w, w.reversibility) {
        MatchesCarryOver(b, b.rules[j], w, c);
        assert false;
      }
    }
    FirstMatchIs(b.rules, w, w.reversibility, k);
  }

  lemma RolesFor(b: Bundle, cap: nat, c: Call, r: Rule) returns (roles: seq<string>)
    requires RolesMatch(r.requireRoles, c.roles)
    requires c.roles in RoleSets(b.rules, cap) || IsCovered(b.rules, cap, r.requireRoles)
    ensures roles in RoleSets(b.rules, cap) && RolesMatch(r.requireRoles, roles)
    ensures forall role :: role in roles ==> role in c.roles
  {
    hide RoleSets;
    if c.roles in RoleSets(b.rules, cap) {
      roles := c.roles;
    } else {
      roles :| roles in RoleSets(b.rules, cap) && SameRoles(roles, r.requireRoles);
    }
  }

  lemma RequirementIsMet(r: Rule)
    ensures forall role :: role in Requirement(r) <==> role in r.requireRoles
  {
    assert multiset(Requirement(r)) == multiset(r.requireRoles);
    assert forall role :: role in Requirement(r) <==> role in multiset(Requirement(r));
    assert forall role :: role in r.requireRoles <==> role in multiset(r.requireRoles);
  }

  lemma MatchParts(r: Rule, c: Call)
    requires RuleMatches(r, c, c.reversibility)
    ensures AnyGlob(c.tool, Of(r, Tools)) && AnyGlob(c.action, Of(r, Actions)) && AnyGlob(c.agent, Of(r, Agents))
    ensures RolesMatch(r.requireRoles, c.roles) && PostureMatches(r, c.reversibility)
    ensures NumbersMatch(r.minThreat, r.minRisk, r.maxRisk, c.risk, c.threat)
  {
  }

  lemma MatchWhole(r: Rule, c: Call)
    requires AnyGlob(c.tool, Of(r, Tools)) && AnyGlob(c.action, Of(r, Actions)) && AnyGlob(c.agent, Of(r, Agents))
    requires RolesMatch(r.requireRoles, c.roles) && PostureMatches(r, c.reversibility)
    requires NumbersMatch(r.minThreat, r.minRisk, r.maxRisk, c.risk, c.threat)
    ensures RuleMatches(r, c, c.reversibility)
  {
  }
}
