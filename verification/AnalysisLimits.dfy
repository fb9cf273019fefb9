/** Where the search of `prove.py` is not exact: one policy for each condition its results need. */
module AnalysisLimits {
  import opened Outcomes
  import opened Glob
  import opened Bundles
  import opened Ordering
  import opened PatternWitnesses
  import opened CallSpace
  import opened PolicyAnalysis
  import opened Postures

  // A rule that looks at the tool and the roles only.
  function OnToolAndRoles(id: string, effect: string, tools: seq<string>, roles: seq<string>): Rule {
    Rule(id, effect, tools, ["*"], ["*"], roles, [], None, None, None, None, [], "")
  }

  function PolicyOf(defaultEffect: string, rules: seq<Rule>): Bundle {
    Bundle(2, "limits@1", defaultEffect, map[], [], "unknown", rules)
  }

  lemma MatchesOnToolAndRoles(r: Rule, c: Call)
    requires r == OnToolAndRoles(r.id, r.effect, r.tools, r.requireRoles)
    ensures RuleMatches(r, c, c.reversibility) <==> AnyGlob(c.tool, r.tools) && RolesMatch(r.requireRoles, c.roles)
  {
    hide AnyGlob, RolesMatch, FnMatchCase;
    StarIsAny(c.action);
    StarIsAny(c.agent);
  }

  // ----- a filler matched by accident --------------------------------------------------------------

  function DenyTrailingG(): Bundle {
    PolicyOf(ALLOW, [OnToolAndRoles("deny-g", "deny", ["*g"], [])])
  }

  lemma EndsInG(s: string)
    ensures AnyGlob(s, ["*g"]) <==> |s| > 0 && s[|s| - 1] == 'g'
  {
    hide FnMatchCase;
    OneStarMatches("", "g", s);
    assert "" + "*" + "g" == "*g";
    assert AnyGlob(s, ["*g"]) <==> FnMatchCase(s, "*g") by { assert "*g" in ["*g"]; }
    assert s[0..] == s;
    if |s| > 0 {
      assert s[|s| - 1..] == [s[|s| - 1]];
    }
  }

  lemma ReachedInDenyG(c: Call)
    ensures Reached(DenyTrailingG(), c) == if |c.tool| > 0 && c.tool[|c.tool| - 1] == 'g' then 0 else 1
  {
    hide AnyGlob, RuleMatches;
    var r := DenyTrailingG().rules[0];
    EndsInG(c.tool);
    MatchesOnToolAndRoles(r, c);
    assert RolesMatch([], c.roles);
  }

  /** One deny rule on `*g` under an allowing default. Both tried tool names end in `g`, so the search
      never reaches the default and reports no hole, although a tool named `x` is allowed by it. Every
      pattern is simple, so the report also calls itself complete. */
  lemma AccidentHidesAHole()
    ensures var b := DenyTrailingG();
            && (forall f: Field :: AllSimple(Patterns(b.rules, f)))
            && HoleExists(b, {}, DEFAULT_RULE) && !HoleTried(b, ROLE_CAP, {}, DEFAULT_RULE)
            && DefaultIsLive(b) && !DefaultTried(b, ROLE_CAP)
  {
    hide FnMatchCase, Reached, IsMark, RoleSets, IsSimple;
    var b := DenyTrailingG();
    var r := b.rules[0];
    assert IsSimple("*g") && IsSimple("*") by { SimpleOnes(); }
    forall f: Field, p | p in Patterns(b.rules, f)
      ensures p == "*g" || p == "*"
    {
    }
    var c := Call("x", "write", "agent", [], 0, 0, "unknown");
    ReachedInDenyG(c);
    assert "unknown" == POSTURES[4];
    assert IsCall(c) && HoleAt(b, {}, c) == Some(DEFAULT_RULE);
    forall w | InSpace(b, ROLE_CAP, w)
      ensures Reached(b, w) == 0
    {
      TriedToolsEndInG(w.tool);
      ReachedInDenyG(w);
    }
  }

  lemma SimpleOnes()
    ensures IsSimple("*g") && IsSimple("*")
  {
  }

  lemma TriedToolsEndInG(w: string)
    requires IsTried(DenyTrailingG(), Tools, w)
    ensures |w| > 0 && w[|w| - 1] == 'g'
  {
  }

  // ----- more than six role combinations -----------------------------------------------------------

  function NeedsRole(role: string): Rule {
    OnToolAndRoles(role, ALLOW, ["*"], [role])
  }

  function FiveRoles(): Bundle {
    PolicyOf("deny", [NeedsRole("a"), NeedsRole("b"), NeedsRole("c"), NeedsRole("d"), NeedsRole("e")])
  }

  lemma {:induction false} InsertLast<T(!new)>(less: (T, T) -> bool, x: T, xs: seq<T>)
    requires forall i :: 0 <= i < |xs| ==> xs[i] != x && !less(x, xs[i])
    ensures Insert(less, x, xs) == xs + [x]
  {
    if |xs| > 0 {
      InsertLast(less, x, xs[1..]);
    }
  }

  lemma NeedsRoleAsks(role: string)
    ensures Requirement(NeedsRole(role)) == [role]
  {
    assert SortedStrings([]) == [];
    assert [role][1..] == [];
  }

  // One more rule asking for a role above all before it.
  lemma OneMoreRole(rules: seq<Rule>, role: string)
    requires forall i :: 0 <= i < |AllRoles(rules)| ==> AllRoles(rules)[i] != role && !LessString(role, AllRoles(rules)[i])
    requires forall i :: 0 <= i < |RuleCombos(rules)| ==>
               RuleCombos(rules)[i] != [role] && !LessTuple([role], RuleCombos(rules)[i])
    ensures AllRoles(rules + [NeedsRole(role)]) == AllRoles(rules) + [role]
    ensures RuleCombos(rules + [NeedsRole(role)]) == RuleCombos(rules) + [[role]]
  {
    hide LessString, LessTuple, Insert, Requirement;
    var more := rules + [NeedsRole(role)];
    assert more[..|more| - 1] == rules;
    NeedsRoleAsks(role);
    InsertLast(LessString, role, AllRoles(rules));
    InsertLast(LessTuple, [role], RuleCombos(rules));
    WithOneRole(role, AllRoles(rules));
  }

  lemma WithOneRole(role: string, all: seq<string>)
    ensures WithRoles([role], all) == Insert(LessString, role, all)
  {
  }

  lemma SevenCombos()
    ensures AllRoles(FiveRoles().rules) == ["a", "b", "c", "d", "e"]
    ensures RuleCombos(FiveRoles().rules) == [[], ["a"], ["b"], ["c"], ["d"], ["e"]]
  {
    hide Insert, AllRoles, RuleCombos;
    var r0: seq<Rule> := [];
    NothingAsked();
    OneMoreRole(r0, "a");
    var r1 := r0 + [NeedsRole("a")];
    OneMoreRole(r1, "b");
    var r2 := r1 + [NeedsRole("b")];
    OneMoreRole(r2, "c");
    var r3 := r2 + [NeedsRole("c")];
    OneMoreRole(r3, "d");
    var r4 := r3 + [NeedsRole("d")];
    OneMoreRole(r4, "e");
    assert r4 + [NeedsRole("e")] == FiveRoles().rules;
  }

  lemma NothingAsked()
    ensures AllRoles([]) == [] && RuleCombos([]) == [[]]
  {
  }

  lemma WhereAllGoes(all: seq<string>, later: seq<seq<string>>)
    requires |later| > 0 && later[0] != all && all != ["a"] && all != []
    requires LessTuple(all, later[0]) && !LessTuple(all, ["a"]) && !LessTuple(all, [])
    ensures Insert(LessTuple, all, [[]] + ([["a"]] + later)) == [[]] + ([["a"]] + ([all] + later))
  {
    hide LessTuple, Insert;
    InsertFirst(all, later);
    InsertAfter(all, ["a"], later);
    InsertAfter(all, [], [["a"]] + later);
  }

  lemma AllIsAfterItsFirst(all: seq<string>)
    requires |all| > 1 && all[0] == "a"
    ensures LessTuple(all, ["b"]) && !LessTuple(all, ["a"]) && !LessTuple(all, [])
  {
  }

  lemma EveryCombo(all: seq<string>)
    requires all == ["a", "b", "c", "d", "e"]
    ensures RoleCombos(FiveRoles().rules) == [[], ["a"], all, ["b"], ["c"], ["d"], ["e"]]
  {
    hide AllRoles, RuleCombos, Insert, LessTuple;
    SevenCombos();
    var later: seq<seq<string>> := [["b"], ["c"], ["d"], ["e"]];
    assert later[0][0][0] != all[0][0];
    AllIsAfterItsFirst(all);
    WhereAllGoes(all, later);
    assert RuleCombos(FiveRoles().rules) == [[]] + ([["a"]] + later);
  }

  /** The first six combinations: the one the fifth rule asks for is the seventh. */
  lemma CapDropsTheLast()
    ensures |RoleCombos(FiveRoles().rules)| == 7
    ensures RoleSets(FiveRoles().rules, ROLE_CAP) == [[], ["a"], ["a", "b", "c", "d", "e"], ["b"], ["c"], ["d"]]
  {
    hide RoleCombos;
    EveryCombo(["a", "b", "c", "d", "e"]);
  }

  lemma InsertFirst(x: seq<string>, xs: seq<seq<string>>)
    requires |xs| > 0 && xs[0] != x && LessTuple(x, xs[0])
    ensures Insert(LessTuple, x, xs) == [x] + xs
  {
  }

  lemma InsertAfter(x: seq<string>, y: seq<string>, xs: seq<seq<string>>)
    requires y != x && !LessTuple(x, y)
    ensures Insert(LessTuple, x, [y] + xs) == [y] + Insert(LessTuple, x, xs)
  {
    assert ([y] + xs)[1..] == xs;
  }

  /** Five rules that each ask for one role: seven combinations. The fifth rule is reached by any call
      that holds its role alone, and yet no tried call reaches it, so a report that calls itself complete
      accuses it of being dead. */
  lemma CapAccusesALiveRule()
    ensures var b := FiveRoles();
            && (forall f: Field :: AllSimple(Patterns(b.rules, f)))
            && |RoleCombos(b.rules)| == 7
            && IsLive(b, "e") && !FiredTried(b, ROLE_CAP, "e")
  {
    hide FnMatchCase, AnyGlob, Reached, IsMark, IsTried, RoleSets, IsSimple, RuleMatches, RoleCombos;
    var b := FiveRoles();
    CapDropsTheLast();
    assert IsSimple("*") by { SimpleOnes(); }
    forall f: Field, p | p in Patterns(b.rules, f)
      ensures p == "*"
    {
    }
    var c := Call("x", "write", "agent", ["e"], 0, 0, "unknown");
    ReachedByRole(c, "e");
    assert "unknown" == POSTURES[4];
    assert IsCall(c) && Fires(b, c, "e");
    forall w | InSpace(b, ROLE_CAP, w)
      ensures !Fires(b, w, "e")
    {
      ReachedByRole(w, "e");
    }
  }

  /** The same rule allows: irreversible work is reached under it, and no tried call shows the hole. */
  lemma CapHidesAHole()
    ensures var b := FiveRoles();
            HoleExists(b, {}, "e") && !HoleTried(b, ROLE_CAP, {}, "e")
  {
    hide FnMatchCase, AnyGlob, Reached, IsMark, IsTried, RoleSets, RuleMatches, RoleCombos;
    var b := FiveRoles();
    CapDropsTheLast();
    var c := Call("x", "write", "agent", ["e"], 0, 0, "unknown");
    ReachedByRole(c, "e");
    assert "unknown" == POSTURES[4];
    assert IsCall(c) && HoleAt(b, {}, c) == Some("e");
    forall w | InSpace(b, ROLE_CAP, w)
      ensures HoleAt(b, {}, w) != Some("e")
    {
      ReachedByRole(w, "e");
    }
  }

  // The fifth rule is reached exactly by the calls that hold its role and none of the other four.
  lemma ReachedByRole(c: Call, role: string)
    requires role == "e"
    ensures Fires(FiveRoles(), c, role)
       <==> "e" in c.roles && "a" !in c.roles && "b" !in c.roles && "c" !in c.roles && "d" !in c.roles
  {
    hide AnyGlob, RuleMatches;
    var b := FiveRoles();
    StarIsAny(c.tool);
    forall i | 0 <= i < 5
      ensures RuleMatches(b.rules[i], c, c.reversibility) <==> b.rules[i].id in c.roles
    {
      MatchesOnToolAndRoles(b.rules[i], c);
      assert b.rules[i].requireRoles == [b.rules[i].id];
    }
  }

  // ----- one id on two rules -----------------------------------------------------------------------

  function SameIdTwice(): Bundle {
    PolicyOf("deny", [OnToolAndRoles("r", "deny", ["*"], []), OnToolAndRoles("r", ALLOW, ["*"], [])])
  }

  /** Two rules with one id: no call at all reaches the second, but the id has fired, so the second is
      never reported. */
  lemma SharedIdHidesADeadRule()
    ensures var b := SameIdTwice();
            (forall c :: Reached(b, c) != 1) && FiredTried(b, ROLE_CAP, b.rules[1].id)
  {
    hide AnyGlob, RuleMatches, RoleSets;
    var b := SameIdTwice();
    forall c
      ensures Reached(b, c) == 0
    {
      StarIsAny(c.tool);
      MatchesOnToolAndRoles(b.rules[0], c);
      assert RolesMatch([], c.roles);
    }
    NoRolesIsTried(b.rules, ROLE_CAP);
    var w := Call(UNMATCHED, UNMATCHED, UNMATCHED, [], 0, 0, "unknown");
    assert "unknown" == POSTURES[4];
    assert InSpace(b, ROLE_CAP, w) && Fires(b, w, "r");
  }

  // ----- a rule with the name of the default -------------------------------------------------------

  function NamedLikeTheDefault(): Bundle {
    PolicyOf(ALLOW, [OnToolAndRoles(DEFAULT_RULE, ALLOW, ["x"], [])])
  }

  /** A policy that allows by default and has a rule called `__default__`, on one tool: the search reaches
      the default first and records it under that name, then meets the tool, which the registry alone calls
      unknown, and asks the default's entry for a key it does not have. The analysis ends in the error. */
  lemma NameOfTheDefaultCollides(ws: seq<Call>)
    requires IsEnumeration(NamedLikeTheDefault(), ROLE_CAP, ws)
    ensures Collides(NamedLikeTheDefault(), {}, ws)
  {
    hide IsTried, IsMark, HoleAt, Reached, RoleSets, AreMarks, IsEnumeration, InSpace, Enumeration, IsDirect;
    var b := NamedLikeTheDefault();
    var c := Call(UNMATCHED, UNMATCHED, UNMATCHED, [], 0, 0, "unknown");
    var d := c.(tool := "x");
    EnumeratesTheSpace(b, ROLE_CAP, ws);
    TriedInNamed(c);
    TriedInNamed(d);
    HolesOfNamed(c);
    HolesOfNamed(d);
    var n: nat :| n < |ws| && ws[n] == c;
    var j: nat :| j < |ws| && ws[j] == d;
    var i := FirstHole(b, {}, ws, DEFAULT_RULE, n);
    UnmatchedToolComesFirst(ws, i, n);
    if n >= j {
      UnmatchedToolComesFirst(ws, j, n);
    }
    HolesOfNamed(ws[i]);
    assert Collision(b, {}, ws, i, j);
  }

  lemma TriedInNamed(c: Call)
    requires c.tool in {UNMATCHED, "x"} && c == Call(c.tool, UNMATCHED, UNMATCHED, [], 0, 0, "unknown")
    ensures InSpace(NamedLikeTheDefault(), ROLE_CAP, c)
  {
    hide RoleSets;
    var b := NamedLikeTheDefault();
    NoRolesIsTried(b.rules, ROLE_CAP);
    TriedToolsOfNamed(c.tool);
    assert "unknown" == POSTURES[4];
  }

  lemma TriedToolsOfNamed(w: string)
    ensures IsTried(NamedLikeTheDefault(), Tools, w) <==> w in {UNMATCHED, "x"}
  {
    hide IsSimple, Filled;
    assert IsLiteral("x") && IsSimple("x") && Filled("x") == "x" by { LiteralX(); }
    assert Patterns(NamedLikeTheDefault().rules, Tools) == {"x"} by {
      assert "x" in Of(NamedLikeTheDefault().rules[0], Tools);
    }
  }

  lemma LiteralX()
    ensures IsLiteral("x") && IsSimple("x") && Filled("x") == "x"
  {
    FilledLiteral("x");
  }

  // The rule takes the calls on `x`, the default all others; each is a hole under the one name if one-way.
  lemma HolesOfNamed(c: Call)
    ensures var b := NamedLikeTheDefault();
            && (ByRule(b, c) <==> c.tool == "x")
            && (HoleAt(b, {}, c) == Some(DEFAULT_RULE) <==> IsOneWayName(c.reversibility))
            && (IsDirect(b, c) <==> c.reversibility == "unknown")
  {
    hide FnMatchCase, RuleMatches;
    var r := NamedLikeTheDefault().rules[0];
    MatchesOnToolAndRoles(r, c);
    LiteralX();
    LiteralMatchesItself("x", c.tool);
    assert "x" in r.tools;
    assert RolesMatch([], c.roles);
  }

  lemma {:induction false} FirstHole(b: Bundle, exempt: set<string>, ws: seq<Call>, id: string, n: nat) returns (i: nat)
    requires n < |ws| && HoleAt(b, exempt, ws[n]) == Some(id)
    ensures i <= n && IsFirst(b, exempt, ws, id, i)
    decreases n
  {
    hide HoleAt;
    i := n;
    if k: nat :| k < n && HoleAt(b, exempt, ws[k]) == Some(id) {
      i := FirstHole(b, exempt, ws, id, k);
    }
  }

  lemma {:induction false} PairsInOrder<A(!new), B(!new)>(xs: seq<A>, ys: seq<B>, i: nat, j: nat) returns (a: nat, c: nat)
    requires i <= j < |Pairs(xs, ys)|
    ensures a <= c < |xs| && Pairs(xs, ys)[i].0 == xs[a] && Pairs(xs, ys)[j].0 == xs[c]
    decreases |xs|
  {
    var n := |ys|;
    var row := seq(n, k requires 0 <= k < n => (xs[0], ys[k]));
    assert Pairs(xs, ys) == row + Pairs(xs[1..], ys);
    a, c := 0, 0;
    if n <= i {
      a, c := PairsInOrder(xs[1..], ys, i - n, j - n);
      a, c := a + 1, c + 1;
    } else if n <= j {
      var _, e := PairsInOrder(xs[1..], ys, j - n, j - n);
      c := e + 1;
    }
  }

  /** The tool varies slowest in the search. */
  lemma ToolsComeInOrder(b: Bundle, cap: nat, x: Axes, i: nat, j: nat) returns (a: nat, c: nat)
    requires i <= j < |Enumeration(b, cap, x)|
    ensures a <= c < |x.tools|
    ensures Enumeration(b, cap, x)[i].tool == x.tools[a] && Enumeration(b, cap, x)[j].tool == x.tools[c]
  {
    hide Pairs, RoleSets;
    var names := Pairs(x.tools, Pairs(x.actions, x.agents));
    var rest := Pairs(RoleSets(b.rules, cap), Pairs(x.risks, Pairs(x.threats, POSTURES)));
    var p, q := PairsInOrder(names, rest, i, j);
    a, c := PairsInOrder(x.tools, Pairs(x.actions, x.agents), p, q);
  }

  lemma UnmatchedToolComesFirst(ws: seq<Call>, i: nat, n: nat)
    requires IsEnumeration(NamedLikeTheDefault(), ROLE_CAP, ws)
    requires i <= n < |ws| && ws[n].tool == UNMATCHED
    ensures ws[i].tool == UNMATCHED
  {
    hide IsTried, IsMark, Enumeration, AreMarks, Ascending, LessString;
    var b := NamedLikeTheDefault();
    var x :| AreAxes(b, x) && ws == Enumeration(b, ROLE_CAP, x);
    var a, c := ToolsComeInOrder(b, ROLE_CAP, x, i, n);
    forall w
      ensures w in x.tools <==> w in [UNMATCHED, "x"]
    {
      TriedToolsOfNamed(w);
    }
    StringsAreStrict();
    UnmatchedBeforeX();
    AscendingIsUnique(LessString, x.tools, [UNMATCHED, "x"]);
  }

  lemma UnmatchedBeforeX()
    ensures Ascending(LessString, [UNMATCHED, "x"]) && UNMATCHED != "x"
  {
    assert UNMATCHED[0] == 'Z';
  }
}
