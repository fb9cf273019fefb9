/** What the cap of `prove.py` on role combinations costs: exactly which lists of role requirements
    admit a policy on which the search accuses a rule that some call reaches, or misses a hole. */
module RoleCap {
  import opened Outcomes
  import opened Glob
  import opened Bundles
  import opened Ordering
  import opened PatternWitnesses
  import opened CallSpace
  import opened PolicyAnalysis
  import opened AnalysisLimits

  function Asked(rules: seq<Rule>): (reqs: seq<seq<string>>)
    ensures |reqs| == |rules| && forall i :: 0 <= i < |reqs| ==> reqs[i] == rules[i].requireRoles
  {
    seq(|rules|, i requires 0 <= i < |rules| => rules[i].requireRoles)
  }

  function Name(i: nat): (id: string)
    ensures |id| == i
  {
    seq(i, _ => 'r')
  }

  /** One rule per requirement, looking at nothing but the roles. */
  function Asking(reqs: seq<seq<string>>): (rules: seq<Rule>)
    ensures |rules| == |reqs|
    ensures forall i :: 0 <= i < |rules| ==> rules[i] == OnToolAndRoles(Name(i), ALLOW, ["*"], reqs[i])
  {
    seq(|reqs|, i requires 0 <= i < |reqs| => OnToolAndRoles(Name(i), ALLOW, ["*"], reqs[i]))
  }

  // No combination that is tried holds exactly these roles.
  ghost predicate IsDropped(reqs: seq<seq<string>>, cap: nat, roles: seq<string>) {
    !IsCovered(Asking(reqs), cap, roles)
  }

  // A searchable policy with these requirements, in some order and with distinct ids.
  ghost predicate IsPolicyFor(reqs: seq<seq<string>>, b: Bundle) {
    && Searchable(b)
    && multiset(Asked(b.rules)) == multiset(reqs)
    && (forall j, k :: 0 <= j < k < |b.rules| ==> b.rules[j].id != b.rules[k].id)
  }

  /** The search accuses a rule although some call reaches it. */
  ghost predicate AccusesALiveRule(reqs: seq<seq<string>>, cap: nat, b: Bundle, i: nat) {
    && IsPolicyFor(reqs, b)
    && i < |b.rules| && IsLive(b, b.rules[i].id) && !FiredTried(b, cap, b.rules[i].id)
  }

  /** The search misses a hole although some call is one. */
  ghost predicate HidesAHole(reqs: seq<seq<string>>, cap: nat, b: Bundle, id: string) {
    IsPolicyFor(reqs, b) && HoleExists(b, {}, id) && !HoleTried(b, cap, {}, id)
  }

  // ----- the combinations depend on the requirements alone -------------------------------------------

  ghost predicate AskAlike(rules: seq<Rule>, rules': seq<Rule>) {
    && (forall r :: r in rules ==> exists r' :: r' in rules' && r'.requireRoles == r.requireRoles)
    && (forall r' :: r' in rules' ==> exists r :: r in rules && r.requireRoles == r'.requireRoles)
  }

  lemma SameAllRoles(rules: seq<Rule>, rules': seq<Rule>)
    requires AskAlike(rules, rules')
    ensures AllRoles(rules) == AllRoles(rules')
  {
    hide LessString, Ascending;
    StringsAreStrict();
    AllRolesAscend(rules);
    AllRolesAscend(rules');
    AscendingIsUnique(LessString, AllRoles(rules), AllRoles(rules'));
  }

  lemma SameRoleSets(rules: seq<Rule>, rules': seq<Rule>, cap: nat)
    requires AskAlike(rules, rules')
    ensures RoleSets(rules, cap) == RoleSets(rules', cap)
  {
    hide LessString, LessTuple, Ascending, RoleCombos, AllRoles;
    SameAllRoles(rules, rules');
    CombosAreSorted(rules);
    CombosAreSorted(rules');
    TuplesAreStrict();
    forall x
      ensures x in RoleCombos(rules) <==> x in RoleCombos(rules')
    {
    }
    AscendingIsUnique(LessTuple, RoleCombos(rules), RoleCombos(rules'));
  }

  lemma SameRequirements(reqs: seq<seq<string>>, rules: seq<Rule>)
    requires multiset(Asked(rules)) == multiset(reqs)
    ensures AskAlike(rules, Asking(reqs))
    ensures forall r :: r in rules ==> r.requireRoles in reqs
  {
    forall r | r in rules
      ensures r.requireRoles in reqs
      ensures exists r' :: r' in Asking(reqs) && r'.requireRoles == r.requireRoles
    {
      var i :| 0 <= i < |rules| && rules[i] == r;
      assert Asked(rules)[i] in multiset(Asked(rules));
      assert Asked(rules)[i] in multiset(reqs);
      var j :| 0 <= j < |reqs| && reqs[j] == r.requireRoles;
      assert Asking(reqs)[j] in Asking(reqs);
    }
    forall r' | r' in Asking(reqs)
      ensures exists r :: r in rules && r.requireRoles == r'.requireRoles
    {
      var j :| 0 <= j < |reqs| && Asking(reqs)[j] == r';
      assert reqs[j] in multiset(reqs);
      assert reqs[j] in multiset(Asked(rules));
      var i :| 0 <= i < |rules| && Asked(rules)[i] == reqs[j];
      assert rules[i] in rules;
    }
  }

  // ----- nothing dropped -----------------------------------------------------------------------------

  lemma NothingDroppedIsCovered(reqs: seq<seq<string>>, cap: nat, b: Bundle)
    requires IsPolicyFor(reqs, b) && forall r :: r in reqs ==> !IsDropped(reqs, cap, r)
    ensures RolesCovered(b.rules, cap)
  {
    hide Searchable, RoleSets, AskAlike;
    SameRequirements(reqs, b.rules);
    SameRoleSets(b.rules, Asking(reqs), cap);
    forall r | r in b.rules
      ensures IsCovered(b.rules, cap, r.requireRoles)
    {
      assert !IsDropped(reqs, cap, r.requireRoles);
    }
  }

  lemma NothingDroppedIsExact(reqs: seq<seq<string>>, cap: nat, b: Bundle)
    requires cap > 0 && forall r :: r in reqs ==> !IsDropped(reqs, cap, r)
    ensures forall i :: !AccusesALiveRule(reqs, cap, b, i)
    ensures forall id :: !HidesAHole(reqs, cap, b, id)
  {
    hide Searchable, FiredTried, HoleTried, IsLive, HoleExists, RolesCovered, IsDropped;
    if IsPolicyFor(reqs, b) {
      NothingDroppedIsCovered(reqs, cap, b);
      forall id
        ensures FiredTried(b, cap, id) <==> IsLive(b, id)
        ensures HoleTried(b, cap, {}, id) <==> HoleExists(b, {}, id)
      {
        FiringIsExact(b, cap, id);
        HolesAreExact(b, cap, {}, id);
      }
    }
  }

  // ----- something dropped ---------------------------------------------------------------------------

  // The requirements that a holder of the roles meets, or those that the holder does not, in order.
  function Those(reqs: seq<seq<string>>, roles: seq<string>, met: bool): (r: seq<seq<string>>)
    ensures forall x :: x in r <==> x in reqs && RolesMatch(x, roles) == met
  {
    if |reqs| == 0 then []
    else
      var rest := Those(reqs[1..], roles, met);
      if RolesMatch(reqs[0], roles) == met then [reqs[0]] + rest else rest
  }

  lemma ThoseUnfold(first: seq<string>, rest: seq<seq<string>>, roles: seq<string>, met: bool)
    ensures multiset(Those([first] + rest, roles, met))
         == multiset(Those(rest, roles, met)) + if RolesMatch(first, roles) == met then multiset{first} else multiset{}
  {
    hide RolesMatch;
    var all := [first] + rest;
    assert all[0] == first && all[1..] == rest;
  }

  lemma {:induction false} EachIsMetOrNot(reqs: seq<seq<string>>, roles: seq<string>)
    ensures multiset(Those(reqs, roles, false)) + multiset(Those(reqs, roles, true)) == multiset(reqs)
  {
    hide RolesMatch, Those;
    if |reqs| == 0 {
      NoneToMeet(roles);
    } else {
      var first, rest := reqs[0], reqs[1..];
      assert reqs == [first] + rest;
      EachIsMetOrNot(rest, roles);
      ThoseUnfold(first, rest, roles, true);
      ThoseUnfold(first, rest, roles, false);
      assert multiset(reqs) == multiset{first} + multiset(rest);
    }
  }

  lemma NoneToMeet(roles: seq<string>)
    ensures Those([], roles, true) == Those([], roles, false) == []
  {
  }

  // The requirements that a holder of the m-th one's roles does not meet are those before the m-th.
  ghost predicate SplitsAt(order: seq<seq<string>>, m: nat): (r: bool)
    ensures r ==> m < |order|
  {
    && m < |order|
    && forall i :: 0 <= i < |order| ==> (RolesMatch(order[i], order[m]) <==> i >= m)
  }

  /** First every requirement that a holder of these roles does not meet, then these roles themselves. */
  lemma PutFirst(reqs: seq<seq<string>>, roles: seq<string>) returns (order: seq<seq<string>>, m: nat)
    requires roles in reqs
    ensures multiset(order) == multiset(reqs)
    ensures SplitsAt(order, m) && order[m] == roles
  {
    hide RolesMatch, Those, SplitsAt;
    var outside, inside := Those(reqs, roles, false), Those(reqs, roles, true);
    HoldsItself(roles);
    assert roles in inside;
    var j :| 0 <= j < |inside| && inside[j] == roles;
    var rest := inside[..j] + inside[j + 1..];
    m := |outside|;
    order := outside + [roles] + rest;
    EachIsMetOrNot(reqs, roles);
    assert inside == inside[..j] + [roles] + inside[j + 1..];
    assert multiset(order) == multiset(outside) + multiset(inside);
    forall x | x in rest
      ensures RolesMatch(x, roles)
    {
      assert x in inside;
    }
    SplitOrder(outside, roles, rest);
  }

  lemma SplitOrder(outside: seq<seq<string>>, roles: seq<string>, rest: seq<seq<string>>)
    requires RolesMatch(roles, roles)
    requires forall x :: x in outside ==> !RolesMatch(x, roles)
    requires forall x :: x in rest ==> RolesMatch(x, roles)
    ensures SplitsAt(outside + [roles] + rest, |outside|)
  {
    hide RolesMatch;
  }

  lemma HoldsItself(roles: seq<string>)
    ensures RolesMatch(roles, roles)
  {
  }

  function RolesOnly(order: seq<seq<string>>): Bundle {
    PolicyOf("deny", Asking(order))
  }

  lemma RolesOnlyMatches(order: seq<seq<string>>, i: nat, c: Call)
    requires i < |order|
    ensures RuleMatches(RolesOnly(order).rules[i], c, c.reversibility) <==> RolesMatch(order[i], c.roles)
  {
    hide RuleMatches, AnyGlob, RolesMatch;
    StarIsAny(c.tool);
    MatchesOnToolAndRoles(RolesOnly(order).rules[i], c);
  }

  lemma RolesOnlyReaches(order: seq<seq<string>>, m: nat, c: Call)
    requires m < |order|
    ensures Reached(RolesOnly(order), c) == m
       <==> RolesMatch(order[m], c.roles) && forall i :: 0 <= i < m ==> !RolesMatch(order[i], c.roles)
  {
    hide RuleMatches, RolesMatch, FirstMatch;
    var b := RolesOnly(order);
    forall i | 0 <= i < |order|
      ensures RuleMatches(b.rules[i], c, c.reversibility) <==> RolesMatch(order[i], c.roles)
    {
      RolesOnlyMatches(order, i, c);
    }
    if RolesMatch(order[m], c.roles) && forall i :: 0 <= i < m ==> !RolesMatch(order[i], c.roles) {
      FirstMatchIs(b.rules, c, c.reversibility, m);
    }
  }

  lemma RolesOnlyIsSearchable(order: seq<seq<string>>)
    ensures Searchable(RolesOnly(order))
  {
    hide IsSimple, Filled, Covers, FnMatchCase;
    StarIsSimple();
    forall f: Field, p | p in Patterns(RolesOnly(order).rules, f)
      ensures p == "*"
    {
    }
  }

  /** A tried combination that reaches the rule holds exactly the roles the rule asks for. */
  lemma ReachingIsCovering(order: seq<seq<string>>, m: nat, cap: nat, w: Call)
    requires SplitsAt(order, m) && InSpace(RolesOnly(order), cap, w) && Reached(RolesOnly(order), w) == m
    ensures IsCovered(Asking(order), cap, order[m])
  {
    hide IsTried, IsMark, Reached, RoleSets, RoleCombos, AllRoles;
    var rules, roles := Asking(order), order[m];
    RolesOnlyReaches(order, m, w);
    assert w.roles in RoleCombos(rules) by { TriedIsCombo(rules, cap, w.roles); }
    CombosAreSorted(rules);
    forall x | x in w.roles
      ensures x in roles
    {
      if w.roles == AllRoles(rules) {
        AllMeetsEach(order, w.roles);
        var r :| r in rules && x in r.requireRoles;
        var i :| 0 <= i < |rules| && rules[i] == r;
        assert RolesMatch(order[i], roles);
      } else {
        var r :| r in rules && w.roles == Requirement(r);
        RequirementIsMet(r);
        var i :| 0 <= i < |rules| && rules[i] == r;
        assert RolesMatch(order[i], w.roles);
        assert RolesMatch(order[i], roles);
      }
    }
    assert SameRoles(w.roles, roles);
  }

  lemma TriedIsCombo(rules: seq<Rule>, cap: nat, roles: seq<string>)
    requires roles in RoleSets(rules, cap)
    ensures roles in RoleCombos(rules)
  {
    hide RoleCombos;
  }

  lemma AllMeetsEach(order: seq<seq<string>>, all: seq<string>)
    requires all == AllRoles(Asking(order))
    ensures forall i :: 0 <= i < |order| ==> RolesMatch(order[i], all)
  {
    hide AllRoles;
    forall i, x | 0 <= i < |order| && x in order[i]
      ensures x in all
    {
      assert Asking(order)[i] in Asking(order) && x in Asking(order)[i].requireRoles;
    }
  }

  lemma OneIsLive(order: seq<seq<string>>, m: nat)
    requires SplitsAt(order, m)
    ensures IsLive(RolesOnly(order), Name(m)) && HoleExists(RolesOnly(order), {}, Name(m))
  {
    hide RolesMatch, Reached;
    var b := RolesOnly(order);
    var c := Call("x", "write", "agent", order[m], 0, 0, "unknown");
    RolesOnlyReaches(order, m, c);
    assert "unknown" == POSTURES[4];
    assert IsCall(c) && Fires(b, c, Name(m)) && HoleAt(b, {}, c) == Some(Name(m));
  }

  lemma AndIsMissed(order: seq<seq<string>>, m: nat, cap: nat)
    requires SplitsAt(order, m) && !IsCovered(Asking(order), cap, order[m])
    ensures !FiredTried(RolesOnly(order), cap, Name(m)) && !HoleTried(RolesOnly(order), cap, {}, Name(m))
  {
    hide InSpace, Reached, IsCovered, SplitsAt;
    var b := RolesOnly(order);
    forall w | InSpace(b, cap, w)
      ensures !Fires(b, w, Name(m)) && HoleAt(b, {}, w) != Some(Name(m))
    {
      if Reached(b, w) == m {
        ReachingIsCovering(order, m, cap, w);
      }
      assert forall i :: 0 <= i < |b.rules| ==> b.rules[i].id == Name(i);
      assert forall i :: 0 <= i < |b.rules| && i != m ==> |Name(i)| != |Name(m)|;
    }
  }

  lemma DroppedInAnyOrder(reqs: seq<seq<string>>, order: seq<seq<string>>, cap: nat, roles: seq<string>)
    requires multiset(order) == multiset(reqs)
    ensures IsDropped(reqs, cap, roles) <==> !IsCovered(Asking(order), cap, roles)
  {
    hide RoleSets, AskAlike;
    assert Asked(Asking(order)) == order;
    SameRequirements(reqs, Asking(order));
    SameRoleSets(Asking(order), Asking(reqs), cap);
  }

  lemma NamesDiffer(rules: seq<Rule>)
    requires forall i :: 0 <= i < |rules| ==> rules[i].id == Name(i)
    ensures forall j, k :: 0 <= j < k < |rules| ==> rules[j].id != rules[k].id
  {
    forall j, k | 0 <= j < k < |rules|
      ensures rules[j].id != rules[k].id
    {
      assert |Name(j)| != |Name(k)|;
    }
  }

  lemma DroppedIsMissed(reqs: seq<seq<string>>, cap: nat, roles: seq<string>) returns (b: Bundle, m: nat)
    requires roles in reqs && IsDropped(reqs, cap, roles)
    ensures AccusesALiveRule(reqs, cap, b, m) && HidesAHole(reqs, cap, b, Name(m))
  {
    hide SplitsAt, IsLive, FiredTried, HoleExists, HoleTried, Searchable, IsDropped, IsCovered;
    var order;
    order, m := PutFirst(reqs, roles);
    b := RolesOnly(order);
    assert Asked(b.rules) == order;
    RolesOnlyIsSearchable(order);
    DroppedInAnyOrder(reqs, order, cap, roles);
    OneIsLive(order, m);
    AndIsMissed(order, m, cap);
    NamesDiffer(b.rules);
  }

  /** Whatever the cap: some policy with these role requirements has a live rule that the search accuses,
      exactly when one of the requirements, taken as a set, is left out of the combinations tried. */
  lemma CapAccusesExactly(reqs: seq<seq<string>>, cap: nat)
    requires cap > 0
    ensures (exists b, i :: AccusesALiveRule(reqs, cap, b, i)) <==> exists r :: r in reqs && IsDropped(reqs, cap, r)
  {
    hide AccusesALiveRule, HidesAHole, IsDropped;
    if r :| r in reqs && IsDropped(reqs, cap, r) {
      var b, i := DroppedIsMissed(reqs, cap, r);
    } else {
      forall b, i
        ensures !AccusesALiveRule(reqs, cap, b, i)
      {
        NothingDroppedIsExact(reqs, cap, b);
      }
    }
  }

  /** And under the same condition some policy with them has a hole that the search misses: irreversible or
      unclassified work is allowed with no human in the path, and the report, which calls itself complete,
      does not say so. */
  lemma CapHidesExactly(reqs: seq<seq<string>>, cap: nat)
    requires cap > 0
    ensures (exists b, id :: HidesAHole(reqs, cap, b, id)) <==> exists r :: r in reqs && IsDropped(reqs, cap, r)
  {
    hide AccusesALiveRule, HidesAHole, IsDropped;
    if r :| r in reqs && IsDropped(reqs, cap, r) {
      var b, i := DroppedIsMissed(reqs, cap, r);
    } else {
      forall b, id
        ensures !HidesAHole(reqs, cap, b, id)
      {
        NothingDroppedIsExact(reqs, cap, b);
      }
    }
  }
}
