/** `analyse` in `prove.py`: rules that nothing reaches, and ways for irreversible work to be allowed
    with no human in the path. The search tries finitely many calls; the results here are about all. */
module PolicyAnalysis {
  import opened Outcomes
  import opened Postures
  import opened Bundles
  import opened PatternWitnesses
  import opened CallSpace

  // ----- what there is to find -------------------------------------------------------------------

  /** The name under which a call is a hole: it is one-way, and allowed by a rule that is not exempt or
      by the default. */
  function HoleAt(b: Bundle, exempt: set<string>, c: Call): Option<string> {
    var k := Reached(b, c);
    if !IsOneWayName(c.reversibility) then None
    else if k < |b.rules| then
      if b.rules[k].effect == ALLOW && b.rules[k].id !in exempt then Some(b.rules[k].id) else None
    else if b.defaultEffect == ALLOW then Some(DEFAULT_RULE)
    else None
  }

  predicate Fires(b: Bundle, c: Call, id: string) {
    Reached(b, c) < |b.rules| && b.rules[Reached(b, c)].id == id
  }

  // Over all calls.

  ghost predicate HoleExists(b: Bundle, exempt: set<string>, id: string) {
    exists c :: IsCall(c) && HoleAt(b, exempt, c) == Some(id)
  }

  ghost predicate IsLive(b: Bundle, id: string) {
    exists c :: IsCall(c) && Fires(b, c, id)
  }

  ghost predicate DefaultIsLive(b: Bundle) {
    exists c :: IsCall(c) && Reached(b, c) == |b.rules|
  }

  // Over the calls that are tried.

  ghost predicate HoleTried(b: Bundle, cap: nat, exempt: set<string>, id: string) {
    exists w :: InSpace(b, cap, w) && HoleAt(b, exempt, w) == Some(id)
  }

  ghost predicate FiredTried(b: Bundle, cap: nat, id: string) {
    exists w :: InSpace(b, cap, w) && Fires(b, w, id)
  }

  ghost predicate DefaultTried(b: Bundle, cap: nat) {
    exists w :: InSpace(b, cap, w) && Reached(b, w) == |b.rules|
  }

  // ----- the search is exact ---------------------------------------------------------------------

  /** A rule id is fired by a tried call exactly when some call at all reaches a rule with that id. */
  lemma FiringIsExact(b: Bundle, cap: nat, id: string)
    requires Searchable(b) && cap > 0 && RolesCovered(b.rules, cap)
    ensures FiredTried(b, cap, id) <==> IsLive(b, id)
  {
    hide InSpace, Searchable, Requirement, RoleSets;
    if FiredTried(b, cap, id) {
      var w :| InSpace(b, cap, w) && Fires(b, w, id);
      TriedCallsAreCalls(b, cap, w);
    }
    if IsLive(b, id) {
      var c :| IsCall(c) && Fires(b, c, id);
      var w := SmallModel(b, cap, c);
    }
  }

  /** A hole is found under a name exactly when some call at all is a hole under that name. */
  lemma HolesAreExact(b: Bundle, cap: nat, exempt: set<string>, id: string)
    requires Searchable(b) && cap > 0 && RolesCovered(b.rules, cap)
    ensures HoleTried(b, cap, exempt, id) <==> HoleExists(b, exempt, id)
  {
    hide InSpace, Searchable, Requirement, RoleSets;
    if HoleTried(b, cap, exempt, id) {
      var w :| InSpace(b, cap, w) && HoleAt(b, exempt, w) == Some(id);
      TriedCallsAreCalls(b, cap, w);
    }
    if HoleExists(b, exempt, id) {
      var c :| IsCall(c) && HoleAt(b, exempt, c) == Some(id);
      var w := SmallModel(b, cap, c);
    }
  }

  lemma FiredOverTriedRoles(b: Bundle, cap: nat, id: string)
    requires Searchable(b) && cap > 0
    ensures FiredTried(b, cap, id)
       <==> exists c :: IsCall(c) && Fires(b, c, id) && c.roles in RoleSets(b.rules, cap)
  {
    hide Searchable, Requirement, RoleSets, IsTried, IsMark;
    if FiredTried(b, cap, id) {
      var w :| InSpace(b, cap, w) && Fires(b, w, id);
      TriedCallsAreCalls(b, cap, w);
    }
    if c :| IsCall(c) && Fires(b, c, id) && c.roles in RoleSets(b.rules, cap) {
      var w := SmallModel(b, cap, c);
    }
  }

  lemma HolesOverTriedRoles(b: Bundle, cap: nat, exempt: set<string>, id: string)
    requires Searchable(b) && cap > 0
    ensures HoleTried(b, cap, exempt, id)
       <==> exists c :: IsCall(c) && HoleAt(b, exempt, c) == Some(id) && c.roles in RoleSets(b.rules, cap)
  {
    hide Searchable, Requirement, RoleSets, IsTried, IsMark;
    if HoleTried(b, cap, exempt, id) {
      var w :| InSpace(b, cap, w) && HoleAt(b, exempt, w) == Some(id);
      TriedCallsAreCalls(b, cap, w);
    }
    if c :| IsCall(c) && HoleAt(b, exempt, c) == Some(id) && c.roles in RoleSets(b.rules, cap) {
      var w := SmallModel(b, cap, c);
    }
  }

  /** Without any bound on the combinations: the search is exact for the calls whose roles are one of the
      combinations tried. */
  lemma ExactOverTriedRoles(b: Bundle, cap: nat, exempt: set<string>, id: string)
    requires Searchable(b) && cap > 0
    ensures FiredTried(b, cap, id)
       <==> exists c :: IsCall(c) && Fires(b, c, id) && c.roles in RoleSets(b.rules, cap)
    ensures HoleTried(b, cap, exempt, id)
       <==> exists c :: IsCall(c) && HoleAt(b, exempt, c) == Some(id) && c.roles in RoleSets(b.rules, cap)
  {
    hide FiredTried, HoleTried, IsCall, Fires, HoleAt, RoleSets, Searchable;
    FiredOverTriedRoles(b, cap, id);
    HolesOverTriedRoles(b, cap, exempt, id);
  }

  /** Whether the default is reached needs no bound on the role combinations. */
  lemma DefaultIsExact(b: Bundle, cap: nat)
    requires Searchable(b) && cap > 0
    ensures DefaultTried(b, cap) <==> DefaultIsLive(b)
  {
    hide InSpace, Searchable, Requirement, RoleSets;
    if DefaultTried(b, cap) {
      var w :| InSpace(b, cap, w) && Reached(b, w) == |b.rules|;
      TriedCallsAreCalls(b, cap, w);
    }
    if DefaultIsLive(b) {
      var c :| IsCall(c) && Reached(b, c) == |b.rules|;
      var w := SmallModel(b, cap, c);
    }
  }

  /** With distinct ids the verdict on an id is a verdict on the rule. */
  lemma UnreachableMeansDead(b: Bundle, cap: nat, i: nat)
    requires Searchable(b) && cap > 0 && RolesCovered(b.rules, cap) && i < |b.rules|
    requires forall j, k :: 0 <= j < k < |b.rules| ==> b.rules[j].id != b.rules[k].id
    ensures !FiredTried(b, cap, b.rules[i].id) <==> forall c :: IsCall(c) ==> Reached(b, c) != i
  {
    hide InSpace, Searchable, RolesCovered;
    FiringIsExact(b, cap, b.rules[i].id);
    if exists c :: IsCall(c) && Reached(b, c) == i {
      var c :| IsCall(c) && Reached(b, c) == i;
      assert Fires(b, c, b.rules[i].id);
    }
    if IsLive(b, b.rules[i].id) {
      var c :| IsCall(c) && Fires(b, c, b.rules[i].id);
      assert Reached(b, c) == i;
    }
  }

  /** What a clean report is worth: when no hole is found, every one-way call that the evaluator allows
      is allowed by a rule that was exempted by name. */
  lemma NoHolesMeansGuarded(b: Bundle, cap: nat, exempt: set<string>, c: Call)
    requires Searchable(b) && cap > 0 && RolesCovered(b.rules, cap)
    requires forall id :: !HoleTried(b, cap, exempt, id)
    requires IsCall(c) && IsOneWayName(c.reversibility)
    ensures Judged(b, c).allowed ==>
              Reached(b, c) < |b.rules| && Judged(b, c).ruleId == b.rules[Reached(b, c)].id && Judged(b, c).ruleId in exempt
  {
    hide Searchable, RolesCovered, RuleMatches, Classified, FirstMatch, HoleTried;
    assert PostureOf(b, c) == c.reversibility;
    if Judged(b, c).allowed {
      var found := HoleAt(b, exempt, c);
      if found.Some? {
        assert HoleExists(b, exempt, found.value);
        HolesAreExact(b, cap, exempt, found.value);
      }
      assert found.None?;
    }
  }

  /** With room for every combination the search is exact, on every policy with fresh fillers; so what
      it misses on such a policy it misses by the cap. */
  lemma RoomMakesExact(b: Bundle, cap: nat, exempt: set<string>, id: string)
    requires Searchable(b) && |RoleCombos(b.rules)| <= cap
    ensures FiredTried(b, cap, id) <==> IsLive(b, id)
    ensures HoleTried(b, cap, exempt, id) <==> HoleExists(b, exempt, id)
    ensures DefaultTried(b, cap) <==> DefaultIsLive(b)
  {
    hide RolesCovered, Searchable, FiredTried, HoleTried, DefaultTried, RoleCombos;
    CombosAreSorted(b.rules);
    assert [] in RoleCombos(b.rules);
    FewCombosAreCovered(b.rules, cap);
    FiringIsExact(b, cap, id);
    HolesAreExact(b, cap, exempt, id);
    DefaultIsExact(b, cap);
  }

  // ----- the search --------------------------------------------------------------------------------

  datatype Hole = Hole(ruleId: string, effect: string, reversibility: string, call: Call, direct: Option<bool>)

  datatype Unreachable = Unreachable(ruleId: string, index: nat, shadowedBy: seq<string>)

  datatype Report = Report(
    unreachable: seq<Unreachable>, holes: map<string, Hole>, defaultReachable: bool,
    checked: nat, complete: bool, incomplete: map<Field, set<string>>)

  // The registry alone would classify the tool as the witness does.
  predicate IsDirect(b: Bundle, w: Call) {
    Classified(b, w.tool) == w.reversibility
  }

  function HoleOf(b: Bundle, w: Call): Hole {
    var k := Reached(b, w);
    if k < |b.rules| then Hole(b.rules[k].id, b.rules[k].effect, w.reversibility, w, Some(IsDirect(b, w)))
    else Hole(DEFAULT_RULE, ALLOW, w.reversibility, w, None)
  }

  predicate ByRule(b: Bundle, w: Call) {
    Reached(b, w) < |b.rules|
  }

  predicate IsDirectHole(b: Bundle, exempt: set<string>, w: Call, id: string) {
    HoleAt(b, exempt, w) == Some(id) && ByRule(b, w) && IsDirect(b, w)
  }

  ghost predicate IsFirst(b: Bundle, exempt: set<string>, ws: seq<Call>, id: string, j: nat) {
    j < |ws| && HoleAt(b, exempt, ws[j]) == Some(id) && forall i :: 0 <= i < j ==> HoleAt(b, exempt, ws[i]) != Some(id)
  }

  /** The call shown for a hole: the first direct one if there is any, otherwise the first. */
  ghost predicate IsShown(b: Bundle, exempt: set<string>, ws: seq<Call>, id: string, j: nat): (shown: bool)
    ensures shown ==> j < |ws|
  {
    && j < |ws|
    && if IsDirectHole(b, exempt, ws[j], id) then forall i :: 0 <= i < j ==> !IsDirectHole(b, exempt, ws[i], id)
       else IsFirst(b, exempt, ws, id, j) && forall i :: 0 <= i < |ws| ==> !IsDirectHole(b, exempt, ws[i], id)
  }

  ghost predicate HoleAmong(b: Bundle, exempt: set<string>, ws: seq<Call>, id: string) {
    exists j :: 0 <= j < |ws| && HoleAt(b, exempt, ws[j]) == Some(id)
  }

  ghost predicate Recorded(b: Bundle, exempt: set<string>, ws: seq<Call>, holes: map<string, Hole>) {
    && (forall id :: id in holes <==> HoleAmong(b, exempt, ws, id))
    && (forall id :: id in holes ==> exists j: nat :: IsShown(b, exempt, ws, id, j) && holes[id] == HoleOf(b, ws[j]))
  }

  /** The default's own entry is kept under a name that a rule can also have, and lacks the key that the
      update of a rule's entry reads. That key is read when the entry under the name is the default's and
      a direct call then makes a hole under a rule of that name. */
  ghost predicate Collides(b: Bundle, exempt: set<string>, ws: seq<Call>) {
    exists i: nat, j: nat :: i < j < |ws| && Collision(b, exempt, ws, i, j)
  }

  ghost predicate Collision(b: Bundle, exempt: set<string>, ws: seq<Call>, i: nat, j: nat)
    requires i < j < |ws|
  {
    IsFirst(b, exempt, ws, DEFAULT_RULE, i) && !ByRule(b, ws[i]) && IsDirectHole(b, exempt, ws[j], DEFAULT_RULE)
  }

  predicate DefaultIsReserved(b: Bundle) {
    forall i :: 0 <= i < |b.rules| ==> b.rules[i].id != DEFAULT_RULE
  }

  lemma ReservedNeverCollides(b: Bundle, exempt: set<string>, ws: seq<Call>)
    requires DefaultIsReserved(b)
    ensures !Collides(b, exempt, ws)
  {
  }

  lemma StaysShown(b: Bundle, exempt: set<string>, ws: seq<Call>, w: Call, id: string, j: nat)
    requires IsShown(b, exempt, ws, id, j)
    requires IsDirectHole(b, exempt, w, id) ==> IsDirectHole(b, exempt, ws[j], id)
    ensures IsShown(b, exempt, ws + [w], id, j) && (ws + [w])[j] == ws[j]
  {
    hide HoleAt, IsDirectHole;
    assert forall i :: 0 <= i < |ws| ==> (ws + [w])[i] == ws[i];
    assert (ws + [w])[|ws|] == w;
  }

  lemma BecomesShown(b: Bundle, exempt: set<string>, ws: seq<Call>, w: Call, id: string)
    requires HoleAt(b, exempt, w) == Some(id)
    requires || (forall i :: 0 <= i < |ws| ==> HoleAt(b, exempt, ws[i]) != Some(id))
             || (IsDirectHole(b, exempt, w, id) && forall i :: 0 <= i < |ws| ==> !IsDirectHole(b, exempt, ws[i], id))
    ensures (ws + [w])[|ws|] == w && IsShown(b, exempt, ws + [w], id, |ws|)
  {
    hide HoleAt, ByRule, IsDirect;
    assert forall i :: 0 <= i < |ws| ==> (ws + [w])[i] == ws[i];
  }

  /** What one more call does to the record, or nothing where the source raises. */
  function Updated(b: Bundle, exempt: set<string>, w: Call, holes: map<string, Hole>): Option<map<string, Hole>> {
    match HoleAt(b, exempt, w)
    case None => Some(holes)
    case Some(id) =>
      if id !in holes then Some(holes[id := HoleOf(b, w)])
      else if ByRule(b, w) && IsDirect(b, w) then
        match holes[id].direct
        case None => None
        case Some(direct) => Some(if direct then holes else holes[id := HoleOf(b, w)])
      else Some(holes)
  }

  lemma ShownHole(b: Bundle, exempt: set<string>, w: Call, id: string)
    requires HoleAt(b, exempt, w) == Some(id)
    ensures HoleOf(b, w).ruleId == id
    ensures HoleOf(b, w).direct == if ByRule(b, w) then Some(IsDirect(b, w)) else None
    ensures !ByRule(b, w) ==> id == DEFAULT_RULE
  {
    hide IsDirect;
  }

  // The recorded entry of one name after one more call.
  lemma EntryAfter(
      b: Bundle, exempt: set<string>, ws: seq<Call>, w: Call, holes: map<string, Hole>, id: string, j: nat)
    requires id in holes && IsShown(b, exempt, ws, id, j) && holes[id] == HoleOf(b, ws[j])
    requires Updated(b, exempt, w, holes).Some?
    ensures var all, r := ws + [w], Updated(b, exempt, w, holes).value;
            id in r && exists k: nat :: IsShown(b, exempt, all, id, k) && r[id] == HoleOf(b, all[k])
  {
    hide HoleAt, IsDirect, HoleOf, ByRule, IsShown;
    ShownIsHole(b, exempt, ws, id, j);
    ShownHole(b, exempt, ws[j], id);
    if IsDirectHole(b, exempt, w, id) && !IsDirectHole(b, exempt, ws[j], id) {
      NoDirectYet(b, exempt, ws, id, j);
      BecomesShown(b, exempt, ws, w, id);
    } else {
      StaysShown(b, exempt, ws, w, id, j);
    }
  }

  lemma ShownIsHole(b: Bundle, exempt: set<string>, ws: seq<Call>, id: string, j: nat)
    requires IsShown(b, exempt, ws, id, j)
    ensures HoleAt(b, exempt, ws[j]) == Some(id)
  {
    hide HoleAt, ByRule, IsDirect;
  }

  lemma NoDirectYet(b: Bundle, exempt: set<string>, ws: seq<Call>, id: string, j: nat)
    requires IsShown(b, exempt, ws, id, j) && !IsDirectHole(b, exempt, ws[j], id)
    ensures IsFirst(b, exempt, ws, id, j) && forall i :: 0 <= i < |ws| ==> !IsDirectHole(b, exempt, ws[i], id)
  {
    hide IsDirectHole, IsFirst;
  }

  lemma HoleAmongMore(b: Bundle, exempt: set<string>, ws: seq<Call>, w: Call, id: string)
    ensures HoleAmong(b, exempt, ws + [w], id) <==> HoleAmong(b, exempt, ws, id) || HoleAt(b, exempt, w) == Some(id)
  {
    hide HoleAt;
    assert (ws + [w])[|ws|] == w && forall i :: 0 <= i < |ws| ==> (ws + [w])[i] == ws[i];
  }

  // The keys and the entry of one name after one more call.
  lemma OneNameAfter(b: Bundle, exempt: set<string>, ws: seq<Call>, w: Call, holes: map<string, Hole>, id: string)
    requires Recorded(b, exempt, ws, holes) && Updated(b, exempt, w, holes).Some?
    ensures var all, r := ws + [w], Updated(b, exempt, w, holes).value;
            && (id in r <==> HoleAmong(b, exempt, all, id))
            && (id in r ==> exists j: nat :: IsShown(b, exempt, all, id, j) && r[id] == HoleOf(b, all[j]))
  {
    hide HoleAt, IsDirect, HoleOf, IsShown, ByRule, HoleAmong;
    HoleAmongMore(b, exempt, ws, w, id);
    assert id in holes <==> HoleAmong(b, exempt, ws, id);
    if id in holes {
      var j: nat :| IsShown(b, exempt, ws, id, j) && holes[id] == HoleOf(b, ws[j]);
      EntryAfter(b, exempt, ws, w, holes, id, j);
    } else if HoleAt(b, exempt, w) == Some(id) {
      NoneSoFar(b, exempt, ws, id);
      BecomesShown(b, exempt, ws, w, id);
    }
  }

  lemma NoneSoFar(b: Bundle, exempt: set<string>, ws: seq<Call>, id: string)
    requires !HoleAmong(b, exempt, ws, id)
    ensures forall i :: 0 <= i < |ws| ==> HoleAt(b, exempt, ws[i]) != Some(id)
  {
    hide HoleAt;
  }

  lemma UpdatedIsRecorded(b: Bundle, exempt: set<string>, ws: seq<Call>, w: Call, holes: map<string, Hole>)
    requires Recorded(b, exempt, ws, holes)
    ensures var updated := Updated(b, exempt, w, holes);
            updated.Some? ==> Recorded(b, exempt, ws + [w], updated.value)
  {
    hide HoleOf, IsShown, HoleAmong, Updated;
    if Updated(b, exempt, w, holes).Some? {
      forall id
        ensures var all, r := ws + [w], Updated(b, exempt, w, holes).value;
                && (id in r <==> HoleAmong(b, exempt, all, id))
                && (id in r ==> exists j: nat :: IsShown(b, exempt, all, id, j) && r[id] == HoleOf(b, all[j]))
      {
        OneNameAfter(b, exempt, ws, w, holes, id);
      }
    }
  }

  /** The update fails exactly when the call completes a collision. */
  lemma UpdateFails(b: Bundle, exempt: set<string>, ws: seq<Call>, w: Call, holes: map<string, Hole>)
    requires Recorded(b, exempt, ws, holes) && !Collides(b, exempt, ws)
    ensures Updated(b, exempt, w, holes).None? <==> Collides(b, exempt, ws + [w])
  {
    hide HoleAt, IsDirect, HoleOf, IsShown, ByRule, IsDirectHole;
    var all := ws + [w];
    assert all[|ws|] == w && forall i :: 0 <= i < |ws| ==> all[i] == ws[i];
    if Updated(b, exempt, w, holes).None? {
      FailureCollides(b, exempt, ws, w, holes);
    }
    if Collides(b, exempt, all) {
      var i: nat, j: nat :| i < j < |all| && Collision(b, exempt, all, i, j);
      NewCollisionIsLast(b, exempt, ws, w, i, j);
      CollisionFails(b, exempt, ws, w, holes, i);
    }
  }

  lemma FailureCollides(b: Bundle, exempt: set<string>, ws: seq<Call>, w: Call, holes: map<string, Hole>)
    requires Recorded(b, exempt, ws, holes) && Updated(b, exempt, w, holes).None?
    ensures Collides(b, exempt, ws + [w])
  {
    hide HoleAt, IsDirect, HoleOf, IsShown, ByRule;
    var id := HoleAt(b, exempt, w).value;
    var j: nat :| IsShown(b, exempt, ws, id, j) && holes[id] == HoleOf(b, ws[j]);
    ShownIsHole(b, exempt, ws, id, j);
    ShownHole(b, exempt, ws[j], id);
    assert IsDirectHole(b, exempt, w, id) && !IsDirectHole(b, exempt, ws[j], id);
    NoDirectYet(b, exempt, ws, id, j);
    FirstInLonger(b, exempt, ws, w, id, j);
    assert Collision(b, exempt, ws + [w], j, |ws|);
  }

  lemma FirstInLonger(b: Bundle, exempt: set<string>, ws: seq<Call>, w: Call, id: string, j: nat)
    requires j < |ws|
    ensures (ws + [w])[j] == ws[j] && (IsFirst(b, exempt, ws + [w], id, j) <==> IsFirst(b, exempt, ws, id, j))
  {
    hide HoleAt;
    assert forall i :: 0 <= i < |ws| ==> (ws + [w])[i] == ws[i];
  }

  lemma NewCollisionIsLast(b: Bundle, exempt: set<string>, ws: seq<Call>, w: Call, i: nat, j: nat)
    requires !Collides(b, exempt, ws) && i < j <= |ws| && Collision(b, exempt, ws + [w], i, j)
    ensures j == |ws| && IsFirst(b, exempt, ws, DEFAULT_RULE, i) && !ByRule(b, ws[i])
    ensures IsDirectHole(b, exempt, w, DEFAULT_RULE)
  {
    hide HoleAt, IsDirectHole, ByRule, IsFirst;
    FirstInLonger(b, exempt, ws, w, DEFAULT_RULE, i);
    assert (ws + [w])[j] == if j < |ws| then ws[j] else w;
    assert j < |ws| ==> Collision(b, exempt, ws, i, j);
  }

  lemma CollisionFails(b: Bundle, exempt: set<string>, ws: seq<Call>, w: Call, holes: map<string, Hole>, i: nat)
    requires Recorded(b, exempt, ws, holes) && !Collides(b, exempt, ws)
    requires IsFirst(b, exempt, ws, DEFAULT_RULE, i) && !ByRule(b, ws[i]) && IsDirectHole(b, exempt, w, DEFAULT_RULE)
    ensures Updated(b, exempt, w, holes).None?
  {
    hide HoleAt, IsDirect, HoleOf, IsShown, ByRule;
    var id := DEFAULT_RULE;
    assert HoleAmong(b, exempt, ws, id);
    var k: nat :| IsShown(b, exempt, ws, id, k) && holes[id] == HoleOf(b, ws[k]);
    ShownIsHole(b, exempt, ws, id, k);
    ShownHole(b, exempt, ws[k], id);
    NoDirectAfter(b, exempt, ws, i, k);
    NoDirectYet(b, exempt, ws, id, k);
    assert k == i;
  }

  lemma NoDirectAfter(b: Bundle, exempt: set<string>, ws: seq<Call>, i: nat, k: nat)
    requires !Collides(b, exempt, ws) && k < |ws|
    requires IsFirst(b, exempt, ws, DEFAULT_RULE, i) && !ByRule(b, ws[i])
    ensures !IsDirectHole(b, exempt, ws[k], DEFAULT_RULE)
  {
    hide HoleAt, IsDirect, ByRule;
    if i < k {
      assert Collision(b, exempt, ws, i, k) <==> IsDirectHole(b, exempt, ws[k], DEFAULT_RULE);
    }
  }

  // ----- the method ------------------------------------------------------------------------------

  datatype Findings = Findings(fired: set<string>, defaultHit: bool, holes: map<string, Hole>)

  datatype KeyError = KeyError(key: string)

  const DIRECTLY_REACHABLE := "directly_reachable"

  /** One pass over the tried calls: which rule each reaches, and which holes that opens; or the error the
      source ends in. */
  method Search(b: Bundle, exempt: set<string>, ws: seq<Call>) returns (r: Result<Findings, KeyError>)
    ensures r.Err? <==> Collides(b, exempt, ws)
    ensures r.Ok? ==>
              && (forall id :: id in r.value.fired <==> exists w :: w in ws && Fires(b, w, id))
              && (r.value.defaultHit <==> exists w :: w in ws && Reached(b, w) == |b.rules|)
              && Recorded(b, exempt, ws, r.value.holes)
  {
    hide HoleAt, IsDirect, FirstMatch, RuleMatches, IsShown, Recorded, Collides, Updated;
    var fired, defaultHit, holes := {}, false, map[];
    NothingRecorded(b, exempt);
    for i := 0 to |ws|
      invariant forall id :: id in fired <==> exists w :: w in ws[..i] && Fires(b, w, id)
      invariant defaultHit <==> exists w :: w in ws[..i] && Reached(b, w) == |b.rules|
      invariant Recorded(b, exempt, ws[..i], holes) && !Collides(b, exempt, ws[..i])
    {
      var w := ws[i];
      assert ws[..i + 1] == ws[..i] + [w];
      assert forall x :: x in ws[..i + 1] <==> x in ws[..i] || x == w;
      var k := 0;
      while k < |b.rules| && !RuleMatches(b.rules[k], w, w.reversibility)
        invariant k <= |b.rules|
        invariant forall j :: 0 <= j < k ==> !RuleMatches(b.rules[j], w, w.reversibility)
      {
        k := k + 1;
      }
      FirstMatchIs(b.rules, w, w.reversibility, k);
      assert Reached(b, w) == k && w in ws[..i + 1];
      assert forall id :: Fires(b, w, id) <==> k < |b.rules| && b.rules[k].id == id;
      if k < |b.rules| {
        fired := fired + {b.rules[k].id};
      } else {
        defaultHit := true;
      }
      UpdateFails(b, exempt, ws[..i], w, holes);
      UpdatedIsRecorded(b, exempt, ws[..i], w, holes);
      var updated := Updated(b, exempt, w, holes);
      if updated.None? {
        CollisionStays(b, exempt, ws, i + 1);
        return Err(KeyError(DIRECTLY_REACHABLE));
      }
      holes := updated.value;
    }
    assert ws[..|ws|] == ws;
    return Ok(Findings(fired, defaultHit, holes));
  }

  lemma NothingRecorded(b: Bundle, exempt: set<string>)
    ensures Recorded(b, exempt, [], map[]) && !Collides(b, exempt, [])
  {
  }

  lemma CollisionStays(b: Bundle, exempt: set<string>, ws: seq<Call>, n: nat)
    requires n <= |ws| && Collides(b, exempt, ws[..n])
    ensures Collides(b, exempt, ws)
  {
    hide HoleAt, ByRule, IsDirect;
    var i: nat, j: nat :| i < j < n && Collision(b, exempt, ws[..n], i, j);
    assert forall k :: 0 <= k < n ==> ws[..n][k] == ws[k];
    assert Collision(b, exempt, ws, i, j);
  }

  // The fields with patterns that are not simple, with exactly those patterns.
  ghost predicate NamesProblems(rules: seq<Rule>, incomplete: map<Field, set<string>>) {
    && (forall f :: f in incomplete <==> exists p :: p in Patterns(rules, f) && !IsSimple(p))
    && (forall f :: f in incomplete ==> incomplete[f] == set p | p in Patterns(rules, f) && !IsSimple(p))
  }

  /** The fields whose patterns the search has no witness for, with those patterns. */
  method FindProblems(rules: seq<Rule>) returns (incomplete: map<Field, set<string>>)
    ensures forall f :: f in incomplete <==> !AllSimple(Patterns(rules, f))
    ensures forall f :: f in incomplete ==> incomplete[f] == set p | p in Patterns(rules, f) && !IsSimple(p)
    ensures NamesProblems(rules, incomplete)
  {
    hide IsSimple, Patterns, IsNameWitness;
    incomplete := map[];
    var fields := [Tools, Actions, Agents];
    for i := 0 to |fields|
      invariant forall f :: f in incomplete <==> f in fields[..i] && !AllSimple(Patterns(rules, f))
      invariant forall f :: f in incomplete ==> incomplete[f] == set p | p in Patterns(rules, f) && !IsSimple(p)
    {
      assert fields[..i + 1] == fields[..i] + [fields[i]];
      assert forall f :: f in fields[..i + 1] <==> f in fields[..i] || f == fields[i];
      var _, problems := GlobWitnesses(Patterns(rules, fields[i]), {});
      NoProblems(Patterns(rules, fields[i]), problems);
      if problems != {} {
        incomplete := incomplete[fields[i] := problems];
      }
    }
    assert fields[..|fields|] == fields;
    forall f: Field
      ensures f in fields
    {
      match f
      case Tools => assert fields[0] == f;
      case Actions => assert fields[1] == f;
      case Agents => assert fields[2] == f;
    }
  }

  lemma NoProblems(patterns: set<string>, problems: set<string>)
    requires problems == set p | p in patterns && !IsSimple(p)
    ensures problems == {} <==> AllSimple(patterns)
  {
    hide IsSimple;
    assert forall p :: p in patterns && !IsSimple(p) ==> p in problems;
  }

  function Ids(rules: seq<Rule>): (ids: seq<string>)
    ensures |ids| == |rules| && forall i :: 0 <= i < |ids| ==> ids[i] == rules[i].id
  {
    seq(|rules|, i requires 0 <= i < |rules| => rules[i].id)
  }

  // The accused rules among the first n, in policy order.
  function Accused(rules: seq<Rule>, fired: set<string>, n: nat): (list: seq<Unreachable>)
    requires n <= |rules|
    ensures forall u :: u in list <==>
              u.index < n && rules[u.index].id !in fired && u == Unreachable(rules[u.index].id, u.index, Ids(rules[..u.index]))
  {
    if n == 0 then []
    else
      var i := n - 1;
      var before := Accused(rules, fired, i);
      if rules[i].id in fired then before else before + [Unreachable(rules[i].id, i, Ids(rules[..i]))]
  }

  /** The report. An id is cleared, a hole reported and the default called reachable on the evidence of
      tried calls; when the policy is searchable, the same holds of all calls. */
  method Analyse(b: Bundle, exempt: set<string>) returns (r: Result<Report, KeyError>)
    ensures exists ws :: IsEnumeration(b, ROLE_CAP, ws) && (r.Err? <==> Collides(b, exempt, ws))
                         && (r.Ok? ==> r.value.checked == |ws|)
    ensures DefaultIsReserved(b) ==> r.Ok?
    ensures r.Ok? ==> IsReport(b, exempt, r.value)
    ensures r.Ok? && Searchable(b) ==> r.value.complete && (r.value.defaultReachable <==> DefaultIsLive(b))
    ensures r.Ok? && Searchable(b) && RolesCovered(b.rules, ROLE_CAP) ==>
              && (forall i :: 0 <= i < |b.rules| ==>
                    (Unreachable(b.rules[i].id, i, Ids(b.rules[..i])) in r.value.unreachable <==> !IsLive(b, b.rules[i].id)))
              && (forall id :: id in r.value.holes <==> HoleExists(b, exempt, id))
  {
    hide InSpace, HoleAt, Fires, Reached, HoleOf, IsShown, AllSimple, IsFresh, RolesCovered, DefaultIsReserved, Patterns;
    hide Collides, IsEnumeration, Recorded, NamesProblems, IsSimple;
    hide DefaultIsLive, IsLive, HoleExists, HoleTried;
    var incomplete := FindProblems(b.rules);
    var complete := incomplete == map[];
    assert complete <==> forall f: Field :: f !in incomplete;
    var ws := Witnesses(b);
    if DefaultIsReserved(b) {
      ReservedNeverCollides(b, exempt, ws);
    }
    var searched := Search(b, exempt, ws);
    if searched.Err? {
      return Err(searched.error);
    }
    var Findings(fired, defaultHit, holes) := searched.value;
    ShownCallsAreTried(b, ROLE_CAP, exempt, ws, holes);
    var unreachable := if complete then Accused(b.rules, fired, |b.rules|) else [];
    var report := Report(unreachable, holes, defaultHit, |ws|, complete, incomplete);
    if Searchable(b) {
      ReportIsExact(b, exempt, report);
    }
    return Ok(report);
  }

  // What a report says, in terms of the tried calls.
  ghost predicate IsReport(b: Bundle, exempt: set<string>, report: Report) {
    && (report.complete <==> forall f: Field :: AllSimple(Patterns(b.rules, f)))
    && (forall u :: u in report.unreachable <==>
          && report.complete && u.index < |b.rules| && !FiredTried(b, ROLE_CAP, b.rules[u.index].id)
          && u == Unreachable(b.rules[u.index].id, u.index, Ids(b.rules[..u.index])))
    && (forall id :: id in report.holes <==> HoleTried(b, ROLE_CAP, exempt, id))
    && (forall id :: id in report.holes ==>
          var h := report.holes[id];
          InSpace(b, ROLE_CAP, h.call) && HoleAt(b, exempt, h.call) == Some(id) && h == HoleOf(b, h.call))
    && (report.defaultReachable <==> DefaultTried(b, ROLE_CAP))
    && NamesProblems(b.rules, report.incomplete)
  }

  lemma ReportIsExact(b: Bundle, exempt: set<string>, report: Report)
    requires IsReport(b, exempt, report) && Searchable(b)
    ensures report.complete && (report.defaultReachable <==> DefaultIsLive(b))
    ensures RolesCovered(b.rules, ROLE_CAP) ==>
              && (forall i :: 0 <= i < |b.rules| ==>
                    (Unreachable(b.rules[i].id, i, Ids(b.rules[..i])) in report.unreachable <==> !IsLive(b, b.rules[i].id)))
              && (forall id :: id in report.holes <==> HoleExists(b, exempt, id))
  {
    hide HoleAt, HoleTried, HoleExists, FiredTried, IsLive, DefaultTried, DefaultIsLive, RolesCovered, Patterns, IsFresh, IsSimple,
         InSpace, NamesProblems, HoleOf;
    DefaultIsExact(b, ROLE_CAP);
    if RolesCovered(b.rules, ROLE_CAP) {
      forall id
        ensures FiredTried(b, ROLE_CAP, id) <==> IsLive(b, id)
        ensures HoleTried(b, ROLE_CAP, exempt, id) <==> HoleExists(b, exempt, id)
      {
        FiringIsExact(b, ROLE_CAP, id);
        HolesAreExact(b, ROLE_CAP, exempt, id);
      }
    }
  }

  /** The holes that the report of a searchable policy with its roles covered names, over all calls and in
      terms of the evaluator's verdicts: the names under which an irreversible or unclassified call is allowed,
      by a rule that is not exempt or by the default. */
  lemma ReportedHolesSpelledOut(b: Bundle, exempt: set<string>, report: Report, id: string)
    requires IsReport(b, exempt, report) && Searchable(b) && RolesCovered(b.rules, ROLE_CAP)
    ensures id in report.holes
       <==> exists c: Call ::
              && c.risk >= 0 && c.threat >= 0 && (c.reversibility == "irreversible" || c.reversibility == "unknown")
              && Judged(b, c).allowed && Judged(b, c).ruleId == id
              && (id !in exempt || forall rule :: rule in b.rules ==> !RuleMatches(rule, c, c.reversibility))
  {
    hide IsReport, HoleAt, Judged, RuleMatches, Searchable, RolesCovered, HoleExists, HoleTried;
    HoleExistsSpelledOut(b, exempt, id);
    ReportedIsTried(b, exempt, report, id);
    HolesAreExact(b, ROLE_CAP, exempt, id);
  }

  lemma ReportedIsTried(b: Bundle, exempt: set<string>, report: Report, id: string)
    requires IsReport(b, exempt, report)
    ensures id in report.holes <==> HoleTried(b, ROLE_CAP, exempt, id)
  {
    hide HoleTried, HoleAt, InSpace, FiredTried, AllSimple, NamesProblems;
  }

  /** And the rules it accuses, ids being distinct: those whose every call an earlier rule takes. */
  lemma AccusedRulesSpelledOut(b: Bundle, exempt: set<string>, report: Report, i: nat)
    requires IsReport(b, exempt, report) && Searchable(b) && RolesCovered(b.rules, ROLE_CAP) && i < |b.rules|
    requires forall j, k :: 0 <= j < k < |b.rules| ==> b.rules[j].id != b.rules[k].id
    ensures (exists u :: u in report.unreachable && u.index == i)
       <==> forall c: Call ::
              && c.risk >= 0 && c.threat >= 0
              && c.reversibility in {"idempotent", "reversible", "compensable", "irreversible", "unknown"}
              && RuleMatches(b.rules[i], c, c.reversibility)
              ==> exists j :: 0 <= j < i && RuleMatches(b.rules[j], c, c.reversibility)
  {
    hide RuleMatches, Searchable, RolesCovered, FiredTried, IsLive, IsReport;
    DeadSpelledOut(b);
    FiringIsExact(b, ROLE_CAP, b.rules[i].id);
    AccusedAtIndex(b, exempt, report, i);
  }

  lemma AccusedAtIndex(b: Bundle, exempt: set<string>, report: Report, i: nat)
    requires IsReport(b, exempt, report) && Searchable(b) && i < |b.rules|
    ensures (exists u :: u in report.unreachable && u.index == i) <==> !FiredTried(b, ROLE_CAP, b.rules[i].id)
  {
    hide HoleAt, HoleTried, FiredTried, IsFresh, Patterns, IsSimple, InSpace, NamesProblems, HoleOf;
    var u := Unreachable(b.rules[i].id, i, Ids(b.rules[..i]));
    assert u.index == i;
    assert u in report.unreachable <==> !FiredTried(b, ROLE_CAP, b.rules[i].id);
  }

  lemma HoleSpelledOut(b: Bundle, exempt: set<string>, c: Call, id: string)
    requires c.reversibility != ""
    ensures HoleAt(b, exempt, c) == Some(id)
       <==> && (c.reversibility == "irreversible" || c.reversibility == "unknown")
            && Judged(b, c).allowed && Judged(b, c).ruleId == id
            && (id !in exempt || forall rule :: rule in b.rules ==> !RuleMatches(rule, c, c.reversibility))
  {
    hide RuleMatches, FirstMatch, Classified;
    var k := Reached(b, c);
    assert PostureOf(b, c) == c.reversibility;
    if k < |b.rules| {
      assert b.rules[k] in b.rules;
    } else {
      forall rule | rule in b.rules
        ensures !RuleMatches(rule, c, c.reversibility)
      {
        var i :| 0 <= i < |b.rules| && b.rules[i] == rule;
      }
    }
  }

  /** A hole under an id: some irreversible or unclassified call that the evaluator allows under it, by a rule
      that is not exempt or by the default. */
  lemma HoleExistsSpelledOut(b: Bundle, exempt: set<string>, id: string)
    ensures HoleExists(b, exempt, id)
       <==> exists c: Call ::
              && c.risk >= 0 && c.threat >= 0 && (c.reversibility == "irreversible" || c.reversibility == "unknown")
              && Judged(b, c).allowed && Judged(b, c).ruleId == id
              && (id !in exempt || forall rule :: rule in b.rules ==> !RuleMatches(rule, c, c.reversibility))
  {
    hide HoleAt, Judged, RuleMatches;
    assert POSTURES[3] == "irreversible" && POSTURES[4] == "unknown";
    forall c: Call | c.reversibility != ""
      ensures HoleAt(b, exempt, c) == Some(id)
         <==> && (c.reversibility == "irreversible" || c.reversibility == "unknown")
              && Judged(b, c).allowed && Judged(b, c).ruleId == id
              && (id !in exempt || forall rule :: rule in b.rules ==> !RuleMatches(rule, c, c.reversibility))
    {
      HoleSpelledOut(b, exempt, c, id);
    }
  }

  /** A dead rule: every call it matches is matched by an earlier one. */
  lemma DeadSpelledOut(b: Bundle)
    requires forall j, k :: 0 <= j < k < |b.rules| ==> b.rules[j].id != b.rules[k].id
    ensures forall i :: 0 <= i < |b.rules| ==>
      (!IsLive(b, b.rules[i].id)
       <==> forall c: Call ::
              && c.risk >= 0 && c.threat >= 0
              && c.reversibility in {"idempotent", "reversible", "compensable", "irreversible", "unknown"}
              && RuleMatches(b.rules[i], c, c.reversibility)
              ==> exists j :: 0 <= j < i && RuleMatches(b.rules[j], c, c.reversibility))
  {
    hide RuleMatches, Reached;
    forall i | 0 <= i < |b.rules|
      ensures !IsLive(b, b.rules[i].id)
         <==> forall c: Call ::
                && c.risk >= 0 && c.threat >= 0
                && c.reversibility in {"idempotent", "reversible", "compensable", "irreversible", "unknown"}
                && RuleMatches(b.rules[i], c, c.reversibility)
                ==> exists j :: 0 <= j < i && RuleMatches(b.rules[j], c, c.reversibility)
    {
      forall c: Call
        ensures Fires(b, c, b.rules[i].id) <==>
          RuleMatches(b.rules[i], c, c.reversibility) && forall j :: 0 <= j < i ==> !RuleMatches(b.rules[j], c, c.reversibility)
      {
        FiresSpelledOut(b, c, i);
      }
      FivePostures();
    }
  }

  lemma FivePostures()
    ensures forall s :: s in POSTURES <==> s in {"idempotent", "reversible", "compensable", "irreversible", "unknown"}
  {
    assert POSTURES[0] == "idempotent" && POSTURES[1] == "reversible" && POSTURES[2] == "compensable"
        && POSTURES[3] == "irreversible" && POSTURES[4] == "unknown";
  }

  lemma FiresSpelledOut(b: Bundle, c: Call, i: nat)
    requires i < |b.rules| && forall j, k :: 0 <= j < k < |b.rules| ==> b.rules[j].id != b.rules[k].id
    ensures Fires(b, c, b.rules[i].id) <==>
      RuleMatches(b.rules[i], c, c.reversibility) && forall j :: 0 <= j < i ==> !RuleMatches(b.rules[j], c, c.reversibility)
  {
    hide RuleMatches, FirstMatch;
    if RuleMatches(b.rules[i], c, c.reversibility) && forall j :: 0 <= j < i ==> !RuleMatches(b.rules[j], c, c.reversibility) {
      FirstMatchIs(b.rules, c, c.reversibility, i);
    }
  }

  lemma ShownCallsAreTried(b: Bundle, cap: nat, exempt: set<string>, ws: seq<Call>, holes: map<string, Hole>)
    requires Recorded(b, exempt, ws, holes)
    requires forall w :: w in ws <==> InSpace(b, cap, w)
    ensures forall id :: id in holes <==> HoleTried(b, cap, exempt, id)
    ensures forall id :: id in holes ==>
              && InSpace(b, cap, holes[id].call) && HoleAt(b, exempt, holes[id].call) == Some(id)
              && holes[id] == HoleOf(b, holes[id].call)
  {
    hide InSpace, HoleAt, IsDirect, Reached;
    forall id | HoleTried(b, cap, exempt, id)
      ensures id in holes
    {
      var w :| InSpace(b, cap, w) && HoleAt(b, exempt, w) == Some(id);
      assert w in ws;
      var j :| 0 <= j < |ws| && ws[j] == w;
    }
    forall id | id in holes
      ensures && InSpace(b, cap, holes[id].call) && HoleAt(b, exempt, holes[id].call) == Some(id)
              && holes[id] == HoleOf(b, holes[id].call)
    {
      var j: nat :| IsShown(b, exempt, ws, id, j) && holes[id] == HoleOf(b, ws[j]);
      assert ws[j] in ws;
    }
  }
}
