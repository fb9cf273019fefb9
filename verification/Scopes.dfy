/** The capability model of `authority/scope.py`: what a grant allows and when one grant is an
    attenuation of another. */
module Scopes {
  import opened Outcomes
  import opened Floats
  import opened Postures

  const WILDCARD := "*"

  // A constraint value. Python counts a bool as an int when a child states it, but not when a parent
  // does, so flags are kept apart from numbers.
  datatype Cap = Number(value: Num) | Flag(b: bool) | Other(text: string)

  datatype Scope = Scope(
    tools: set<string>, actions: set<string>, maxRisk: int, caps: map<string, Cap>, floor: Posture)

  // ----- capability checks -------------------------------------------------------------------

  predicate TokenAllowed(tokens: set<string>, token: string) {
    WILDCARD in tokens || token in tokens
  }

  predicate Permits(s: Scope, tool: string, action: string, risk: int) {
    TokenAllowed(s.tools, tool) && TokenAllowed(s.actions, action) && 0 <= risk <= s.maxRisk
  }

  predicate PermitsPosture(s: Scope, kind: Posture) {
    s.floor.Unknown? || Rank(kind) >= Rank(s.floor)
  }

  predicate TokensContained(parent: set<string>, child: set<string>) {
    WILDCARD in parent || (WILDCARD !in child && child <= parent)
  }

  predicate FloorContained(parent: Posture, child: Posture) {
    parent.Unknown? || (!child.Unknown? && Rank(child) >= Rank(parent))
  }

  function AsNumber(c: Cap): Option<Num> {
    match c
    case Number(v) => Some(v)
    case Flag(b) => Some(Fin(if b then 1.0 else 0.0))
    case Other(_) => None
  }

  // A child's value for a numerically capped key must itself be numeric and must not compare larger.
  predicate Tightens(cap: Num, value: Cap) {
    AsNumber(value).Some? && !Lt(cap, AsNumber(value).value)
  }

  predicate CapsContained(parent: map<string, Cap>, child: map<string, Cap>) {
    forall k :: k in parent && parent[k].Number? && k in child ==> Tightens(parent[k].value, child[k])
  }

  predicate Contains(parent: Scope, child: Scope) {
    && TokensContained(parent.tools, child.tools)
    && TokensContained(parent.actions, child.actions)
    && child.maxRisk <= parent.maxRisk
    && FloorContained(parent.floor, child.floor)
    && CapsContained(parent.caps, child.caps)
  }

  // ----- what containment means --------------------------------------------------------------

  function TotalLength(tokens: seq<string>): nat {
    if |tokens| == 0 then 0 else |tokens[0]| + TotalLength(tokens[1..])
  }

  lemma {:induction false} LongTokenIsNew(tokens: seq<string>, token: string)
    requires |token| > TotalLength(tokens)
    ensures token !in tokens
  {
    if |tokens| > 0 {
      LongTokenIsNew(tokens[1..], token);
    }
  }

  lemma {:induction false} Listed(tokens: set<string>) returns (list: seq<string>)
    ensures forall t :: t in list <==> t in tokens
  {
    list := [];
    if tokens != {} {
      var t :| t in tokens;
      list := Listed(tokens - {t});
      list := [t] + list;
    }
  }

  /** The syntactic token test is exactly inclusion of the tokens allowed. */
  lemma TokensContainedIsInclusion(parent: set<string>, child: set<string>)
    ensures TokensContained(parent, child)
       <==> (forall token: string :: TokenAllowed(child, token) ==> TokenAllowed(parent, token))
  {
    if !TokensContained(parent, child) {
      if WILDCARD in child {
        var list := Listed(parent);
        var token := seq(TotalLength(list) + 1, _ => 'x');
        LongTokenIsNew(list, token);
        assert TokenAllowed(child, token) && !TokenAllowed(parent, token);
      } else {
        var token :| token in child && token !in parent;
        assert TokenAllowed(child, token) && !TokenAllowed(parent, token);
      }
    }
  }

  lemma PermitsSpelledOut(s: Scope, tool: string, action: string, risk: int, kind: Posture)
    ensures Permits(s, tool, action, risk) <==>
      ("*" in s.tools || tool in s.tools) && ("*" in s.actions || action in s.actions) && 0 <= risk <= s.maxRisk
    ensures PermitsPosture(s, kind) <==> s.floor == Unknown || Rank(kind) >= Rank(s.floor)
  {
  }

  /** Containment of scopes that permit something at all, by what it means: whatever the child permits the
      parent permits, every posture the child accepts the parent accepts, and no value that the child states
      for a number of the parent's is beyond it. */
  lemma ContainsExactly(parent: Scope, child: Scope)
    requires child.tools != {} && child.actions != {} && child.maxRisk >= 0
    ensures Contains(parent, child) <==>
      && (forall tool, action, risk :: Permits(child, tool, action, risk) ==> Permits(parent, tool, action, risk))
      && (forall kind :: PermitsPosture(child, kind) ==> PermitsPosture(parent, kind))
      && (forall k :: k in parent.caps && parent.caps[k].Number? && k in child.caps ==>
            match child.caps[k]
            case Number(v) => !Lt(parent.caps[k].value, v)
            case Flag(f) => !Lt(parent.caps[k].value, Fin(if f then 1.0 else 0.0))
            case Other(_) => false)
  {
    hide TokensContained;
    FloorContainedExactly(parent, child);
    TokensContainedIsInclusion(parent.tools, child.tools);
    TokensContainedIsInclusion(parent.actions, child.actions);
    var tool := SomeToken(child.tools);
    var action := SomeToken(child.actions);
    if forall tool, action, risk :: Permits(child, tool, action, risk) ==> Permits(parent, tool, action, risk) {
      assert Permits(child, tool, action, child.maxRisk);
      forall t | TokenAllowed(child.tools, t)
        ensures TokenAllowed(parent.tools, t)
      {
        assert Permits(child, t, action, 0);
      }
      forall t | TokenAllowed(child.actions, t)
        ensures TokenAllowed(parent.actions, t)
      {
        assert Permits(child, tool, t, 0);
      }
    }
  }

  lemma SomeToken(tokens: set<string>) returns (token: string)
    requires tokens != {}
    ensures TokenAllowed(tokens, token)
  {
    token :| token in tokens;
  }

  lemma FloorContainedExactly(parent: Scope, child: Scope)
    ensures FloorContained(parent.floor, child.floor)
       <==> forall kind :: PermitsPosture(child, kind) ==> PermitsPosture(parent, kind)
  {
    if !FloorContained(parent.floor, child.floor) {
      assert PermitsPosture(child, child.floor) && !PermitsPosture(parent, child.floor);
    }
  }

  // ----- chains ------------------------------------------------------------------------------

  // A chain runs from the leaf grant up to the root grant.
  ghost predicate Attenuates(chain: seq<Scope>) {
    forall i :: 0 <= i < |chain| - 1 ==> Contains(chain[i + 1], chain[i])
  }

  /** Whatever the leaf permits, every ancestor permits: no chain of grants escalates. */
  lemma {:induction false} LeafBoundedByAncestors(chain: seq<Scope>, j: nat, tool: string, action: string, risk: int,
        kind: Posture)
    requires Attenuates(chain) && j < |chain|
    ensures Permits(chain[0], tool, action, risk) ==> Permits(chain[j], tool, action, risk)
    ensures PermitsPosture(chain[0], kind) ==> PermitsPosture(chain[j], kind)
    ensures FloorContained(chain[j].floor, chain[0].floor)
  {
    if j > 0 {
      LeafBoundedByAncestors(chain, j - 1, tool, action, risk, kind);
      assert Contains(chain[j - 1 + 1], chain[j - 1]);
    }
  }

  // ----- effective caps and floor --------------------------------------------------------------

  predicate States(s: Scope, k: string) {
    k in s.caps && s.caps[k].Number?
  }

  // The first scope of the chain, from the leaf, that caps the key.
  predicate StatesFirst(chain: seq<Scope>, i: int, k: string) {
    0 <= i < |chain| && States(chain[i], k) && forall j :: 0 <= j < i ==> !States(chain[j], k)
  }

  /** A cap that the chain states for the key, with none below it; but no number once the first cap stated
      is none. */
  ghost predicate IsEffective(chain: seq<Scope>, k: string, cap: Num) {
    && (exists i :: 0 <= i < |chain| && States(chain[i], k) && chain[i].caps[k].value == cap)
    && (forall i :: 0 <= i < |chain| && States(chain[i], k) ==> !Lt(chain[i].caps[k].value, cap))
    && (forall i :: StatesFirst(chain, i, k) ==> (cap.NaN? <==> chain[i].caps[k].value.NaN?))
  }

  ghost predicate AreEffectiveCaps(chain: seq<Scope>, caps: map<string, Num>) {
    && (forall k :: k in caps <==> exists i :: 0 <= i < |chain| && States(chain[i], k))
    && (forall k :: k in caps ==> IsEffective(chain, k, caps[k]))
  }

  lemma {:induction false} SomeStatesFirst(chain: seq<Scope>, n: nat, k: string) returns (i: nat)
    requires n < |chain| && States(chain[n], k)
    ensures i <= n && StatesFirst(chain, i, k)
  {
    i := n;
    if j: nat :| j < n && States(chain[j], k) {
      i := SomeStatesFirst(chain, j, k);
    }
  }

  lemma OneEffectiveCap(chain: seq<Scope>, k: string, a: Num, b: Num)
    requires IsEffective(chain, k, a) && IsEffective(chain, k, b)
    ensures a == b
  {
    var n: nat :| n < |chain| && States(chain[n], k) && chain[n].caps[k].value == a;
    var i := SomeStatesFirst(chain, n, k);
    assert a.NaN? <==> b.NaN?;
    assert !Lt(a, b) && !Lt(b, a);
  }

  lemma EffectiveCapsAreUnique(chain: seq<Scope>, a: map<string, Num>, b: map<string, Num>)
    requires AreEffectiveCaps(chain, a) && AreEffectiveCaps(chain, b)
    ensures a == b
  {
    hide IsEffective;
    assert a.Keys == b.Keys;
    forall k | k in a
      ensures a[k] == b[k]
    {
      OneEffectiveCap(chain, k, a[k], b[k]);
    }
  }

  // What the loop holds for one key after the first n scopes.
  function Folded(chain: seq<Scope>, n: nat, k: string): (cap: Option<Num>)
    requires n <= |chain|
  {
    if n == 0 then None
    else
      var before := Folded(chain, n - 1, k);
      if !States(chain[n - 1], k) then before
      else
        var v := chain[n - 1].caps[k].value;
        Some(Min(if before.Some? then before.value else v, v))
  }

  lemma {:induction false} FoldedIsEffective(chain: seq<Scope>, n: nat, k: string)
    requires n <= |chain|
    ensures Folded(chain, n, k).Some? <==> exists i :: 0 <= i < n && States(chain[i], k)
    ensures Folded(chain, n, k).Some? ==> IsEffective(chain[..n], k, Folded(chain, n, k).value)
  {
    if n > 0 {
      FoldedIsEffective(chain, n - 1, k);
      FoldOneMore(chain, n, k);
    }
  }

  lemma FoldOneMore(chain: seq<Scope>, n: nat, k: string)
    requires 0 < n <= |chain|
    requires Folded(chain, n - 1, k).Some? <==> exists i :: 0 <= i < n - 1 && States(chain[i], k)
    requires Folded(chain, n - 1, k).Some? ==> IsEffective(chain[..n - 1], k, Folded(chain, n - 1, k).value)
    ensures Folded(chain, n, k).Some? ==> IsEffective(chain[..n], k, Folded(chain, n, k).value)
  {
    var shorter, longer := chain[..n - 1], chain[..n];
    assert forall i :: 0 <= i < n - 1 ==> shorter[i] == longer[i];
    assert forall i :: 0 <= i < n - 1 ==> (StatesFirst(shorter, i, k) <==> StatesFirst(longer, i, k));
  }

  method EffectiveConstraints(chain: seq<Scope>) returns (effective: map<string, Num>)
    ensures AreEffectiveCaps(chain, effective)
  {
    hide Folded;
    effective := map[];
    FoldedNothing(chain);
    for i := 0 to |chain|
      invariant forall k :: Folded(chain, i, k) == if k in effective then Some(effective[k]) else None
    {
      var s := chain[i];
      var before := effective;
      var keys := s.caps.Keys;
      while keys != {}
        invariant keys <= s.caps.Keys
        invariant forall k ::
          Folded(chain, if k in s.caps && k !in keys then i + 1 else i, k)
          == if k in effective then Some(effective[k]) else None
        decreases |keys|
      {
        var k :| k in keys;
        keys := keys - {k};
        FoldedStep(chain, i, k);
        if s.caps[k].Number? {
          var v := s.caps[k].value;
          effective := effective[k := Min(if k in effective then effective[k] else v, v)];
        }
      }
      forall k | k !in s.caps
        ensures Folded(chain, i + 1, k) == Folded(chain, i, k)
      {
        FoldedStep(chain, i, k);
      }
    }
    assert chain[..|chain|] == chain;
    forall k
      ensures k in effective <==> exists i :: 0 <= i < |chain| && States(chain[i], k)
      ensures k in effective ==> IsEffective(chain, k, effective[k])
    {
      FoldedIsEffective(chain, |chain|, k);
    }
  }

  lemma FoldedNothing(chain: seq<Scope>)
    ensures forall k :: Folded(chain, 0, k) == None
  {
  }

  lemma FoldedStep(chain: seq<Scope>, i: nat, k: string)
    requires i < |chain|
    ensures var before := Folded(chain, i, k);
            Folded(chain, i + 1, k) ==
              if !States(chain[i], k) then before
              else Some(Min(if before.Some? then before.value else chain[i].caps[k].value, chain[i].caps[k].value))
  {
  }

  // ----- what an effective cap is worth ----------------------------------------------------------

  /** Whatever goes beyond some cap of the chain goes beyond the effective one. */
  ghost predicate Binds(chain: seq<Scope>, k: string, cap: Num) {
    forall i, v :: 0 <= i < |chain| && States(chain[i], k) && Lt(chain[i].caps[k].value, v) ==> Lt(cap, v)
  }

  // A cap that some value exceeds.
  predicate CanBeExceeded(cap: Num) {
    !cap.NaN? && !cap.PosInf?
  }

  lemma NoNumberDoesNotBind(chain: seq<Scope>, k: string, i: nat)
    requires i < |chain| && States(chain[i], k) && CanBeExceeded(chain[i].caps[k].value)
    ensures !Binds(chain, k, NaN)
  {
    assert Lt(chain[i].caps[k].value, PosInf) && !Lt(NaN, PosInf);
  }

  lemma NumberBinds(chain: seq<Scope>, k: string, cap: Num)
    requires IsEffective(chain, k, cap) && !cap.NaN?
    ensures Binds(chain, k, cap)
  {
    hide Lt;
    forall i, v | 0 <= i < |chain| && States(chain[i], k) && Lt(chain[i].caps[k].value, v)
      ensures Lt(cap, v)
    {
      NumbersChain(cap, chain[i].caps[k].value, v);
    }
  }

  /** The effective cap binds for every cap of the chain exactly when the one nearest the leaf is a
      number, or the chain states nothing that can be exceeded. */
  lemma EffectiveCapBindsExactly(chain: seq<Scope>, first: nat, k: string, cap: Num)
    requires IsEffective(chain, k, cap) && StatesFirst(chain, first, k)
    ensures Binds(chain, k, cap)
       <==> !chain[first].caps[k].value.NaN?
            || forall i :: 0 <= i < |chain| && States(chain[i], k) ==> !CanBeExceeded(chain[i].caps[k].value)
  {
    assert cap.NaN? <==> chain[first].caps[k].value.NaN?;
    if !cap.NaN? {
      NumberBinds(chain, k, cap);
    } else if i: nat :| i < |chain| && States(chain[i], k) && CanBeExceeded(chain[i].caps[k].value) {
      NoNumberDoesNotBind(chain, k, i);
    }
  }

  /** It is at most every cap that the chain states for the key exactly when all of these are numbers. */
  lemma TightestExactly(chain: seq<Scope>, k: string, cap: Num)
    requires IsEffective(chain, k, cap)
    ensures (forall i :: 0 <= i < |chain| && States(chain[i], k) ==> Le(cap, chain[i].caps[k].value))
       <==> (forall i :: 0 <= i < |chain| && States(chain[i], k) ==> !chain[i].caps[k].value.NaN?)
  {
    hide Le, Lt;
    NumbersCompare();
    var n: nat :| n < |chain| && States(chain[n], k) && chain[n].caps[k].value == cap;
  }

  /** A parent that caps an amount at 500 contains a child that caps it at no number, and the effective
      cap of the two lets every amount through. */
  lemma NanCapLetsEverythingThrough(caps: map<string, Num>) returns (parent: Scope, child: Scope)
    ensures parent == Scope({"pay"}, {"write"}, 10, map["max:amount" := Number(Fin(500.0))], Unknown)
    ensures child == parent.(caps := map["max:amount" := Number(NaN)])
    ensures Contains(parent, child)
    ensures AreEffectiveCaps([child, parent], caps) ==>
              "max:amount" in caps && forall v :: !Lt(caps["max:amount"], v)
  {
    parent := Scope({"pay"}, {"write"}, 10, map["max:amount" := Number(Fin(500.0))], Unknown);
    child := parent.(caps := map["max:amount" := Number(NaN)]);
    var chain := [child, parent];
    assert States(chain[0], "max:amount") && StatesFirst(chain, 0, "max:amount");
  }

  function Stricter(floor: Posture, p: Posture): Posture {
    if p.Unknown? then floor else if floor.Unknown? || Rank(p) > Rank(floor) then p else floor
  }

  method EffectiveFloor(chain: seq<Scope>) returns (floor: Posture)
    ensures forall i :: 0 <= i < |chain| ==> Rank(chain[i].floor) <= Rank(floor)
    ensures floor.Unknown? || exists i :: 0 <= i < |chain| && chain[i].floor == floor
    ensures Attenuates(chain) && |chain| > 0 ==> floor == chain[0].floor
  {
    floor := Unknown;
    for i := 0 to |chain|
      invariant forall k :: 0 <= k < i ==> Rank(chain[k].floor) <= Rank(floor)
      invariant floor.Unknown? || exists k :: 0 <= k < i && chain[k].floor == floor
    {
      if chain[i].floor.Unknown? {
        continue;
      }
      floor := Stricter(floor, chain[i].floor);
    }
    if Attenuates(chain) && |chain| > 0 {
      forall i | 0 <= i < |chain|
        ensures Rank(chain[i].floor) <= Rank(chain[0].floor)
      {
        LeafBoundedByAncestors(chain, i, "", "", 0, Unknown);
      }
    }
  }

  // ----- containment is not transitive on caps -------------------------------------------------

  // The middle scope does not carry the cap on: it leaves it out, or restates it as a flag or as no
  // number, and the grandchild then states something looser.
  ghost predicate CapEscapes(top: Scope, middle: Scope, bottom: Scope, k: string) {
    && States(top, k) && k in bottom.caps && !Tightens(top.caps[k].value, bottom.caps[k])
    && (k !in middle.caps || middle.caps[k].Flag? || middle.caps[k] == Number(NaN))
  }

  /** Two hops of containment give containment over both exactly when no cap escapes through the
      middle scope. */
  lemma ContainsTwiceExactly(top: Scope, middle: Scope, bottom: Scope)
    requires Contains(top, middle) && Contains(middle, bottom)
    ensures Contains(top, bottom) <==> !exists k :: CapEscapes(top, middle, bottom, k)
  {
    if !CapsContained(top.caps, bottom.caps) {
      var k :| k in top.caps && top.caps[k].Number? && k in bottom.caps && !Tightens(top.caps[k].value, bottom.caps[k]);
      assert CapEscapes(top, middle, bottom, k);
    }
  }

  lemma ContainsIsNotTransitive() returns (top: Scope, middle: Scope, bottom: Scope)
    ensures Contains(top, middle) && Contains(middle, bottom) && !Contains(top, bottom)
  {
    top := Scope({"pay"}, {"write"}, 10, map["max:amount" := Number(Fin(500.0))], Unknown);
    middle := Scope({"pay"}, {"write"}, 10, map[], Unknown);
    bottom := Scope({"pay"}, {"write"}, 10, map["max:amount" := Number(Fin(9000.0))], Unknown);
    assert "max:amount" in top.caps && top.caps["max:amount"].Number? && "max:amount" in bottom.caps;
  }
}
