/** The engine object of `authority/engine.py`. Its state-changing methods take the steps of
    `GrantStore`; its two walks over the grants are loops over possibly corrupted dictionaries. */
module AuthorityEngine {
  import opened Outcomes
  import opened Floats
  import opened Postures
  import opened Scopes
  import opened GrantStore
  import opened ChainCheck

  datatype ChainError =
    | UnknownAction
    | ActionSignatureInvalid
    | ActorNotRegistered
    | ActorRevoked(id: string)
    | DelegationNotFound
    | TooDeep
    | CycleDetected
    | DelegationRevoked(id: string)
    | IssuerRevoked(id: string)
    | IssuerNotRegistered(id: string)
    | DelegationSignatureInvalid(id: string)
    | RootNotHuman
    | ParentMissing(id: string)
    | WrongIssuer(id: string)
    | Escalation(id: string)

  datatype ChainResult = ChainResult(
    ok: bool, humanRoot: Option<string>, chain: seq<Delegation>, errors: seq<ChainError>,
    caps: map<string, Num>, floor: Posture)

  class Engine {
    const crypto: Crypto
    var principals: map<string, Principal>
    var grants: map<string, Delegation>
    var order: seq<string>
    var actions: map<string, ActionRecord>
    var revocations: map<string, Revocation>

    function Current(): Store
      reads this
    {
      Store(principals, grants, order, actions, revocations)
    }

    constructor (crypto: Crypto)
      ensures this.crypto == crypto && Current() == EMPTY_STORE
    {
      this.crypto := crypto;
      principals, grants, order, actions, revocations := map[], map[], [], map[], map[];
    }

    // ----- steps -----------------------------------------------------------------------------

    method RegisterPrincipal(p: Principal) returns (r: Result<Principal, AuthorityError>)
      modifies this
      ensures Current() == After(crypto, old(Current()), RegisterStep(p))
      ensures r.Ok? <==> Apply(crypto, old(Current()), RegisterStep(p)).Ok?
      ensures r.Ok? ==> p.id in principals && r.value == principals[p.id] && r.value.key == p.key
      ensures r.Err? <==> |p.name| == 0 || |p.name| > 256
                          || (p.id in old(principals) && old(principals)[p.id].key != p.key)
      ensures r.Ok? && p.id !in old(principals) ==> r.value == p
    {
      if |p.name| == 0 || |p.name| > 256 {
        return Err(ValidationError);
      }
      if p.id in principals {
        if principals[p.id].key != p.key {
          return Err(ValidationError);
        }
        return Ok(principals[p.id]);
      }
      principals := principals[p.id := p];
      return Ok(p);
    }

    method StoreDelegation(d: Delegation)
      modifies this
      ensures Current() == StoreGrant(old(Current()), d)
    {
      if d.grant.id !in grants {
        order := order + [d.grant.id];
      }
      grants := grants[d.grant.id := d];
    }

    method IssueRootDelegation(
      key: PrivateKey, human: string, agent: string, scope: Scope, purpose: string, ttl: Num, now: Num, id: string)
      returns (r: Result<Delegation, AuthorityError>)
      modifies this
      ensures var step := IssueStep(key, human, agent, scope, purpose, ttl, now, id);
              && Current() == After(crypto, old(Current()), step)
              && (r.Ok? <==> Apply(crypto, old(Current()), step).Ok?)
      ensures r.Ok? ==> id in grants && grants[id] == r.value
      // The grant stored is the one asked for, signed with the caller's key.
      ensures r.Ok? ==>
                var g := r.value.grant;
                && g.id == id && g.issuer == human && g.subject == agent && g.scope == scope && g.purpose == purpose
                && g.parent == None && g.issuedAt == now
                && (now.Fin? && ttl.Fin? ==> g.expiresAt == Fin(now.v + ttl.v))
                && r.value.signature == crypto.signGrant(key, g)
      ensures r == Err(UnknownPrincipal)
         <==> human !in principals || (principals[human].kind == Human && agent !in principals)
    {
      hide IssueRoot, Lt, Le, Add;
      IssueRootAsAsked(crypto, Current(), key, human, agent, scope, purpose, ttl, now, id);
      r := TryIssue(key, human, agent, scope, purpose, ttl, now, id);
    }

    method TryIssue(
      key: PrivateKey, human: string, agent: string, scope: Scope, purpose: string, ttl: Num, now: Num, id: string)
      returns (r: Result<Delegation, AuthorityError>)
      modifies this
      ensures var result := IssueRoot(crypto, old(Current()), key, human, agent, scope, purpose, ttl, now, id);
              && (result.Ok? ==> Current() == result.value && id in result.value.grants && r == Ok(result.value.grants[id]))
              && (result.Err? ==> Current() == old(Current()) && r == Err(result.error))
    {
      if human !in principals {
        return Err(UnknownPrincipal);
      }
      if !principals[human].kind.Human? {
        return Err(ValidationError);
      }
      if agent !in principals {
        return Err(UnknownPrincipal);
      }
      var built := BuildDelegation(crypto, key, Grant(id, human, agent, scope, purpose, None, now, Add(now, ttl)), ttl);
      if built.Err? {
        return Err(built.error);
      }
      var d := built.value;
      if !crypto.verifyGrant(principals[human].key, d.grant, d.signature) {
        return Err(SignatureError);
      }
      StoreDelegation(d);
      return Ok(d);
    }

    method Delegate(
      key: PrivateKey, issuer: string, subject: string, parentId: string, scope: Scope, purpose: string,
      ttl: Num, now: Num, id: string)
      returns (r: Result<Delegation, AuthorityError>)
      modifies this
      ensures var step := DelegateStep(key, issuer, subject, parentId, scope, purpose, ttl, now, id);
              && Current() == After(crypto, old(Current()), step)
              && (r.Ok? <==> Apply(crypto, old(Current()), step).Ok?)
      ensures r.Ok? ==> id in grants && grants[id] == r.value
      // The grant stored is the one asked for, signed with the caller's key, and ends with the lifetime asked
      // for or with its parent, whichever is earlier.
      ensures r.Ok? ==>
                && parentId in old(grants)
                && var g, parent := r.value.grant, old(grants)[parentId].grant;
                && g.id == id && g.issuer == issuer && g.subject == subject && g.scope == scope && g.purpose == purpose
                && g.parent == Some(parentId) && g.issuedAt == now
                && (now.Fin? && ttl.Fin? ==>
                      g.expiresAt == if parent.expiresAt.Fin? && parent.expiresAt.v < now.v + ttl.v then parent.expiresAt
                                     else Fin(now.v + ttl.v))
                && r.value.signature == crypto.signGrant(key, g)
      ensures r.Ok? ==>
                var parent := old(grants)[parentId].grant;
                && parent.subject == issuer && Contains(parent.scope, scope)
                && (now.Fin? && parent.expiresAt.Fin? ==> now.v < parent.expiresAt.v)
                && issuer in principals && subject in principals && issuer != subject
                && |purpose| <= 1024 && (ttl.Fin? ==> ttl.v > 0.0)
                && crypto.verifyGrant(principals[issuer].key, r.value.grant, r.value.signature)
      ensures parentId !in old(grants) <==> r == Err(ChainBroken)
      ensures parentId in old(grants) && old(grants)[parentId].grant.subject != issuer ==> r == Err(ScopeViolation)
    {
      hide SubDelegate, Contains, Le, Lt, Add, Min, Max, Sub;
      SubDelegateAsAsked(crypto, Current(), key, issuer, subject, parentId, scope, purpose, ttl, now, id);
      r := TryDelegate(key, issuer, subject, parentId, scope, purpose, ttl, now, id);
    }

    method TryDelegate(
      key: PrivateKey, issuer: string, subject: string, parentId: string, scope: Scope, purpose: string,
      ttl: Num, now: Num, id: string)
      returns (r: Result<Delegation, AuthorityError>)
      modifies this
      ensures var result := SubDelegate(crypto, old(Current()), key, issuer, subject, parentId, scope, purpose, ttl, now, id);
              && (result.Ok? ==> Current() == result.value && id in result.value.grants && r == Ok(result.value.grants[id]))
              && (result.Err? ==> Current() == old(Current()) && r == Err(result.error))
    {
      hide Contains, Le, Lt, Add, Min, Max, Sub;
      if parentId !in grants {
        return Err(ChainBroken);
      }
      var parent := grants[parentId];
      if parent.grant.subject != issuer {
        return Err(ScopeViolation);
      }
      if Expired(parent, now) {
        return Err(ExpiredGrant);
      }
      if !Contains(parent.grant.scope, scope) {
        return Err(ScopeViolation);
      }
      var effectiveTtl := ClampedTtl(parent, ttl, now);
      if Le(effectiveTtl, ZERO) {
        return Err(ExpiredGrant);
      }
      if issuer !in principals || subject !in principals {
        return Err(UnknownPrincipal);
      }
      var built := BuildDelegation(
        crypto, key, Grant(id, issuer, subject, scope, purpose, Some(parentId), now, Add(now, effectiveTtl)), effectiveTtl);
      if built.Err? {
        return Err(built.error);
      }
      var d := built.value;
      if !crypto.verifyGrant(principals[issuer].key, d.grant, d.signature) {
        return Err(SignatureError);
      }
      StoreDelegation(d);
      return Ok(d);
    }

    method Record(key: PrivateKey, act: Act) returns (r: Result<ActionRecord, AuthorityError>)
      modifies this
      ensures Current() == After(crypto, old(Current()), RecordStep(key, act))
      ensures r.Ok? <==> act.delegation in old(grants) && ValidAct(act)
      ensures r == Err(ChainBroken) <==> act.delegation !in old(grants)
      ensures r.Ok? ==> r.value.act == act && act.id in actions && actions[act.id] == r.value
      ensures r.Ok? ==> r.value.signature == crypto.signAct(key, act)
      ensures r.Ok? <==> act.delegation in old(grants)
                         && 0 < |act.tool| <= 256 && 0 < |act.action| <= 256
                         && 0 <= act.risk <= 100 && |act.description| <= 2048
    {
      if act.delegation !in grants {
        return Err(ChainBroken);
      }
      if !ValidAct(act) {
        return Err(ValidationError);
      }
      var record := ActionRecord(act, crypto.signAct(key, act));
      actions := actions[act.id := record];
      return Ok(record);
    }

    method RevokeTarget(target: string, reason: string, now: Num) returns (r: Revocation)
      modifies this
      ensures Current() == After(crypto, old(Current()), RevokeStep(target, reason, now))
      ensures target in revocations && r == revocations[target]
      ensures r == if target in old(revocations) then old(revocations)[target] else Revocation(target, reason, now)
      ensures forall k :: k != target ==> (k in revocations <==> k in old(revocations))
                                          && (k in revocations ==> revocations[k] == old(revocations)[k])
    {
      if target in revocations {
        return revocations[target];
      }
      r := Revocation(target, reason, now);
      revocations := revocations[target := r];
    }

    // ----- the subtree of a grant --------------------------------------------------------------

    // The scan over all grants that collects the children of one.
    method ChildrenOf(id: string) returns (children: seq<string>)
      requires Keyed(Current()) && (forall k :: k in grants <==> k in order)
      ensures forall k :: k in children <==> IsParent(Current(), k, id)
    {
      children := [];
      for i := 0 to |order|
        invariant forall k :: k in children <==> k in order[..i] && IsParent(Current(), k, id)
      {
        var d := grants[order[i]];
        if d.grant.parent == Some(id) {
          children := children + [d.grant.id];
        }
      }
      assert order[..|order|] == order;
    }

    /** The start and everything below it, each once. The worklist ends on a cyclic store too. */
    method DescendantDelegations(id: string) returns (out: seq<string>)
      requires Keyed(Current()) && (forall k :: k in grants <==> k in order)
      ensures forall k :: k in out <==> ReachesDown(Current(), id, k)
      ensures forall i, j :: 0 <= i < j < |out| ==> out[i] != out[j]
    {
      hide ReachesDown, IsDownPath;
      out := [];
      var frontier := [id];
      var seen: set<string> := {};
      ghost var st := Current();
      ghost var known := grants.Keys + {id};
      ReachesItself(st, id);
      while |frontier| > 0
        invariant seen <= known
        invariant forall k :: k in out <==> k in seen
        invariant forall i, j :: 0 <= i < j < |out| ==> out[i] != out[j]
        invariant id in seen || id in frontier
        invariant forall k :: k in seen || k in frontier ==> ReachesDown(st, id, k)
        invariant forall k :: k in frontier ==> k in known
        invariant forall k, p :: p in seen && IsParent(st, k, p) ==> k in seen || k in frontier
        decreases known - seen, |frontier|
      {
        var last := |frontier| - 1;
        var current := frontier[last];
        ghost var pending := frontier;
        frontier := frontier[..last];
        assert forall k :: k in pending <==> k in frontier || k == current;
        if current in seen {
          continue;
        }
        seen := seen + {current};
        out := out + [current];
        var children := ChildrenOf(current);
        forall k | k in children
          ensures ReachesDown(st, id, k)
        {
          ExtendDownPath(st, id, current, k);
        }
        frontier := frontier + children;
      }
      ClosedSetHoldsTheSubtree(st, seen, id);
    }

    // ----- chain reconstruction ----------------------------------------------------------------

    /** Says ok exactly for authorised actions, on any store, corrupted or cyclic ones included. When
        it says ok the chain is the climb to the human root, with the caps and floor in force. */
    method ReconstructChain(actionId: string) returns (result: ChainResult)
      requires Keyed(Current())
      ensures result.ok <==> actionId in actions && Authorised(crypto, Current(), actions[actionId])
      ensures result.ok <==> result.errors == []
      ensures |result.chain| <= MAX_CHAIN_DEPTH
      ensures result.ok ==>
                && Climb(Current(), actions[actionId].act.delegation, MAX_CHAIN_DEPTH) == Some(result.chain)
                && result.humanRoot == Some(result.chain[|result.chain| - 1].grant.issuer)
      // What ok stands for, spelled out.
      ensures result.ok ==>
                && actionId in actions
                && var a := actions[actionId];
                && a.act.actor in principals && a.act.actor !in revocations
                && crypto.verifyAct(principals[a.act.actor].key, a.act, a.signature)
                && 0 < |result.chain| <= 64 && result.chain[0].grant.id == a.act.delegation
                && (forall i :: 0 <= i < |result.chain| ==>
                      var d := result.chain[i];
                      && d.grant.id in grants && grants[d.grant.id] == d
                      && d.grant.id !in revocations && d.grant.issuer !in revocations
                      && d.grant.issuer in principals
                      && crypto.verifyGrant(principals[d.grant.issuer].key, d.grant, d.signature))
                && (forall i :: 0 <= i < |result.chain| - 1 ==>
                      && result.chain[i].grant.parent == Some(result.chain[i + 1].grant.id)
                      && result.chain[i + 1].grant.subject == result.chain[i].grant.issuer
                      && Contains(result.chain[i + 1].grant.scope, result.chain[i].grant.scope))
                && result.chain[|result.chain| - 1].grant.parent == None
                && principals[result.chain[|result.chain| - 1].grant.issuer].kind == Human
      ensures actionId in actions ==>
                var a := actions[actionId];
                (if a.act.actor !in principals then [ActorNotRegistered]
                 else if !crypto.verifyAct(principals[a.act.actor].key, a.act, a.signature) then [ActionSignatureInvalid]
                 else [])
                + (if a.act.actor in revocations then [ActorRevoked(a.act.actor)] else [])
                <= result.errors
      ensures AreEffectiveCaps(ScopesOf(result.chain), result.caps)
      ensures result.ok ==> result.floor == result.chain[0].grant.scope.floor
    {
      hide Climb, Contains, PathOk, GrantOk, ActorOk, AuthorisedWithin, IsEffective;
      if actionId !in actions {
        return ChainResult(false, None, [], [UnknownAction], map[], Unknown);
      }
      var action := actions[actionId];
      var errors := ActorErrors(action);
      if action.act.delegation !in grants {
        NoGrantNoAuthority(crypto, Current(), action);
        return ChainResult(false, None, [], errors + [DelegationNotFound], map[], Unknown);
      }
      var humanRoot, chain;
      errors, humanRoot, chain := WalkToRoot(action, errors, MAX_CHAIN_DEPTH);
      var scopes := ScopesOf(chain);
      var caps := EffectiveConstraints(scopes);
      var floor := EffectiveFloor(scopes);
      if errors == [] {
        ghost var path := AuthorityNeeds(crypto, Current(), action);
      }
      return ChainResult(errors == [], humanRoot, chain, errors, caps, floor);
    }

    // The checks on the action itself.
    method ActorErrors(a: ActionRecord) returns (errors: seq<ChainError>)
      ensures errors ==
                (if a.act.actor !in principals then [ActorNotRegistered]
                 else if !crypto.verifyAct(principals[a.act.actor].key, a.act, a.signature) then [ActionSignatureInvalid]
                 else [])
                + (if a.act.actor in revocations then [ActorRevoked(a.act.actor)] else [])
      ensures errors == [] <==> ActorOk(crypto, Current(), a)
    {
      errors := [];
      if a.act.actor in principals {
        if !crypto.verifyAct(principals[a.act.actor].key, a.act, a.signature) {
          errors := errors + [ActionSignatureInvalid];
        }
      } else {
        errors := errors + [ActorNotRegistered];
      }
      if a.act.actor in revocations {
        errors := errors + [ActorRevoked(a.act.actor)];
      }
    }

    // The checks on one grant of the chain.
    method GrantErrors(d: Delegation) returns (errors: seq<ChainError>)
      ensures errors == [] <==> GrantOk(crypto, Current(), d)
      ensures d.grant.issuer !in principals ==> errors != []
    {
      errors := [];
      if d.grant.id in revocations {
        errors := errors + [DelegationRevoked(d.grant.id)];
      }
      if d.grant.issuer in revocations {
        errors := errors + [IssuerRevoked(d.grant.issuer)];
      }
      if d.grant.issuer !in principals {
        errors := errors + [IssuerNotRegistered(d.grant.issuer)];
      } else if !crypto.verifyGrant(principals[d.grant.issuer].key, d.grant, d.signature) {
        errors := errors + [DelegationSignatureInvalid(d.grant.id)];
      }
    }

    method WalkToRoot(action: ActionRecord, found: seq<ChainError>, maxDepth: nat)
      returns (errors: seq<ChainError>, humanRoot: Option<string>, chain: seq<Delegation>)
      requires Keyed(Current()) && action.act.delegation in grants
      requires found == [] <==> ActorOk(crypto, Current(), action)
      ensures errors == [] <==> AuthorisedWithin(crypto, Current(), action, maxDepth)
      ensures found <= errors && |chain| <= maxDepth
      ensures errors == [] ==>
                && Climb(Current(), action.act.delegation, maxDepth) == Some(chain)
                && PathOk(crypto, Current(), chain)
                && humanRoot == Some(chain[|chain| - 1].grant.issuer)
    {
      hide HopOk, GrantOk, ActorOk, Walking, AuthorisedWithin, PathOk;
      errors, humanRoot, chain := found, None, [];
      ghost var st := Current();
      var current := grants[action.act.delegation];
      var seen: set<string> := {};
      WalkStarts(crypto, st, action, maxDepth, found == []);
      while true
        invariant found <= errors && |chain| <= maxDepth
        invariant current.grant.id in grants && grants[current.grant.id] == current
        invariant forall k :: k in seen <==> OnWalk(chain, k)
        invariant Walking(crypto, st, action, maxDepth, chain, current, errors == [])
        decreases maxDepth - |chain|
      {
        hide OnWalk;
        if |chain| + 1 > maxDepth {
          WalkTooDeep(crypto, st, action, maxDepth, chain, current, errors == []);
          errors := errors + [TooDeep];
          return;
        }
        if current.grant.id in seen {
          WalkInCircles(crypto, st, action, maxDepth, chain, current, errors == []);
          errors := errors + [CycleDetected];
          return;
        }
        seen := seen + {current.grant.id};
        ghost var before, clean := chain, errors == [];
        var flaws := GrantErrors(current);
        errors := errors + flaws;
        if current.grant.issuer !in principals {
          WalkOverBadGrant(crypto, st, action, maxDepth, chain, current, clean);
          return;
        }
        chain := chain + [current];
        OnWalkExtends(before, current);
        if current.grant.parent.None? {
          WalkAtRoot(crypto, st, action, maxDepth, before, current, clean);
          if !principals[current.grant.issuer].kind.Human? {
            errors := errors + [RootNotHuman];
          } else {
            humanRoot := Some(current.grant.issuer);
          }
          return;
        }
        var parentId := current.grant.parent.value;
        if parentId !in grants {
          WalkFallsOff(crypto, st, action, maxDepth, before, current, clean);
          errors := errors + [ParentMissing(parentId)];
          return;
        }
        var parent := grants[parentId];
        var hop := HopErrors(current, parent);
        errors := errors + hop;
        WalkUp(crypto, st, action, maxDepth, before, current, clean);
        current := parent;
      }
    }
  }

  method HopErrors(child: Delegation, parent: Delegation) returns (errors: seq<ChainError>)
    ensures errors == [] <==> HopOk(child, parent)
  {
    errors := [];
    if parent.grant.subject != child.grant.issuer {
      errors := errors + [WrongIssuer(child.grant.id)];
    }
    if !Contains(parent.grant.scope, child.grant.scope) {
      errors := errors + [Escalation(child.grant.id)];
    }
  }

  // ----- the walk, seen from the climb -----------------------------------------------------------

  ghost function Prepend(chain: seq<Delegation>, rest: Option<seq<Delegation>>): Option<seq<Delegation>> {
    match rest
    case None => None
    case Some(path) => Some(chain + path)
  }

  lemma PrependOneMore(chain: seq<Delegation>, d: Delegation, rest: Option<seq<Delegation>>)
    ensures Prepend(chain + [d], rest)
         == Prepend(chain, match rest case None => None case Some(path) => Some([d] + path))
  {
    if rest.Some? {
      assert (chain + [d]) + rest.value == chain + ([d] + rest.value);
    }
  }

  lemma PathOkExtends(crypto: Crypto, st: Store, chain: seq<Delegation>, d: Delegation)
    ensures PathOk(crypto, st, chain + [d]) <==>
      && PathOk(crypto, st, chain) && GrantOk(crypto, st, d)
      && (|chain| > 0 ==> HopOk(chain[|chain| - 1], d))
  {
    var longer := chain + [d];
    assert forall i :: 0 <= i < |chain| ==> longer[i] == chain[i];
    assert longer[|chain|] == d;
    if PathOk(crypto, st, longer) && |chain| > 0 {
      assert HopOk(longer[|chain| - 1], longer[|chain| - 1 + 1]);
      forall i | 0 <= i < |chain| - 1
        ensures HopOk(chain[i], chain[i + 1])
      {
        assert HopOk(longer[i], longer[i + 1]);
      }
    }
  }

  ghost predicate OnWalk(chain: seq<Delegation>, id: string) {
    exists i :: 0 <= i < |chain| && chain[i].grant.id == id
  }

  lemma OnWalkExtends(chain: seq<Delegation>, d: Delegation)
    ensures forall k :: OnWalk(chain + [d], k) <==> OnWalk(chain, k) || k == d.grant.id
  {
    var longer := chain + [d];
    forall k
      ensures OnWalk(longer, k) <==> OnWalk(chain, k) || k == d.grant.id
    {
      assert longer[|chain|] == d;
      if OnWalk(chain, k) {
        var i :| 0 <= i < |chain| && chain[i].grant.id == k;
        assert longer[i] == chain[i];
      }
    }
  }

  lemma ClimbFromUnknown(st: Store, id: string, depth: nat)
    requires id !in st.grants
    ensures Climb(st, id, depth).None?
  {
  }

  lemma NoGrantNoAuthority(crypto: Crypto, st: Store, a: ActionRecord)
    requires a.act.delegation !in st.grants
    ensures !Authorised(crypto, st, a)
  {
    ClimbFromUnknown(st, a.act.delegation, MAX_CHAIN_DEPTH);
  }

  lemma PrependNothing(rest: Option<seq<Delegation>>)
    ensures Prepend([], rest) == rest
  {
    if rest.Some? {
      assert [] + rest.value == rest.value;
    }
  }

  /** Coming back to a grant already on the walk, the climb never ends. */
  lemma CycleNeverEnds(st: Store, chain: seq<Delegation>, id: string, start: string, depth: nat)
    requires Keyed(st) && id in st.grants && |chain| <= depth && OnWalk(chain, id)
    requires Climb(st, start, depth) == Prepend(chain, Climb(st, id, depth - |chain|))
    ensures Climb(st, start, depth).None?
  {
    var goal := Climb(st, start, depth);
    if goal.Some? {
      var i :| 0 <= i < |chain| && chain[i].grant.id == id;
      ClimbSuffix(st, start, depth, i);
      ClimbHasNoCycle(st, id, depth - i, |chain| - i);
    }
  }

  lemma BadGrantSpoilsTheClimb(crypto: Crypto, st: Store, chain: seq<Delegation>, d: Delegation,
        action: ActionRecord, depth: nat)
    requires d.grant.id in st.grants && st.grants[d.grant.id] == d && |chain| <= depth
    requires Climb(st, action.act.delegation, depth) == Prepend(chain, Climb(st, d.grant.id, depth - |chain|))
    requires !GrantOk(crypto, st, d)
    ensures !AuthorisedWithin(crypto, st, action, depth)
  {
    var goal := Climb(st, action.act.delegation, depth);
    if goal.Some? {
      assert goal.value[|chain|] == d;
    }
  }

  lemma ClosedSetHoldsTheSubtree(st: Store, seen: set<string>, id: string)
    requires id in seen && forall k, p :: p in seen && IsParent(st, k, p) ==> k in seen
    ensures forall k :: ReachesDown(st, id, k) ==> k in seen
  {
    forall k | ReachesDown(st, id, k)
      ensures k in seen
    {
      var path :| IsDownPath(st, path) && path[0] == id && path[|path| - 1] == k;
      ClosedUnderPaths(st, seen, path);
    }
  }

  lemma {:induction false} ClosedUnderPaths(st: Store, seen: set<string>, path: seq<string>)
    requires IsDownPath(st, path) && path[0] in seen
    requires forall k, p :: p in seen && IsParent(st, k, p) ==> k in seen
    ensures path[|path| - 1] in seen
    decreases |path|
  {
    var n := |path|;
    if n > 1 {
      var shorter := path[..n - 1];
      assert forall i :: 0 <= i < n - 1 ==> shorter[i] == path[i];
      ClosedUnderPaths(st, seen, shorter);
      assert IsParent(st, path[n - 2 + 1], path[n - 2]);
    }
  }

  // ----- one step of the walk ----------------------------------------------------------------------

  /** Where the walk stands: the grants so far, then the climb from the current one, are the climb from
      the start; and nothing was found exactly if nothing is wrong so far. */
  ghost predicate Walking(crypto: Crypto, st: Store, a: ActionRecord, depth: nat, chain: seq<Delegation>,
        current: Delegation, clean: bool) {
    && |chain| <= depth
    && current.grant.id in st.grants && st.grants[current.grant.id] == current
    && Climb(st, a.act.delegation, depth) == Prepend(chain, Climb(st, current.grant.id, depth - |chain|))
    && (clean <==> ActorOk(crypto, st, a) && PathOk(crypto, st, chain)
                   && (|chain| > 0 ==> HopOk(chain[|chain| - 1], current)))
  }

  lemma WalkStarts(crypto: Crypto, st: Store, a: ActionRecord, depth: nat, clean: bool)
    requires Keyed(st) && a.act.delegation in st.grants && (clean <==> ActorOk(crypto, st, a))
    ensures Walking(crypto, st, a, depth, [], st.grants[a.act.delegation], clean)
  {
    hide ActorOk, Climb;
    PrependNothing(Climb(st, a.act.delegation, depth));
  }

  lemma WalkTooDeep(crypto: Crypto, st: Store, a: ActionRecord, depth: nat, chain: seq<Delegation>,
        current: Delegation, clean: bool)
    requires Walking(crypto, st, a, depth, chain, current, clean) && |chain| == depth
    ensures !AuthorisedWithin(crypto, st, a, depth)
  {
    hide ActorOk, PathOk, HopOk;
    assert Climb(st, current.grant.id, 0).None?;
  }

  lemma WalkInCircles(crypto: Crypto, st: Store, a: ActionRecord, depth: nat, chain: seq<Delegation>,
        current: Delegation, clean: bool)
    requires Keyed(st) && Walking(crypto, st, a, depth, chain, current, clean) && OnWalk(chain, current.grant.id)
    ensures !AuthorisedWithin(crypto, st, a, depth)
  {
    hide ActorOk, PathOk, HopOk, Climb, OnWalk;
    CycleNeverEnds(st, chain, current.grant.id, a.act.delegation, depth);
  }

  lemma WalkOverBadGrant(crypto: Crypto, st: Store, a: ActionRecord, depth: nat, chain: seq<Delegation>,
        current: Delegation, clean: bool)
    requires Walking(crypto, st, a, depth, chain, current, clean) && !GrantOk(crypto, st, current)
    ensures !AuthorisedWithin(crypto, st, a, depth)
  {
    hide ActorOk, PathOk, HopOk, Climb, AuthorisedWithin, GrantOk;
    BadGrantSpoilsTheClimb(crypto, st, chain, current, a, depth);
  }

  lemma WalkAtRoot(crypto: Crypto, st: Store, a: ActionRecord, depth: nat, chain: seq<Delegation>,
        current: Delegation, clean: bool)
    requires Walking(crypto, st, a, depth, chain, current, clean) && |chain| < depth && current.grant.parent.None?
    ensures Climb(st, a.act.delegation, depth) == Some(chain + [current])
    ensures clean && GrantOk(crypto, st, current) <==> ActorOk(crypto, st, a) && PathOk(crypto, st, chain + [current])
    ensures AuthorisedWithin(crypto, st, a, depth)
       <==> clean && GrantOk(crypto, st, current) && IsHuman(st, current.grant.issuer)
  {
    hide ActorOk, PathOk, HopOk, GrantOk;
    assert Climb(st, current.grant.id, depth - |chain|) == Some([current]);
    PathOkExtends(crypto, st, chain, current);
  }

  lemma WalkFallsOff(crypto: Crypto, st: Store, a: ActionRecord, depth: nat, chain: seq<Delegation>,
        current: Delegation, clean: bool)
    requires Walking(crypto, st, a, depth, chain, current, clean) && |chain| < depth
    requires current.grant.parent.Some? && current.grant.parent.value !in st.grants
    ensures !AuthorisedWithin(crypto, st, a, depth)
  {
    hide ActorOk, PathOk, HopOk;
    ClimbFromUnknown(st, current.grant.parent.value, depth - |chain| - 1);
  }

  lemma WalkUp(crypto: Crypto, st: Store, a: ActionRecord, depth: nat, chain: seq<Delegation>,
        current: Delegation, clean: bool)
    requires Keyed(st) && Walking(crypto, st, a, depth, chain, current, clean) && |chain| < depth
    requires current.grant.parent.Some? && current.grant.parent.value in st.grants
    ensures var parent := st.grants[current.grant.parent.value];
            Walking(crypto, st, a, depth, chain + [current], parent,
                    clean && GrantOk(crypto, st, current) && HopOk(current, parent))
  {
    hide ActorOk, PathOk, HopOk, GrantOk;
    PathOkExtends(crypto, st, chain, current);
    PrependOneMore(chain, current, Climb(st, current.grant.parent.value, depth - |chain| - 1));
  }
}
