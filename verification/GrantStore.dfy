/** The state behind `authority/engine.py`: principals, grants, recorded actions and revocations, and
    the steps that change them. A step either succeeds with a new store or fails and changes nothing.
    Signing and verifying are uninterpreted; times and lifetimes are floating-point numbers, which need
    not be numbers; a new identifier is a parameter and assumed fresh. */
module GrantStore {
  import opened Outcomes
  import opened Floats
  import opened Postures
  import opened Scopes

  datatype PrincipalKind = Human | Agent

  datatype PublicKey = PublicKey(b64: string)
  datatype PrivateKey = PrivateKey(b64: string)
  datatype Signature = Signature(b64: string)

  datatype Principal = Principal(id: string, kind: PrincipalKind, name: string, key: PublicKey, roles: set<string>)

  // What a delegation's signature covers.
  datatype Grant = Grant(
    id: string, issuer: string, subject: string, scope: Scope, purpose: string,
    parent: Option<string>, issuedAt: Num, expiresAt: Num)

  datatype Delegation = Delegation(grant: Grant, signature: Signature)

  datatype Act = Act(
    id: string, actor: string, delegation: string, tool: string, action: string, risk: int,
    description: string, occurredAt: Num)

  datatype ActionRecord = ActionRecord(act: Act, signature: Signature)

  datatype Revocation = Revocation(target: string, reason: string, revokedAt: Num)

  datatype Crypto = Crypto(
    signGrant: (PrivateKey, Grant) -> Signature,
    verifyGrant: (PublicKey, Grant, Signature) -> bool,
    signAct: (PrivateKey, Act) -> Signature,
    verifyAct: (PublicKey, Act, Signature) -> bool)

  // `order` is the insertion order of the grants dictionary.
  datatype Store = Store(
    principals: map<string, Principal>,
    grants: map<string, Delegation>,
    order: seq<string>,
    actions: map<string, ActionRecord>,
    revocations: map<string, Revocation>)

  const EMPTY_STORE := Store(map[], map[], [], map[], map[])

  datatype AuthorityError =
    | UnknownPrincipal | ValidationError | SignatureError | ChainBroken | ScopeViolation | ExpiredGrant

  predicate IsRevoked(st: Store, target: string) {
    target in st.revocations
  }

  // ----- steps -------------------------------------------------------------------------------

  function Register(st: Store, p: Principal): Result<Store, AuthorityError> {
    if |p.name| == 0 || |p.name| > 256 then Err(ValidationError)
    else if p.id in st.principals then
      if st.principals[p.id].key != p.key then Err(ValidationError) else Ok(st)
    else Ok(st.(principals := st.principals[p.id := p]))
  }

  function Expired(d: Delegation, now: Num): bool {
    Le(d.grant.expiresAt, now)
  }

  // `build_signed_delegation`
  function BuildDelegation(crypto: Crypto, key: PrivateKey, grant: Grant, ttl: Num): Result<Delegation, AuthorityError> {
    if Le(ttl, ZERO) then Err(ValidationError)
    else if |grant.purpose| > 1024 then Err(ValidationError)
    else if Lt(grant.expiresAt, grant.issuedAt) then Err(ValidationError)
    else if grant.issuer == grant.subject then Err(ValidationError)
    else Ok(Delegation(grant, crypto.signGrant(key, grant)))
  }

  function StoreGrant(st: Store, d: Delegation): Store {
    st.(grants := st.grants[d.grant.id := d],
        order := if d.grant.id in st.grants then st.order else st.order + [d.grant.id])
  }

  function IssueRoot(
    crypto: Crypto, st: Store, key: PrivateKey, human: string, agent: string, scope: Scope, purpose: string,
    ttl: Num, now: Num, id: string): Result<Store, AuthorityError>
  {
    if human !in st.principals then Err(UnknownPrincipal)
    else if !st.principals[human].kind.Human? then Err(ValidationError)
    else if agent !in st.principals then Err(UnknownPrincipal)
    else
      match BuildDelegation(crypto, key, Grant(id, human, agent, scope, purpose, None, now, Add(now, ttl)), ttl)
      case Err(e) => Err(e)
      case Ok(d) =>
        if !crypto.verifyGrant(st.principals[human].key, d.grant, d.signature) then Err(SignatureError)
        else Ok(StoreGrant(st, d))
  }

  // Meant to keep a child from outliving its parent.
  function ClampedTtl(parent: Delegation, ttl: Num, now: Num): Num {
    Min(ttl, Max(ZERO, Sub(parent.grant.expiresAt, now)))
  }

  function SubDelegate(
    crypto: Crypto, st: Store, key: PrivateKey, issuer: string, subject: string, parentId: string, scope: Scope,
    purpose: string, ttl: Num, now: Num, id: string): Result<Store, AuthorityError>
  {
    if parentId !in st.grants then Err(ChainBroken)
    else
      var parent := st.grants[parentId];
      if parent.grant.subject != issuer then Err(ScopeViolation)
      else if Expired(parent, now) then Err(ExpiredGrant)
      else if !Contains(parent.grant.scope, scope) then Err(ScopeViolation)
      else if Le(ClampedTtl(parent, ttl, now), ZERO) then Err(ExpiredGrant)
      else if issuer !in st.principals || subject !in st.principals then Err(UnknownPrincipal)
      else
        var left := ClampedTtl(parent, ttl, now);
        match BuildDelegation(crypto, key, Grant(id, issuer, subject, scope, purpose, Some(parentId), now, Add(now, left)), left)
        case Err(e) => Err(e)
        case Ok(d) =>
          if !crypto.verifyGrant(st.principals[issuer].key, d.grant, d.signature) then Err(SignatureError)
          else Ok(StoreGrant(st, d))
  }

  /** What a root grant takes and what is stored: the grant asked for, signed with the caller's key. */
  lemma IssueRootAsAsked(
    crypto: Crypto, st: Store, key: PrivateKey, human: string, agent: string, scope: Scope, purpose: string,
    ttl: Num, now: Num, id: string)
    ensures var r := IssueRoot(crypto, st, key, human, agent, scope, purpose, ttl, now, id);
            && (r == Err(UnknownPrincipal)
                <==> human !in st.principals || (st.principals[human].kind == Human && agent !in st.principals))
            && (r.Ok? ==>
                  && id in r.value.grants
                  && var d := r.value.grants[id];
                  && d.grant.id == id && d.grant.issuer == human && d.grant.subject == agent
                  && d.grant.scope == scope && d.grant.purpose == purpose
                  && d.grant.parent == None && d.grant.issuedAt == now
                  && (now.Fin? && ttl.Fin? ==> d.grant.expiresAt == Fin(now.v + ttl.v))
                  && d.signature == crypto.signGrant(key, d.grant)
                  && r.value.principals == st.principals)
            && (now.Fin? && ttl.Fin? ==>
                  var g := Grant(id, human, agent, scope, purpose, None, now, Fin(now.v + ttl.v));
                  r.Ok? <==>
                    && human in st.principals && st.principals[human].kind == Human && agent in st.principals
                    && ttl.v > 0.0 && |purpose| <= 1024 && human != agent
                    && crypto.verifyGrant(st.principals[human].key, g, crypto.signGrant(key, g)))
  {
  }

  /** What a sub-grant takes and what is stored: the grant asked for, signed with the caller's key, that ends
      with the lifetime asked for or with its parent, whichever is earlier. */
  lemma SubDelegateAsAsked(
    crypto: Crypto, st: Store, key: PrivateKey, issuer: string, subject: string, parentId: string, scope: Scope,
    purpose: string, ttl: Num, now: Num, id: string)
    ensures var r := SubDelegate(crypto, st, key, issuer, subject, parentId, scope, purpose, ttl, now, id);
            && (r == Err(ChainBroken) <==> parentId !in st.grants)
            && (parentId in st.grants && st.grants[parentId].grant.subject != issuer ==> r == Err(ScopeViolation))
            && (r.Ok? ==>
                  && id in r.value.grants
                  && var d, parent := r.value.grants[id], st.grants[parentId].grant;
                  && d.grant.id == id && d.grant.issuer == issuer && d.grant.subject == subject
                  && d.grant.scope == scope && d.grant.purpose == purpose
                  && d.grant.parent == Some(parentId) && d.grant.issuedAt == now
                  && (now.Fin? && ttl.Fin? ==>
                        d.grant.expiresAt == if parent.expiresAt.Fin? && parent.expiresAt.v < now.v + ttl.v then parent.expiresAt
                                             else Fin(now.v + ttl.v))
                  && d.signature == crypto.signGrant(key, d.grant)
                  && parent.subject == issuer && Contains(parent.scope, scope)
                  && (now.Fin? && parent.expiresAt.Fin? ==> now.v < parent.expiresAt.v)
                  && issuer in st.principals && subject in st.principals && issuer != subject
                  && |purpose| <= 1024 && (ttl.Fin? ==> ttl.v > 0.0)
                  && crypto.verifyGrant(st.principals[issuer].key, d.grant, d.signature)
                  && r.value.principals == st.principals)
    // With finite times nothing else is refused.
    ensures var r := SubDelegate(crypto, st, key, issuer, subject, parentId, scope, purpose, ttl, now, id);
            parentId in st.grants && now.Fin? && ttl.Fin? && st.grants[parentId].grant.expiresAt.Fin? ==>
              var parent := st.grants[parentId].grant;
              var end := if parent.expiresAt.v < now.v + ttl.v then parent.expiresAt else Fin(now.v + ttl.v);
              var g := Grant(id, issuer, subject, scope, purpose, Some(parentId), now, end);
              r.Ok? <==>
                && parent.subject == issuer && now.v < parent.expiresAt.v && Contains(parent.scope, scope) && ttl.v > 0.0
                && issuer in st.principals && subject in st.principals && issuer != subject && |purpose| <= 1024
                && crypto.verifyGrant(st.principals[issuer].key, g, crypto.signGrant(key, g))
  {
    if parentId in st.grants && now.Fin? && ttl.Fin? && st.grants[parentId].grant.expiresAt.Fin? {
      FiniteClamp(st.grants[parentId], ttl, now);
    }
    hide Contains, ClampedTtl, Le, Lt, Add;
    if parentId in st.grants && !Expired(st.grants[parentId], now) && !Le(ClampedTtl(st.grants[parentId], ttl, now), ZERO) {
      ClampAsAsked(st.grants[parentId], ttl, now);
    }
  }

  lemma FiniteClamp(parent: Delegation, ttl: Num, now: Num)
    requires now.Fin? && ttl.Fin? && parent.grant.expiresAt.Fin?
    ensures var left, end := ClampedTtl(parent, ttl, now), parent.grant.expiresAt.v;
            && (Expired(parent, now) <==> end <= now.v)
            && (now.v < end ==> (Le(left, ZERO) <==> ttl.v <= 0.0))
            && (now.v < end && ttl.v > 0.0 ==>
                  Add(now, left) == (if end < now.v + ttl.v then parent.grant.expiresAt else Fin(now.v + ttl.v))
                  && !Lt(Add(now, left), now))
  {
  }

  lemma ClampAsAsked(parent: Delegation, ttl: Num, now: Num)
    requires !Expired(parent, now) && !Le(ClampedTtl(parent, ttl, now), ZERO)
    ensures var end := parent.grant.expiresAt;
            && (now.Fin? && ttl.Fin? ==>
                  Add(now, ClampedTtl(parent, ttl, now)) ==
                    if end.Fin? && end.v < now.v + ttl.v then end else Fin(now.v + ttl.v))
            && (now.Fin? && end.Fin? ==> now.v < end.v)
            && (ttl.Fin? ==> ttl.v > 0.0)
  {
  }

  predicate ValidAct(act: Act) {
    0 < |act.tool| <= 256 && 0 < |act.action| <= 256 && 0 <= act.risk <= 100 && |act.description| <= 2048
  }

  // The signature is not checked here: a bad action is still evidence.
  function RecordAction(crypto: Crypto, st: Store, key: PrivateKey, act: Act): Result<Store, AuthorityError> {
    if act.delegation !in st.grants then Err(ChainBroken)
    else if !ValidAct(act) then Err(ValidationError)
    else Ok(st.(actions := st.actions[act.id := ActionRecord(act, crypto.signAct(key, act))]))
  }

  // Revoking again changes nothing: the first revocation stands, with its reason and time.
  function Revoke(st: Store, target: string, reason: string, now: Num): Store {
    if target in st.revocations then st
    else st.(revocations := st.revocations[target := Revocation(target, reason, now)])
  }

  datatype Step =
    | RegisterStep(p: Principal)
    | IssueStep(key: PrivateKey, human: string, agent: string, scope: Scope, purpose: string, ttl: Num, now: Num, id: string)
    | DelegateStep(key: PrivateKey, issuer: string, subject: string, parentId: string, scope: Scope, purpose: string,
                   ttl: Num, now: Num, id: string)
    | RecordStep(key: PrivateKey, act: Act)
    | RevokeStep(target: string, reason: string, now: Num)

  function Apply(crypto: Crypto, st: Store, step: Step): Result<Store, AuthorityError> {
    match step
    case RegisterStep(p) => Register(st, p)
    case IssueStep(key, human, agent, scope, purpose, ttl, now, id) =>
      IssueRoot(crypto, st, key, human, agent, scope, purpose, ttl, now, id)
    case DelegateStep(key, issuer, subject, parentId, scope, purpose, ttl, now, id) =>
      SubDelegate(crypto, st, key, issuer, subject, parentId, scope, purpose, ttl, now, id)
    case RecordStep(key, act) => RecordAction(crypto, st, key, act)
    case RevokeStep(target, reason, now) => Ok(Revoke(st, target, reason, now))
  }

  function After(crypto: Crypto, st: Store, step: Step): Store {
    match Apply(crypto, st, step)
    case Ok(next) => next
    case Err(_) => st
  }

  // New identifiers come from a generator that does not repeat itself.
  predicate IsFresh(st: Store, step: Step) {
    match step
    case IssueStep(_, _, _, _, _, _, _, id) => id !in st.grants
    case DelegateStep(_, _, _, _, _, _, _, _, id) => id !in st.grants
    case RecordStep(_, act) => act.id !in st.actions
    case _ => true
  }

  function Run(crypto: Crypto, st: Store, steps: seq<Step>): Store
    decreases |steps|
  {
    if |steps| == 0 then st else Run(crypto, After(crypto, st, steps[0]), steps[1..])
  }

  predicate FreshRun(crypto: Crypto, st: Store, steps: seq<Step>)
    decreases |steps|
  {
    |steps| == 0 || (IsFresh(st, steps[0]) && FreshRun(crypto, After(crypto, st, steps[0]), steps[1..]))
  }

  // ----- what every step keeps -----------------------------------------------------------------

  // A lifetime that is not a number, or an endless one from the beginning of time, ends at no time.
  predicate EndsAtNoTime(ttl: Num, now: Num) {
    ttl.NaN? || (now.NegInf? && ttl.PosInf?)
  }

  predicate Outlives(child: Delegation, parent: Delegation) {
    !Le(child.grant.expiresAt, parent.grant.expiresAt)
  }

  // One hop of a chain, from a grant to its parent.
  predicate GoodHop(child: Delegation, parent: Delegation) {
    && child.grant.parent == Some(parent.grant.id)
    && parent.grant.subject == child.grant.issuer
    && Contains(parent.grant.scope, child.grant.scope)
    && (Outlives(child, parent) ==> child.grant.expiresAt.NaN?)
  }

  predicate GoodIssue(crypto: Crypto, st: Store, d: Delegation) {
    && d.grant.issuer in st.principals && d.grant.subject in st.principals
    && d.grant.issuer != d.grant.subject
    && !Lt(d.grant.expiresAt, d.grant.issuedAt)
    && crypto.verifyGrant(st.principals[d.grant.issuer].key, d.grant, d.signature)
  }

  predicate IsHuman(st: Store, id: string) {
    id in st.principals && st.principals[id].kind.Human?
  }

  // The grant at position i was issued by a human, or hangs below an earlier grant.
  ghost predicate GoodGrant(crypto: Crypto, st: Store, i: nat)
    requires i < |st.order|
  {
    && st.order[i] in st.grants
    && var d := st.grants[st.order[i]];
    && d.grant.id == st.order[i]
    && GoodIssue(crypto, st, d)
    && match d.grant.parent
       case None => IsHuman(st, d.grant.issuer)
       case Some(p) => exists j :: 0 <= j < i && st.order[j] == p && p in st.grants && GoodHop(d, st.grants[p])
  }

  // The dictionaries stay keyed by identifier, and actions name existing grants.
  ghost predicate Tabled(st: Store) {
    && (forall k :: k in st.grants <==> k in st.order)
    && (forall k :: k in st.principals ==> st.principals[k].id == k)
    && (forall k :: k in st.actions ==> st.actions[k].act.id == k && st.actions[k].act.delegation in st.grants)
  }

  ghost predicate WellFormed(crypto: Crypto, st: Store) {
    && Tabled(st)
    && (forall i :: 0 <= i < |st.order| ==> GoodGrant(crypto, st, i))
  }

  // Nothing is ever taken back: principals and grants stay as they are, revocations stay.
  predicate Grows(st: Store, st': Store) {
    && (forall k :: k in st.principals ==> k in st'.principals && st'.principals[k] == st.principals[k])
    && (forall k :: k in st.grants ==> k in st'.grants && st'.grants[k] == st.grants[k])
    && (forall k :: k in st.actions ==> k in st'.actions && st'.actions[k] == st.actions[k])
    && (forall k :: k in st.revocations ==> k in st'.revocations && st'.revocations[k] == st.revocations[k])
  }

  lemma GoodGrantSurvives(crypto: Crypto, st: Store, st': Store, i: nat)
    requires i < |st.order| && GoodGrant(crypto, st, i)
    requires Grows(st, st') && st.order <= st'.order
    ensures GoodGrant(crypto, st', i)
  {
  }

  lemma StepGrows(crypto: Crypto, st: Store, step: Step)
    requires IsFresh(st, step)
    ensures var st' := After(crypto, st, step);
            && Grows(st, st') && st.order <= st'.order
            && (st'.order != st.order ==> (step.IssueStep? || step.DelegateStep?) && Apply(crypto, st, step).Ok?)
  {
    hide Contains, ClampedTtl, ValidAct, Add, Le, Lt;
  }

  lemma StepKeepsTables(crypto: Crypto, st: Store, step: Step)
    requires Tabled(st) && IsFresh(st, step)
    ensures Tabled(After(crypto, st, step))
  {
    hide Contains, ClampedTtl, ValidAct, Add, Le, Lt;
  }

  lemma StepKeepsWellFormed(crypto: Crypto, st: Store, step: Step)
    requires WellFormed(crypto, st) && IsFresh(st, step)
    ensures WellFormed(crypto, After(crypto, st, step)) && Grows(st, After(crypto, st, step))
  {
    hide GoodGrant, After, Apply, Grows, Tabled;
    var st' := After(crypto, st, step);
    StepGrows(crypto, st, step);
    StepKeepsTables(crypto, st, step);
    forall i | 0 <= i < |st'.order|
      ensures GoodGrant(crypto, st', i)
    {
      if i < |st.order| {
        GoodGrantSurvives(crypto, st, st', i);
      } else if step.DelegateStep? {
        NewGrantIsGood(crypto, st, step);
      } else {
        NewRootIsGood(crypto, st, step);
      }
    }
  }

  lemma NewRootIsGood(crypto: Crypto, st: Store, step: Step)
    requires WellFormed(crypto, st) && IsFresh(st, step) && step.IssueStep?
    requires Apply(crypto, st, step).Ok?
    ensures var st' := After(crypto, st, step);
            |st'.order| == |st.order| + 1 && GoodGrant(crypto, st', |st.order|)
    ensures After(crypto, st, step).grants[step.id].grant.expiresAt.NaN?
       <==> step.now.NaN? || EndsAtNoTime(step.ttl, step.now)
  {
  }

  /** The clamp works for every lifetime that is a number: the only one it lets through beside is one
      that ends at no time. */
  lemma ClampKeepsWithin(parent: Delegation, ttl: Num, now: Num)
    requires !Expired(parent, now) && !Le(ClampedTtl(parent, ttl, now), ZERO)
    ensures var end := Add(now, ClampedTtl(parent, ttl, now));
            && (end.NaN? <==> EndsAtNoTime(ttl, now))
            && (Le(end, parent.grant.expiresAt) <==> !end.NaN?)
  {
  }

  /** A sub-grant that is stored hangs below its parent, and ends no later than its parent exactly when
      the lifetime asked for ends at some time. */
  lemma NewGrantIsGood(crypto: Crypto, st: Store, step: Step)
    requires WellFormed(crypto, st) && IsFresh(st, step) && step.DelegateStep?
    requires Apply(crypto, st, step).Ok?
    ensures var st' := After(crypto, st, step);
            && |st'.order| == |st.order| + 1 && GoodGrant(crypto, st', |st.order|)
            && step.parentId in st.grants && st'.grants[step.id].grant.parent == Some(step.parentId)
            && (Outlives(st'.grants[step.id], st.grants[step.parentId]) <==> EndsAtNoTime(step.ttl, step.now))
  {
    hide Contains, ClampedTtl, Add, Le, Lt;
    var st' := After(crypto, st, step);
    var parent := st.grants[step.parentId];
    var d := st'.grants[step.id];
    ClampKeepsWithin(parent, step.ttl, step.now);
    var j :| 0 <= j < |st.order| && st.order[j] == step.parentId;
    assert GoodGrant(crypto, st, j);
    assert GoodHop(d, parent);
    assert st'.order[j] == step.parentId && st'.grants[step.parentId] == parent;
  }

  lemma {:induction false} RunKeepsWellFormed(crypto: Crypto, st: Store, steps: seq<Step>)
    requires WellFormed(crypto, st) && FreshRun(crypto, st, steps)
    ensures WellFormed(crypto, Run(crypto, st, steps)) && Grows(st, Run(crypto, st, steps))
    decreases |steps|
  {
    if |steps| > 0 {
      StepKeepsWellFormed(crypto, st, steps[0]);
      RunKeepsWellFormed(crypto, After(crypto, st, steps[0]), steps[1..]);
    }
  }

  // ----- chains ------------------------------------------------------------------------------

  /** The grants from `id` up to a root, leaf first, if a root is met within `depth` grants. */
  function Climb(st: Store, id: string, depth: nat): (path: Option<seq<Delegation>>)
    ensures path.Some? ==> 0 < |path.value| <= depth
    decreases depth
  {
    if depth == 0 || id !in st.grants then None
    else
      var d := st.grants[id];
      if d.grant.parent.None? then Some([d])
      else
        match Climb(st, d.grant.parent.value, depth - 1)
        case None => None
        case Some(rest) => Some([d] + rest)
  }

  lemma {:induction false} ClimbIgnoresSpareDepth(st: Store, id: string, depth: nat, depth': nat)
    requires Climb(st, id, depth).Some? && |Climb(st, id, depth).value| <= depth'
    ensures Climb(st, id, depth') == Climb(st, id, depth)
    decreases depth
  {
    var d := st.grants[id];
    if d.grant.parent.Some? {
      ClimbIgnoresSpareDepth(st, d.grant.parent.value, depth - 1, depth' - 1);
    }
  }

  /** A chain as it must be: linked hop by hop, each issue good, ending at a grant by a human. */
  ghost predicate IsLineage(crypto: Crypto, st: Store, path: seq<Delegation>) {
    && |path| > 0
    && (forall i :: 0 <= i < |path| ==> GoodIssue(crypto, st, path[i]))
    && (forall i :: 0 <= i < |path| - 1 ==> GoodHop(path[i], path[i + 1]))
    && path[|path| - 1].grant.parent.None?
    && IsHuman(st, path[|path| - 1].grant.issuer)
  }

  lemma {:induction false} ClimbFromPosition(crypto: Crypto, st: Store, i: nat) returns (path: seq<Delegation>)
    requires WellFormed(crypto, st) && i < |st.order|
    ensures Climb(st, st.order[i], i + 1) == Some(path)
    ensures IsLineage(crypto, st, path) && path[0].grant.id == st.order[i]
  {
    assert GoodGrant(crypto, st, i);
    var d := st.grants[st.order[i]];
    path := [d];
    if d.grant.parent.Some? {
      var p := d.grant.parent.value;
      var j :| 0 <= j < i && st.order[j] == p && p in st.grants && GoodHop(d, st.grants[p]);
      assert GoodGrant(crypto, st, j);
      var rest := ClimbFromPosition(crypto, st, j);
      ClimbIgnoresSpareDepth(st, p, j + 1, i);
      assert rest[0] == st.grants[p] by {
        assert Climb(st, p, j + 1) == Some(rest);
      }
      path := [d] + rest;
    }
  }

  /** In every store reached by any run of steps, the parent links of every grant lead, in at most as
      many hops as there are grants, to a root issued by a human, with matching subject and issuer and
      containment at every hop, and an end no later than the parent's unless it is at no time. */
  lemma EveryGrantHasALineage(crypto: Crypto, steps: seq<Step>, id: string) returns (path: seq<Delegation>)
    requires FreshRun(crypto, EMPTY_STORE, steps)
    requires id in Run(crypto, EMPTY_STORE, steps).grants
    ensures var st := Run(crypto, EMPTY_STORE, steps);
            && Climb(st, id, |st.order|) == Some(path)
            && IsLineage(crypto, st, path) && path[0].grant.id == id
  {
    RunKeepsWellFormed(crypto, EMPTY_STORE, steps);
    path := LineageOf(crypto, Run(crypto, EMPTY_STORE, steps), id);
  }

  lemma LineageOf(crypto: Crypto, st: Store, id: string) returns (path: seq<Delegation>)
    requires WellFormed(crypto, st) && id in st.grants
    ensures Climb(st, id, |st.order|) == Some(path)
    ensures IsLineage(crypto, st, path) && path[0].grant.id == id
  {
    var i :| 0 <= i < |st.order| && st.order[i] == id;
    path := ClimbFromPosition(crypto, st, i);
    ClimbIgnoresSpareDepth(st, id, i + 1, |st.order|);
  }

  function ScopesOf(path: seq<Delegation>): (scopes: seq<Scope>)
    ensures |scopes| == |path| && forall i :: 0 <= i < |path| ==> scopes[i] == path[i].grant.scope
  {
    seq(|path|, i requires 0 <= i < |path| => path[i].grant.scope)
  }

  /** Along a lineage whatever the leaf permits every ancestor permits, and an unexpired leaf that ends
      at some time means every ancestor is unexpired. */
  lemma {:induction false} LeafSpeaksForTheChain(
    crypto: Crypto, st: Store, path: seq<Delegation>, j: nat, now: Num, tool: string, action: string, risk: int)
    requires IsLineage(crypto, st, path) && j < |path|
    ensures !path[0].grant.expiresAt.NaN? && !Expired(path[0], now) ==> !Expired(path[j], now)
    ensures Permits(path[0].grant.scope, tool, action, risk) ==> Permits(path[j].grant.scope, tool, action, risk)
  {
    if j > 0 {
      LeafSpeaksForTheChain(crypto, st, path, j - 1, now, tool, action, risk);
      assert GoodHop(path[j - 1], path[j - 1 + 1]);
    }
    if !path[0].grant.expiresAt.NaN? {
      EndsAreOrdered(crypto, st, path, j);
    }
  }

  // ----- expiry along a chain --------------------------------------------------------------------

  /** An unexpired leaf means that every ancestor is unexpired, at every time. */
  ghost predicate LeafExpiresFirst(path: seq<Delegation>) {
    forall j, now :: 0 <= j < |path| && !Expired(path[0], now) ==> !Expired(path[j], now)
  }

  lemma {:induction false} EndsAreOrdered(crypto: Crypto, st: Store, path: seq<Delegation>, j: nat)
    requires IsLineage(crypto, st, path) && j < |path| && !path[0].grant.expiresAt.NaN?
    ensures Le(path[0].grant.expiresAt, path[j].grant.expiresAt)
  {
    hide Contains, GoodIssue;
    if j > 0 {
      EndsAreOrdered(crypto, st, path, j - 1);
      assert GoodHop(path[j - 1], path[j - 1 + 1]);
    }
  }

  lemma {:induction false} NoEndBelowNoEnd(crypto: Crypto, st: Store, path: seq<Delegation>, j: nat)
    requires IsLineage(crypto, st, path) && j < |path| && path[|path| - 1].grant.expiresAt.NaN?
    ensures path[j].grant.expiresAt.NaN?
    decreases |path| - j
  {
    hide Contains, GoodIssue;
    if j < |path| - 1 {
      NoEndBelowNoEnd(crypto, st, path, j + 1);
      assert GoodHop(path[j], path[j + 1]);
    }
  }

  /** The leaf's expiry speaks for the whole chain exactly when the leaf ends at some time or the root
      ends at none. */
  lemma LeafExpiresFirstExactly(crypto: Crypto, st: Store, path: seq<Delegation>)
    requires IsLineage(crypto, st, path)
    ensures LeafExpiresFirst(path)
       <==> (path[0].grant.expiresAt.NaN? ==> path[|path| - 1].grant.expiresAt.NaN?)
  {
    hide GoodIssue, GoodHop;
    var root := path[|path| - 1];
    if !path[0].grant.expiresAt.NaN? {
      forall j, now | 0 <= j < |path| && !Expired(path[0], now)
        ensures !Expired(path[j], now)
      {
        EndsAreOrdered(crypto, st, path, j);
      }
    } else if root.grant.expiresAt.NaN? {
      forall j, now | 0 <= j < |path|
        ensures !Expired(path[j], now)
      {
        NoEndBelowNoEnd(crypto, st, path, j);
      }
    } else {
      assert !Expired(path[0], PosInf) && Expired(root, PosInf);
    }
  }

  // ----- expiry over runs --------------------------------------------------------------------------

  /** Every grant ends no later than its parent. */
  ghost predicate EndsWithinParents(st: Store) {
    forall k, p :: k in st.grants && st.grants[k].grant.parent == Some(p) && p in st.grants ==>
      !Outlives(st.grants[k], st.grants[p])
  }

  // No sub-grant is stored in this run for a lifetime that ends at no time.
  ghost predicate LifetimesEnd(crypto: Crypto, st: Store, steps: seq<Step>)
    decreases |steps|
  {
    |steps| == 0
    || ((steps[0].DelegateStep? && Apply(crypto, st, steps[0]).Ok? ==> !EndsAtNoTime(steps[0].ttl, steps[0].now))
        && LifetimesEnd(crypto, After(crypto, st, steps[0]), steps[1..]))
  }

  lemma StepEndsWithin(crypto: Crypto, st: Store, step: Step)
    requires WellFormed(crypto, st) && IsFresh(st, step)
    ensures EndsWithinParents(After(crypto, st, step))
       <==> EndsWithinParents(st)
            && (step.DelegateStep? && Apply(crypto, st, step).Ok? ==> !EndsAtNoTime(step.ttl, step.now))
  {
    hide After, Apply, WellFormed, Outlives, EndsAtNoTime, Grows;
    var st' := After(crypto, st, step);
    ParentsStay(crypto, st, step);
    StepAdds(crypto, st, step);
    if step.DelegateStep? && Apply(crypto, st, step).Ok? {
      NewGrantIsGood(crypto, st, step);
    }
  }

  // Grants stay, with their parents; the parent of a stored grant was there before it.
  lemma ParentsStay(crypto: Crypto, st: Store, step: Step)
    requires WellFormed(crypto, st) && IsFresh(st, step)
    ensures forall k :: k in st.grants ==>
              k in After(crypto, st, step).grants && After(crypto, st, step).grants[k] == st.grants[k]
    ensures forall k, p :: k in st.grants && st.grants[k].grant.parent == Some(p) ==> p in st.grants
  {
    hide After;
    StepGrows(crypto, st, step);
    forall k, p | k in st.grants && st.grants[k].grant.parent == Some(p)
      ensures p in st.grants
    {
      var i :| 0 <= i < |st.order| && st.order[i] == k;
      assert GoodGrant(crypto, st, i);
    }
  }

  lemma StepAdds(crypto: Crypto, st: Store, step: Step)
    requires IsFresh(st, step)
    ensures var st' := After(crypto, st, step);
            forall k :: k in st'.grants && k !in st.grants ==>
              && Apply(crypto, st, step).Ok?
              && ((step.DelegateStep? && k == step.id) || (step.IssueStep? && st'.grants[k].grant.parent.None?))
    ensures step.DelegateStep? && Apply(crypto, st, step).Ok? ==> step.id !in st.grants && step.id in After(crypto, st, step).grants
  {
    hide Contains, ClampedTtl, ValidAct, Add, Le, Lt;
  }

  lemma {:induction false} RunEndsWithin(crypto: Crypto, st: Store, steps: seq<Step>)
    requires WellFormed(crypto, st) && FreshRun(crypto, st, steps)
    ensures EndsWithinParents(Run(crypto, st, steps)) <==> EndsWithinParents(st) && LifetimesEnd(crypto, st, steps)
    decreases |steps|
  {
    hide WellFormed, EndsWithinParents, After, Apply, EndsAtNoTime, IsFresh;
    if |steps| > 0 {
      StepEndsWithin(crypto, st, steps[0]);
      StepKeepsWellFormed(crypto, st, steps[0]);
      RunEndsWithin(crypto, After(crypto, st, steps[0]), steps[1..]);
    }
  }

  /** In a reachable store every grant ends no later than its parent exactly when every sub-grant stored
      on the way was asked for with a lifetime that ends: the guard that the source leaves out. */
  lemma EndsWithinParentsExactly(crypto: Crypto, steps: seq<Step>)
    requires FreshRun(crypto, EMPTY_STORE, steps)
    ensures EndsWithinParents(Run(crypto, EMPTY_STORE, steps)) <==> LifetimesEnd(crypto, EMPTY_STORE, steps)
  {
    RunEndsWithin(crypto, EMPTY_STORE, steps);
  }

  // ----- a lifetime that is not a number -----------------------------------------------------------

  // Signatures that always verify: honest callers throughout.
  const TRUSTING := Crypto((_, _) => Signature(""), (_, _, _) => true, (_, _) => Signature(""), (_, _, _) => true)

  function Person(id: string, kind: PrincipalKind): Step {
    RegisterStep(Principal(id, kind, id, PublicKey(id), {}))
  }

  const NOTHING := Scope({}, {}, 0, map[], Unknown)

  function EndlessRun(): seq<Step> {
    [Person("h", Human), Person("a", Agent), Person("b", Agent),
     IssueStep(PrivateKey("h"), "h", "a", NOTHING, "", Fin(60.0), ZERO, "grant"),
     DelegateStep(PrivateKey("a"), "a", "b", "grant", NOTHING, "", NaN, ZERO, "endless")]
  }

  /** A grant of sixty seconds, delegated onward with a lifetime that is not a number: the sub-grant never
      expires, and the grant above it does. */
  lemma NanLifetimeOutlives()
    ensures var st := Run(TRUSTING, EMPTY_STORE, EndlessRun());
            && FreshRun(TRUSTING, EMPTY_STORE, EndlessRun())
            && "grant" in st.grants && "endless" in st.grants && st.grants["endless"].grant.parent == Some("grant")
            && Expired(st.grants["grant"], Fin(60.0))
            && forall now :: !Expired(st.grants["endless"], now)
  {
    var steps := EndlessRun();
    var st1 := After(TRUSTING, EMPTY_STORE, steps[0]);
    var st2 := After(TRUSTING, st1, steps[1]);
    var st3 := After(TRUSTING, st2, steps[2]);
    var st4 := After(TRUSTING, st3, steps[3]);
    var st5 := After(TRUSTING, st4, steps[4]);
    assert Run(TRUSTING, EMPTY_STORE, steps) == st5 && FreshRun(TRUSTING, EMPTY_STORE, steps) by {
      FiveSteps(TRUSTING, EMPTY_STORE, steps);
    }
  }

  lemma FiveSteps(crypto: Crypto, st: Store, steps: seq<Step>)
    requires |steps| == 5
    ensures var st1 := After(crypto, st, steps[0]);
            var st2 := After(crypto, st1, steps[1]);
            var st3 := After(crypto, st2, steps[2]);
            var st4 := After(crypto, st3, steps[3]);
            && Run(crypto, st, steps) == After(crypto, st4, steps[4])
            && (FreshRun(crypto, st, steps)
                <==> IsFresh(st, steps[0]) && IsFresh(st1, steps[1]) && IsFresh(st2, steps[2])
                     && IsFresh(st3, steps[3]) && IsFresh(st4, steps[4]))
  {
    hide After, IsFresh;
    var st1 := After(crypto, st, steps[0]);
    var st2 := After(crypto, st1, steps[1]);
    var st3 := After(crypto, st2, steps[2]);
    var st4 := After(crypto, st3, steps[3]);
    OneStep(crypto, st, steps, 0);
    OneStep(crypto, st1, steps, 1);
    OneStep(crypto, st2, steps, 2);
    OneStep(crypto, st3, steps, 3);
    OneStep(crypto, st4, steps, 4);
    assert steps[0..] == steps && steps[5..] == [];
  }

  lemma OneStep(crypto: Crypto, st: Store, steps: seq<Step>, i: nat)
    requires i < |steps|
    ensures Run(crypto, st, steps[i..]) == Run(crypto, After(crypto, st, steps[i]), steps[i + 1..])
    ensures FreshRun(crypto, st, steps[i..])
       <==> IsFresh(st, steps[i]) && FreshRun(crypto, After(crypto, st, steps[i]), steps[i + 1..])
  {
    hide After, IsFresh;
    assert steps[i..][0] == steps[i] && steps[i..][1..] == steps[i + 1..];
  }
}
