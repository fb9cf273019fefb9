/** When an action carries valid authority: what `reconstruct_chain` must answer, and the paths that
    the grant tree is made of. */
module ChainCheck {
  import opened Outcomes
  import opened Scopes
  import opened GrantStore

  const MAX_CHAIN_DEPTH := 64

  // Dictionary keys are the identifiers of the values they hold.
  ghost predicate Keyed(st: Store) {
    forall k :: k in st.grants ==> st.grants[k].grant.id == k
  }

  predicate ActorOk(crypto: Crypto, st: Store, a: ActionRecord) {
    && a.act.actor in st.principals
    && crypto.verifyAct(st.principals[a.act.actor].key, a.act, a.signature)
    && !IsRevoked(st, a.act.actor)
  }

  predicate GrantOk(crypto: Crypto, st: Store, d: Delegation) {
    && !IsRevoked(st, d.grant.id) && !IsRevoked(st, d.grant.issuer)
    && d.grant.issuer in st.principals
    && crypto.verifyGrant(st.principals[d.grant.issuer].key, d.grant, d.signature)
  }

  predicate HopOk(child: Delegation, parent: Delegation) {
    parent.grant.subject == child.grant.issuer && Contains(parent.grant.scope, child.grant.scope)
  }

  ghost predicate PathOk(crypto: Crypto, st: Store, path: seq<Delegation>) {
    && (forall i :: 0 <= i < |path| ==> GrantOk(crypto, st, path[i]))
    && (forall i :: 0 <= i < |path| - 1 ==> HopOk(path[i], path[i + 1]))
  }

  ghost predicate AuthorisedWithin(crypto: Crypto, st: Store, a: ActionRecord, depth: nat) {
    && ActorOk(crypto, st, a)
    && var path := Climb(st, a.act.delegation, depth);
    && path.Some?
    && PathOk(crypto, st, path.value)
    && IsHuman(st, path.value[|path.value| - 1].grant.issuer)
  }

  /** The action is signed by a registered, unrevoked actor and its grant leads within 64 grants to a
      root issued by a human, over grants none of which is revoked, unsigned or wider than its
      parent. */
  ghost predicate Authorised(crypto: Crypto, st: Store, a: ActionRecord) {
    AuthorisedWithin(crypto, st, a, MAX_CHAIN_DEPTH)
  }

  // ----- the same, spelled out ---------------------------------------------------------------------

  // The grants of a path are stored ones, each the parent of the one before, from a leaf to a root.
  ghost predicate IsLinked(st: Store, leaf: string, path: seq<Delegation>) {
    && |path| > 0 && path[0].grant.id == leaf
    && (forall i :: 0 <= i < |path| ==> path[i].grant.id in st.grants && st.grants[path[i].grant.id] == path[i])
    && (forall i :: 0 <= i < |path| - 1 ==> path[i].grant.parent == Some(path[i + 1].grant.id))
    && path[|path| - 1].grant.parent == None
  }

  lemma {:induction false} LinkedIsClimb(st: Store, leaf: string, path: seq<Delegation>, depth: nat)
    requires IsLinked(st, leaf, path) && |path| <= depth
    ensures Climb(st, leaf, depth) == Some(path)
    decreases |path|
  {
    if |path| > 1 {
      var rest := path[1..];
      assert path[0].grant.parent == Some(path[0 + 1].grant.id);
      assert forall i :: 0 <= i < |rest| ==> rest[i] == path[i + 1];
      LinkedIsClimb(st, rest[0].grant.id, rest, depth - 1);
      assert path == [path[0]] + rest;
    } else {
      assert path == [path[0]];
    }
  }

  lemma {:induction false} ClimbIsLinked(st: Store, leaf: string, depth: nat)
    requires Keyed(st) && Climb(st, leaf, depth).Some?
    ensures IsLinked(st, leaf, Climb(st, leaf, depth).value)
    decreases depth
  {
    var d := st.grants[leaf];
    if d.grant.parent.Some? {
      var parent := d.grant.parent.value;
      ClimbIsLinked(st, parent, depth - 1);
      var rest := Climb(st, parent, depth - 1).value;
      var path := [d] + rest;
      assert Climb(st, leaf, depth) == Some(path);
      assert forall i :: 1 <= i < |path| ==> path[i] == rest[i - 1];
      assert path[|path| - 1] == rest[|rest| - 1];
      forall i | 0 <= i < |path| - 1
        ensures path[i].grant.parent == Some(path[i + 1].grant.id)
      {
        if i > 0 {
          assert rest[i - 1].grant.parent == Some(rest[i - 1 + 1].grant.id);
        }
      }
    }
  }

  /** What authority takes, clause by clause: the actor is registered, unrevoked and signed the action; and
      a list of at most 64 stored grants leads from the action's grant, parent by parent, to a root issued by
      a human, where each grant is unrevoked and verifies under the key of its registered and unrevoked
      issuer, and each is issued by its parent's subject within the parent's scope. */
  lemma AuthorityNeeds(crypto: Crypto, st: Store, a: ActionRecord) returns (path: seq<Delegation>)
    requires Keyed(st) && Authorised(crypto, st, a)
    ensures Climb(st, a.act.delegation, 64) == Some(path)
    ensures a.act.actor in st.principals && a.act.actor !in st.revocations
    ensures crypto.verifyAct(st.principals[a.act.actor].key, a.act, a.signature)
    ensures 0 < |path| <= 64 && path[0].grant.id == a.act.delegation
    ensures forall i :: 0 <= i < |path| ==>
              var d := path[i];
              && d.grant.id in st.grants && st.grants[d.grant.id] == d
              && d.grant.id !in st.revocations && d.grant.issuer !in st.revocations
              && d.grant.issuer in st.principals
              && crypto.verifyGrant(st.principals[d.grant.issuer].key, d.grant, d.signature)
    ensures forall i :: 0 <= i < |path| - 1 ==>
              && path[i].grant.parent == Some(path[i + 1].grant.id)
              && path[i + 1].grant.subject == path[i].grant.issuer
              && Contains(path[i + 1].grant.scope, path[i].grant.scope)
    ensures path[|path| - 1].grant.parent == None
    ensures st.principals[path[|path| - 1].grant.issuer].kind == Human
  {
    hide Climb, Contains;
    path := Climb(st, a.act.delegation, MAX_CHAIN_DEPTH).value;
    ClimbIsLinked(st, a.act.delegation, MAX_CHAIN_DEPTH);
    PathSpelledOut(crypto, st, path);
  }

  /** And nothing more. */
  lemma AuthoritySuffices(crypto: Crypto, st: Store, a: ActionRecord, path: seq<Delegation>)
    requires a.act.actor in st.principals && a.act.actor !in st.revocations
    requires crypto.verifyAct(st.principals[a.act.actor].key, a.act, a.signature)
    requires 0 < |path| <= 64 && path[0].grant.id == a.act.delegation
    requires forall i :: 0 <= i < |path| ==>
              var d := path[i];
              && d.grant.id in st.grants && st.grants[d.grant.id] == d
              && d.grant.id !in st.revocations && d.grant.issuer !in st.revocations
              && d.grant.issuer in st.principals
              && crypto.verifyGrant(st.principals[d.grant.issuer].key, d.grant, d.signature)
    requires forall i :: 0 <= i < |path| - 1 ==>
              && path[i].grant.parent == Some(path[i + 1].grant.id)
              && path[i + 1].grant.subject == path[i].grant.issuer
              && Contains(path[i + 1].grant.scope, path[i].grant.scope)
    requires path[|path| - 1].grant.parent == None
    requires st.principals[path[|path| - 1].grant.issuer].kind == Human
    ensures Authorised(crypto, st, a) && Climb(st, a.act.delegation, 64) == Some(path)
  {
    hide Climb, Contains;
    LinkedIsClimb(st, a.act.delegation, path, MAX_CHAIN_DEPTH);
    PathSpelledOut(crypto, st, path);
  }

  lemma PathSpelledOut(crypto: Crypto, st: Store, path: seq<Delegation>)
    ensures PathOk(crypto, st, path) <==>
      && (forall i :: 0 <= i < |path| ==>
            var d := path[i];
            && d.grant.id !in st.revocations && d.grant.issuer !in st.revocations
            && d.grant.issuer in st.principals
            && crypto.verifyGrant(st.principals[d.grant.issuer].key, d.grant, d.signature))
      && (forall i :: 0 <= i < |path| - 1 ==>
            && path[i + 1].grant.subject == path[i].grant.issuer
            && Contains(path[i + 1].grant.scope, path[i].grant.scope))
  {
    hide Contains;
    forall i | 0 <= i < |path|
      ensures GrantOk(crypto, st, path[i]) <==>
        var d := path[i];
        && d.grant.id !in st.revocations && d.grant.issuer !in st.revocations
        && d.grant.issuer in st.principals
        && crypto.verifyGrant(st.principals[d.grant.issuer].key, d.grant, d.signature)
    {
    }
  }

  // ----- paths through the grant tree ----------------------------------------------------------

  predicate IsParent(st: Store, child: string, parent: string) {
    child in st.grants && st.grants[child].grant.parent == Some(parent)
  }

  // A downward path of identifiers, each the parent of the next.
  ghost predicate IsDownPath(st: Store, path: seq<string>) {
    |path| > 0 && forall i :: 0 <= i < |path| - 1 ==> IsParent(st, path[i + 1], path[i])
  }

  ghost predicate ReachesDown(st: Store, top: string, bottom: string) {
    exists path :: IsDownPath(st, path) && path[0] == top && path[|path| - 1] == bottom
  }

  lemma ExtendDownPath(st: Store, top: string, mid: string, bottom: string)
    requires ReachesDown(st, top, mid) && IsParent(st, bottom, mid)
    ensures ReachesDown(st, top, bottom)
  {
    var path :| IsDownPath(st, path) && path[0] == top && path[|path| - 1] == mid;
    var longer := path + [bottom];
    assert IsDownPath(st, longer) && longer[0] == top && longer[|longer| - 1] == bottom;
  }

  lemma ReachesItself(st: Store, id: string)
    ensures ReachesDown(st, id, id)
  {
    assert IsDownPath(st, [id]);
  }

  /** Every grant reached downward from `top` has `top` on its climb, if the climb ends. */
  lemma {:induction false} ClimbPassesThrough(st: Store, path: seq<string>, depth: nat)
    requires Keyed(st) && IsDownPath(st, path) && Climb(st, path[|path| - 1], depth).Some?
    ensures var climb := Climb(st, path[|path| - 1], depth).value;
            |path| <= |climb| && climb[|path| - 1].grant.id == path[0]
    decreases |path|
  {
    var n := |path|;
    var climb := Climb(st, path[n - 1], depth).value;
    if n > 1 {
      assert IsParent(st, path[n - 2 + 1], path[n - 2]);
      ClimbPassesThrough(st, path[..n - 1], depth - 1);
      var rest := Climb(st, path[n - 2], depth - 1).value;
      assert climb == [st.grants[path[n - 1]]] + rest;
      assert path[..n - 1][n - 2] == path[n - 2];
    }
  }

  /** A climb that ends meets no grant twice. */
  lemma {:induction false} ClimbHasNoCycle(st: Store, id: string, depth: nat, k: nat)
    requires Keyed(st) && Climb(st, id, depth).Some? && 0 < k < |Climb(st, id, depth).value|
    ensures Climb(st, id, depth).value[k].grant.id != id
  {
    var climb := Climb(st, id, depth).value;
    ClimbSuffix(st, id, depth, k);
    if climb[k].grant.id == id {
      ClimbIgnoresSpareDepth(st, id, depth - k, depth);
    }
  }

  lemma {:induction false} ClimbSuffix(st: Store, id: string, depth: nat, k: nat)
    requires Keyed(st) && Climb(st, id, depth).Some? && k < |Climb(st, id, depth).value|
    ensures k <= depth
    ensures Climb(st, Climb(st, id, depth).value[k].grant.id, depth - k) == Some(Climb(st, id, depth).value[k..])
    decreases k
  {
    var climb := Climb(st, id, depth).value;
    if k == 0 {
      assert climb[0] == st.grants[id] && climb[0..] == climb;
    } else {
      var parent := st.grants[id].grant.parent.value;
      ClimbSuffix(st, parent, depth - 1, k - 1);
      var rest := Climb(st, parent, depth - 1).value;
      assert climb == [st.grants[id]] + rest;
      assert climb[k..] == rest[k - 1..];
    }
  }

  // ----- authority in a well-formed store ------------------------------------------------------

  /** In a reachable store the answer turns only on the actor, the revocations and the depth: nothing
      else can be wrong with a chain. */
  lemma AuthorisedExactly(crypto: Crypto, st: Store, a: ActionRecord) returns (path: seq<Delegation>)
    requires WellFormed(crypto, st) && a.act.delegation in st.grants
    ensures IsLineage(crypto, st, path) && path[0].grant.id == a.act.delegation
    ensures Authorised(crypto, st, a) <==>
      && ActorOk(crypto, st, a)
      && |path| <= MAX_CHAIN_DEPTH
      && forall i :: 0 <= i < |path| ==> !IsRevoked(st, path[i].grant.id) && !IsRevoked(st, path[i].grant.issuer)
    ensures Authorised(crypto, st, a) ==> Climb(st, a.act.delegation, MAX_CHAIN_DEPTH) == Some(path)
  {
    hide Climb;
    path := AuthorisedWithinExactly(crypto, st, a, MAX_CHAIN_DEPTH);
  }

  lemma AuthorisedWithinExactly(crypto: Crypto, st: Store, a: ActionRecord, depth: nat) returns (path: seq<Delegation>)
    requires WellFormed(crypto, st) && a.act.delegation in st.grants
    ensures IsLineage(crypto, st, path) && path[0].grant.id == a.act.delegation
    ensures AuthorisedWithin(crypto, st, a, depth) <==>
      && ActorOk(crypto, st, a)
      && |path| <= depth
      && forall i :: 0 <= i < |path| ==> !IsRevoked(st, path[i].grant.id) && !IsRevoked(st, path[i].grant.issuer)
    ensures AuthorisedWithin(crypto, st, a, depth) ==> Climb(st, a.act.delegation, depth) == Some(path)
  {
    hide Climb;
    var id := a.act.delegation;
    path := LineageOf(crypto, st, id);
    if |path| <= depth {
      ClimbIgnoresSpareDepth(st, id, |st.order|, depth);
    }
    if Climb(st, id, depth).Some? {
      if depth <= |st.order| {
        ClimbIgnoresSpareDepth(st, id, depth, |st.order|);
      }
      assert Climb(st, id, depth) == Some(path);
      if forall i :: 0 <= i < |path| ==> !IsRevoked(st, path[i].grant.id) && !IsRevoked(st, path[i].grant.issuer) {
        forall i | 0 <= i < |path|
          ensures GrantOk(crypto, st, path[i])
        {
          assert GoodIssue(crypto, st, path[i]);
        }
        forall i | 0 <= i < |path| - 1
          ensures HopOk(path[i], path[i + 1])
        {
          assert GoodHop(path[i], path[i + 1]);
        }
      } else {
        var i :| 0 <= i < |path| && (IsRevoked(st, path[i].grant.id) || IsRevoked(st, path[i].grant.issuer));
        assert !GrantOk(crypto, st, path[i]);
      }
    }
  }

  /** A revoked grant authorises nothing below it. */
  lemma RevokedGrantBlocks(crypto: Crypto, st: Store, a: ActionRecord, id: string)
    requires Keyed(st) && IsRevoked(st, id) && ReachesDown(st, id, a.act.delegation)
    ensures !Authorised(crypto, st, a)
  {
    hide Climb;
    var climb := Climb(st, a.act.delegation, MAX_CHAIN_DEPTH);
    if climb.Some? {
      var path :| IsDownPath(st, path) && path[0] == id && path[|path| - 1] == a.act.delegation;
      ClimbPassesThrough(st, path, MAX_CHAIN_DEPTH);
      assert !GrantOk(crypto, st, climb.value[|path| - 1]);
    }
  }

  /** Revocation covers the future. From any store in which a grant is revoked, after any further
      steps, no action below that grant is authorised: not those already recorded, not new ones, and
      not those under grants that were delegated after the revocation. */
  lemma RevocationIsPermanent(crypto: Crypto, st: Store, id: string, steps: seq<Step>, a: ActionRecord)
    requires WellFormed(crypto, st) && IsRevoked(st, id) && FreshRun(crypto, st, steps)
    requires ReachesDown(Run(crypto, st, steps), id, a.act.delegation)
    ensures !Authorised(crypto, Run(crypto, st, steps), a)
  {
    var later := Run(crypto, st, steps);
    RunKeepsWellFormed(crypto, st, steps);
    WellFormedIsKeyed(crypto, later);
    RevokedGrantBlocks(crypto, later, a, id);
  }

  lemma WellFormedIsKeyed(crypto: Crypto, st: Store)
    requires WellFormed(crypto, st)
    ensures Keyed(st)
  {
    forall k | k in st.grants
      ensures st.grants[k].grant.id == k
    {
      var i :| 0 <= i < |st.order| && st.order[i] == k;
      assert GoodGrant(crypto, st, i);
    }
  }
}
