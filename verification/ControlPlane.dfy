/** The verdict pipeline and the containment of `controlplane.py`, over the authority engine. The
    gate's decision, the approver's answer, the irreversibility budget and the detectors are inputs;
    so is whether a stage outside this model raises. */
module ControlPlane {
  import opened Outcomes
  import opened Floats
  import opened Scopes
  import opened GrantStore
  import opened ChainCheck
  import opened AuthorityEngine

  datatype Effect = Allow | Deny | RequireApproval | Redact

  datatype Stage = EngineFailure | Enforce | Budget | Authority | Detect | Allowed

  datatype Verdict = Verdict(actionId: Option<string>, allowed: bool, stage: Stage, effect: Effect)

  // The last two flags: whether the ledger append of the verdict raises, and whether the one in the
  // failure handler does.
  datatype Inputs = Inputs(
    decision: Effect, approvedByHuman: bool, budgetRefuses: bool, detectorsBlock: bool,
    raisesBeforeRecord: bool, raisesAfterRecord: bool, ledgerRaises: bool, handlerRaises: bool)

  // An exception: the caller named a delegation that does not exist, or any other.
  datatype Raised = ChainBrokenRaised | OtherRaised

  predicate GateBlocks(i: Inputs) {
    i.decision.Deny? || (i.decision.RequireApproval? && !i.approvedByHuman)
  }

  function RevokeSteps(ids: seq<string>, reason: string, now: Num): (steps: seq<Step>)
    ensures |steps| == |ids| && forall i :: 0 <= i < |ids| ==> steps[i] == RevokeStep(ids[i], reason, now)
  {
    seq(|ids|, i requires 0 <= i < |ids| => RevokeStep(ids[i], reason, now))
  }

  // ----- the answer, over the store of grants ------------------------------------------------------

  datatype Progress = NoDelegation | StageRaised | Reached(verdict: Verdict)

  /** How far the stages get: to a verdict, to an unknown delegation, or to an exception. */
  ghost function Pipeline(crypto: Crypto, st: Store, key: PrivateKey, act: Act, i: Inputs): Progress {
    if i.raisesBeforeRecord || act.actor !in st.principals then StageRaised
    else if act.delegation !in st.grants then NoDelegation
    else if !ValidAct(act) then StageRaised
    else if GateBlocks(i) then Reached(Verdict(Some(act.id), false, Enforce, i.decision))
    else if i.budgetRefuses then Reached(Verdict(Some(act.id), false, Budget, Deny))
    else if i.raisesAfterRecord then StageRaised
    else if !Holds(crypto, st, key, act) then Reached(Verdict(Some(act.id), false, Authority, Deny))
    else if i.detectorsBlock then Reached(Verdict(Some(act.id), false, Detect, Deny))
    else Reached(Verdict(Some(act.id), true, Allowed, i.decision))
  }

  // The action, once recorded, carries valid authority.
  ghost predicate Holds(crypto: Crypto, st: Store, key: PrivateKey, act: Act) {
    Authorised(crypto, After(crypto, st, RecordStep(key, act)), ActionRecord(act, crypto.signAct(key, act)))
  }

  // A failed run is answered by the failure mode, unless its own append raises again.
  function Failure(failClosed: bool, i: Inputs): Result<Verdict, Raised> {
    if i.handlerRaises then Err(OtherRaised)
    else Ok(Verdict(None, !failClosed, EngineFailure, if failClosed then Deny else Allow))
  }

  /** What the stages hand to the failure handler: a verdict that is stored and on record, or what they
      raised. */
  ghost function Staged(crypto: Crypto, st: Store, key: PrivateKey, act: Act, i: Inputs): Result<Verdict, Raised> {
    match Pipeline(crypto, st, key, act, i)
    case NoDelegation => Err(ChainBrokenRaised)
    case StageRaised => Err(OtherRaised)
    case Reached(v) => if i.ledgerRaises then Err(OtherRaised) else Ok(v)
  }

  ghost function Answer(crypto: Crypto, st: Store, key: PrivateKey, act: Act, i: Inputs, failClosed: bool):
      Result<Verdict, Raised> {
    var staged := Staged(crypto, st, key, act, i);
    if staged == Err(OtherRaised) then Failure(failClosed, i) else staged
  }

  // Something raised on the way to a verdict on record.
  ghost predicate Fails(st: Store, act: Act, i: Inputs) {
    || i.raisesBeforeRecord || act.actor !in st.principals
    || (act.delegation in st.grants
        && (!ValidAct(act) || (i.raisesAfterRecord && !GateBlocks(i) && !i.budgetRefuses) || i.ledgerRaises))
  }

  /** An action is allowed exactly when nothing fails, the gate lets it through, the budget does not
      refuse it, its authority chain holds in the store it was recorded in, and no detector blocks it; or,
      on a plane told to fail open, when something fails, whatever the other stages said. */
  lemma AllowedExactly(crypto: Crypto, st: Store, key: PrivateKey, act: Act, i: Inputs, failClosed: bool)
    ensures var r := Answer(crypto, st, key, act, i, failClosed);
            r.Ok? && r.value.allowed
            <==> if Fails(st, act, i) then !failClosed && !i.handlerRaises
                 else act.delegation in st.grants && !GateBlocks(i) && !i.budgetRefuses
                      && Holds(crypto, st, key, act) && !i.detectorsBlock
  {
    hide Holds, ValidAct, GateBlocks;
  }

  /** A refusal is attributed to the first stage that refused. */
  lemma RefusalIsAttributed(crypto: Crypto, st: Store, key: PrivateKey, act: Act, i: Inputs, failClosed: bool)
    ensures var r := Answer(crypto, st, key, act, i, failClosed);
            && (r.Err? <==> if Fails(st, act, i) then i.handlerRaises else act.delegation !in st.grants)
            && (r.Ok? ==> (r.value.stage == EngineFailure <==> Fails(st, act, i)))
            && (r.Ok? && !Fails(st, act, i) ==>
                  && r.value.actionId == Some(act.id)
                  && (r.value.stage == Enforce <==> GateBlocks(i))
                  && (r.value.stage == Budget <==> !GateBlocks(i) && i.budgetRefuses)
                  && (r.value.stage == Authority
                      <==> !GateBlocks(i) && !i.budgetRefuses && !Holds(crypto, st, key, act))
                  && (r.value.stage == Detect
                      <==> !GateBlocks(i) && !i.budgetRefuses && Holds(crypto, st, key, act) && i.detectorsBlock)
                  && (r.value.stage == Allowed <==> r.value.allowed)
                  && r.value.effect == if r.value.stage in {Enforce, Allowed} then i.decision else Deny)
  {
    hide Holds, ValidAct, GateBlocks;
  }

  /** The same, with every test spelled out: what a call must be for nothing to go wrong; when such a call is
      allowed; and what a failure answers. */
  lemma AllowedSpelledOut(crypto: Crypto, st: Store, key: PrivateKey, act: Act, i: Inputs, failClosed: bool)
    ensures var r := Answer(crypto, st, key, act, i, failClosed);
            var record := ActionRecord(act, crypto.signAct(key, act));
            var recorded := st.(actions := st.actions[act.id := record]);
            var valid := 0 < |act.tool| <= 256 && 0 < |act.action| <= 256 && 0 <= act.risk <= 100 && |act.description| <= 2048;
            var refused := i.decision == Deny || (i.decision == RequireApproval && !i.approvedByHuman) || i.budgetRefuses;
            var known := !i.raisesBeforeRecord && act.actor in st.principals;
            && (known && act.delegation !in st.grants ==> r == Err(ChainBrokenRaised))
            && (known && act.delegation in st.grants && valid && !i.ledgerRaises && (refused || !i.raisesAfterRecord) ==>
                  && r.Ok?
                  && (r.value.allowed <==>
                        && i.decision != Deny && (i.decision == RequireApproval ==> i.approvedByHuman)
                        && !i.budgetRefuses && Authorised(crypto, recorded, record) && !i.detectorsBlock))
            && (!known || (act.delegation in st.grants && (!valid || i.ledgerRaises || (!refused && i.raisesAfterRecord))) ==>
                  r == if i.handlerRaises then Err(OtherRaised)
                       else Ok(Verdict(None, !failClosed, EngineFailure, if failClosed then Deny else Allow)))
  {
    hide Authorised;
  }

  /** And which stage a refusal names: the first to refuse, in the order gate, budget, authority, detectors. */
  lemma StagesSpelledOut(crypto: Crypto, st: Store, key: PrivateKey, act: Act, i: Inputs, failClosed: bool)
    ensures var r := Answer(crypto, st, key, act, i, failClosed);
            var record := ActionRecord(act, crypto.signAct(key, act));
            var recorded := st.(actions := st.actions[act.id := record]);
            var gate := i.decision == Deny || (i.decision == RequireApproval && !i.approvedByHuman);
            r.Ok? && r.value.stage != EngineFailure ==>
              && (r.value.stage == Enforce <==> i.decision == Deny || (i.decision == RequireApproval && !i.approvedByHuman))
              && (r.value.stage == Budget <==> !gate && i.budgetRefuses)
              && (r.value.stage == Authority <==> !gate && !i.budgetRefuses && !Authorised(crypto, recorded, record))
              && (r.value.stage == Detect
                  <==> !gate && !i.budgetRefuses && Authorised(crypto, recorded, record) && i.detectorsBlock)
              && (r.value.stage in {Enforce, Allowed} ==> r.value.effect == i.decision)
              && (r.value.stage !in {Enforce, Allowed} ==> r.value.effect == Deny)
              && r.value.actionId == Some(act.id)
  {
    hide Authorised;
  }

  lemma GateIsFinal(crypto: Crypto, st: Store, key: PrivateKey, act: Act, i: Inputs, failClosed: bool)
    requires i.decision == Deny || (i.decision == RequireApproval && !i.approvedByHuman)
    ensures var r := Answer(crypto, st, key, act, i, failClosed);
            !(r.Ok? && r.value.allowed && (failClosed || r.value.stage != EngineFailure))
  {
    hide Holds, ValidAct;
  }

  /** The verdict is stored before it is put on record. When the append raises, the caller gets another
      answer than the one stored: a plane that fails open allows what it has stored as refused, one that
      fails closed refuses what it has stored as allowed. */
  lemma StoredVerdictIsTheAnswer(crypto: Crypto, st: Store, key: PrivateKey, act: Act, i: Inputs, failClosed: bool)
    requires Pipeline(crypto, st, key, act, i).Reached?
    ensures var stored, r := Pipeline(crypto, st, key, act, i).verdict, Answer(crypto, st, key, act, i, failClosed);
            && (r == Ok(stored) <==> !i.ledgerRaises)
            && (i.ledgerRaises && r.Ok? ==> r.value.allowed == !failClosed)
  {
    hide Holds, ValidAct;
  }

  // ----- the plane -----------------------------------------------------------------------------------

  class Plane {
    const engine: Engine
    const failClosed: bool
    var strikes: map<string, nat>
    var verdicts: map<string, Verdict>

    constructor (engine: Engine, failClosed: bool)
      ensures this.engine == engine && this.failClosed == failClosed && strikes == map[] && verdicts == map[]
    {
      this.engine, this.failClosed := engine, failClosed;
      strikes, verdicts := map[], map[];
    }

    function Strikes(actor: string): nat
      reads this
    {
      if actor in strikes then strikes[actor] else 0
    }

    // A refusal counts against the actor unless it was a person declining an approval.
    method Finalize(v: Verdict, act: Act)
      requires v.actionId == Some(act.id)
      modifies this
      ensures verdicts == old(verdicts)[act.id := v]
      ensures Strikes(act.actor) == old(Strikes(act.actor)) + if !v.allowed && !v.effect.RequireApproval? then 1 else 0
      ensures forall other :: other != act.actor ==> Strikes(other) == old(Strikes(other))
    {
      if !v.allowed && !v.effect.RequireApproval? {
        strikes := strikes[act.actor := Strikes(act.actor) + 1];
      }
      verdicts := verdicts[act.id := v];
    }

    /** Gives the answer that `AllowedExactly` and `RefusalIsAttributed` speak about, records the action,
        and stores every verdict the stages reach. On a plane that fails closed nothing at or below a
        revoked grant is allowed. */
    method Authorize(key: PrivateKey, act: Act, i: Inputs) returns (r: Result<Verdict, Raised>)
      requires Keyed(engine.Current()) && act.id !in engine.actions
      modifies this, engine
      ensures r == Answer(engine.crypto, old(engine.Current()), key, act, i, failClosed)
      ensures engine.Current() ==
        if i.raisesBeforeRecord || act.actor !in old(engine.principals) then old(engine.Current())
        else After(engine.crypto, old(engine.Current()), RecordStep(key, act))
      ensures var progress := Pipeline(engine.crypto, old(engine.Current()), key, act, i);
              && verdicts == (if progress.Reached? then old(verdicts)[act.id := progress.verdict] else old(verdicts))
              // One strike for every verdict that refuses without a person declining.
              && Strikes(act.actor) == old(Strikes(act.actor)) +
                   if progress.Reached? && !progress.verdict.allowed && !progress.verdict.effect.RequireApproval? then 1 else 0
      ensures forall other :: other != act.actor ==> Strikes(other) == old(Strikes(other))
      // A refusal by the gate is final on a plane that fails closed, and is never an answer of the gate's own
      // A gate that refuses is overruled only by a failure on a plane that fails open.
      ensures i.decision == Deny || (i.decision == RequireApproval && !i.approvedByHuman) ==>
                !(r.Ok? && r.value.allowed && (failClosed || r.value.stage != EngineFailure))
      ensures forall id :: failClosed && old(IsRevoked(engine.Current(), id) && ReachesDown(engine.Current(), id, act.delegation))
                ==> !(r.Ok? && r.value.allowed)
    {
      hide AuthorisedWithin, ReachesDown;
      ghost var st := engine.Current();
      if i.decision == Deny || (i.decision == RequireApproval && !i.approvedByHuman) {
        GateIsFinal(engine.crypto, st, key, act, i, failClosed);
      }
      forall id | failClosed && IsRevoked(st, id) && ReachesDown(st, id, act.delegation)
        ensures var answer := Answer(engine.crypto, st, key, act, i, failClosed); !(answer.Ok? && answer.value.allowed)
      {
        RevokedIsNeverAllowed(engine.crypto, st, id, key, act, i);
      }
      r := AuthorizeInner(key, act, i);
      if r == Err(OtherRaised) && !i.handlerRaises {
        r := Ok(Verdict(None, !failClosed, EngineFailure, if failClosed then Deny else Allow));
      }
    }

    method AuthorizeInner(key: PrivateKey, act: Act, i: Inputs) returns (r: Result<Verdict, Raised>)
      requires Keyed(engine.Current()) && act.id !in engine.actions
      modifies this, engine
      ensures r == Staged(engine.crypto, old(engine.Current()), key, act, i)
      ensures engine.Current() ==
        if i.raisesBeforeRecord || act.actor !in old(engine.principals) then old(engine.Current())
        else After(engine.crypto, old(engine.Current()), RecordStep(key, act))
      ensures var progress := Pipeline(engine.crypto, old(engine.Current()), key, act, i);
              && verdicts == (if progress.Reached? then old(verdicts)[act.id := progress.verdict] else old(verdicts))
              && Strikes(act.actor) == old(Strikes(act.actor)) +
                   if progress.Reached? && !progress.verdict.allowed && !progress.verdict.effect.RequireApproval? then 1 else 0
      ensures forall other :: other != act.actor ==> Strikes(other) == old(Strikes(other))
    {
      hide AuthorisedWithin, Authorised, Contains, AreEffectiveCaps, Climb, ValidAct;
      if i.raisesBeforeRecord || act.actor !in engine.principals {
        return Err(OtherRaised);
      }
      var recorded := engine.Record(key, act);
      if recorded == Err(ChainBroken) {
        return Err(ChainBrokenRaised);
      }
      if recorded.Err? {
        return Err(OtherRaised);
      }
      var verdict;
      if GateBlocks(i) {
        verdict := Verdict(Some(act.id), false, Enforce, i.decision);
      } else if i.budgetRefuses {
        verdict := Verdict(Some(act.id), false, Budget, Deny);
      } else if i.raisesAfterRecord {
        return Err(OtherRaised);
      } else {
        var chain := engine.ReconstructChain(act.id);
        if !chain.ok {
          verdict := Verdict(Some(act.id), false, Authority, Deny);
        } else if i.detectorsBlock {
          verdict := Verdict(Some(act.id), false, Detect, Deny);
        } else {
          verdict := Verdict(Some(act.id), true, Allowed, i.decision);
        }
      }
      Finalize(verdict, act);
      if i.ledgerRaises {
        return Err(OtherRaised);
      }
      return Ok(verdict);
    }

    /** Revokes exactly the grant and everything below it, and reports exactly the actions taken under
        those grants. Nothing recorded there is authorised any more. */
    method Contain(id: string, reason: string, now: Num) returns (subtree: seq<string>, radius: set<string>)
      requires WellFormed(engine.crypto, engine.Current())
      modifies engine
      ensures forall k :: k in subtree <==> old(ReachesDown(engine.Current(), id, k))
      ensures forall a, b :: 0 <= a < b < |subtree| ==> subtree[a] != subtree[b]
      ensures engine.Current() == Run(engine.crypto, old(engine.Current()), RevokeSteps(subtree, reason, now))
      ensures forall k :: k in engine.revocations <==> k in old(engine.revocations) || k in subtree
      ensures radius == set a | a in engine.actions && engine.actions[a].act.delegation in subtree
      ensures forall a :: a in radius ==> !Authorised(engine.crypto, engine.Current(), engine.actions[a])
    {
      hide AuthorisedWithin, ReachesDown;
      ghost var before := engine.Current();
      WellFormedIsKeyed(engine.crypto, before);
      subtree := engine.DescendantDelegations(id);
      ghost var steps := RevokeSteps(subtree, reason, now);
      for i := 0 to |subtree|
        invariant Run(engine.crypto, engine.Current(), steps[i..]) == Run(engine.crypto, before, steps)
        invariant engine.grants == before.grants && engine.actions == before.actions
        invariant forall k :: k in engine.revocations <==> k in before.revocations || k in subtree[..i]
      {
        assert steps[i..][0] == RevokeStep(subtree[i], reason, now) && steps[i..][1..] == steps[i + 1..];
        var _ := engine.RevokeTarget(subtree[i], reason, now);
      }
      assert subtree[..|subtree|] == subtree;
      radius := set a | a in engine.actions && engine.actions[a].act.delegation in subtree;
      forall a | a in radius
        ensures !Authorised(engine.crypto, engine.Current(), engine.actions[a])
      {
        var d := engine.actions[a].act.delegation;
        ReachesItself(engine.Current(), d);
        RevokedGrantBlocks(engine.crypto, engine.Current(), engine.actions[a], d);
      }
    }
  }

  lemma RecordKeepsTheRest(crypto: Crypto, st: Store, key: PrivateKey, act: Act)
    ensures var next := After(crypto, st, RecordStep(key, act));
            next.grants == st.grants && next.principals == st.principals && next.revocations == st.revocations
  {
  }

  lemma SameGrantsSamePaths(st: Store, st': Store, id: string, k: string)
    requires st.grants == st'.grants && ReachesDown(st, id, k)
    ensures ReachesDown(st', id, k)
  {
    var path :| IsDownPath(st, path) && path[0] == id && path[|path| - 1] == k;
    assert forall j :: 0 <= j < |path| - 1 ==> IsParent(st, path[j + 1], path[j]) ==> IsParent(st', path[j + 1], path[j]);
    assert IsDownPath(st', path);
  }

  /** On a plane that fails closed, whatever the other stages say or fail to say, an action at or below a
      revoked grant is not allowed. */
  lemma RevokedIsNeverAllowed(crypto: Crypto, st: Store, id: string, key: PrivateKey, act: Act, i: Inputs)
    requires Keyed(st) && IsRevoked(st, id) && ReachesDown(st, id, act.delegation)
    ensures var r := Answer(crypto, st, key, act, i, true);
            !(r.Ok? && r.value.allowed)
  {
    hide AuthorisedWithin, ReachesDown, Authorised;
    var next := After(crypto, st, RecordStep(key, act));
    RecordKeepsTheRest(crypto, st, key, act);
    SameGrantsSamePaths(st, next, id, act.delegation);
    RevokedGrantBlocks(crypto, next, ActionRecord(act, crypto.signAct(key, act)), id);
  }

  /** Containment is permanent and covers the future: after it, in every later state, no action whose
      chain passes through the contained grant is authorised, not even under grants delegated
      afterwards. */
  lemma ContainmentHolds(crypto: Crypto, st: Store, id: string, ids: seq<string>, reason: string, now: Num,
                         later: seq<Step>, a: ActionRecord)
    requires WellFormed(crypto, st) && id in ids
    requires var contained := Run(crypto, st, RevokeSteps(ids, reason, now));
             FreshRun(crypto, contained, later)
             && ReachesDown(Run(crypto, contained, later), id, a.act.delegation)
    ensures var contained := Run(crypto, st, RevokeSteps(ids, reason, now));
            !Authorised(crypto, Run(crypto, contained, later), a)
  {
    hide AuthorisedWithin, ReachesDown, Authorised;
    RevokingReachesEveryId(crypto, st, ids, reason, now, id);
    RevocationIsPermanent(crypto, Run(crypto, st, RevokeSteps(ids, reason, now)), id, later, a);
  }

  /** And so a plane that fails closed never allows one again: contain a grant, let anything happen, then
      ask for an action at or below that grant, under whatever key, decision, detector or failure. */
  lemma ContainedIsNeverAllowed(crypto: Crypto, st: Store, id: string, ids: seq<string>, reason: string, now: Num,
                                later: seq<Step>, key: PrivateKey, act: Act, i: Inputs)
    requires WellFormed(crypto, st) && id in ids
    requires var contained := Run(crypto, st, RevokeSteps(ids, reason, now));
             FreshRun(crypto, contained, later)
             && ReachesDown(Run(crypto, contained, later), id, act.delegation)
    ensures var future := Run(crypto, Run(crypto, st, RevokeSteps(ids, reason, now)), later);
            var r := Answer(crypto, future, key, act, i, true);
            !(r.Ok? && r.value.allowed)
  {
    hide AuthorisedWithin, ReachesDown, Authorised, Answer;
    var contained := Run(crypto, st, RevokeSteps(ids, reason, now));
    RevokingReachesEveryId(crypto, st, ids, reason, now, id);
    RunKeepsWellFormed(crypto, contained, later);
    WellFormedIsKeyed(crypto, Run(crypto, contained, later));
    RevokedIsNeverAllowed(crypto, Run(crypto, contained, later), id, key, act, i);
  }

  lemma {:induction false} RevokingReachesEveryId(crypto: Crypto, st: Store, ids: seq<string>, reason: string,
        now: Num, id: string)
    requires WellFormed(crypto, st) && (id in ids || IsRevoked(st, id))
    ensures var contained := Run(crypto, st, RevokeSteps(ids, reason, now));
            WellFormed(crypto, contained) && IsRevoked(contained, id)
    decreases |ids|
  {
    if |ids| > 0 {
      var steps := RevokeSteps(ids, reason, now);
      assert steps[1..] == RevokeSteps(ids[1..], reason, now);
      StepKeepsWellFormed(crypto, st, steps[0]);
      RevokingReachesEveryId(crypto, After(crypto, st, steps[0]), ids[1..], reason, now, id);
    }
  }
}
