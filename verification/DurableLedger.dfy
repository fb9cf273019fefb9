/** The prepare / persist / append order of `ControlPlane._append` over a durable store, as a state
    machine with crashes. One writer; the store's own write is one transaction over its two tables, the
    ledger and the reversal journal: it keeps the row and the journal state it describes or, when it
    raises, nothing. */
module DurableLedger {
  import opened Outcomes
  import opened Ledger

  // Where the writer is inside one append.
  datatype Phase = Idle | Prepared(entry: Entry) | Persisted(entry: Entry)

  // A row of the journal table: the payload that last described this journal entry, and where the
  // ledger has it.
  datatype Note = Note(payload: Payload, seqNo: int)

  // The journal entry that a ledger entry of this kind and payload describes, if any.
  type Reader = (string, Payload) -> Option<string>

  // `memory` is the in-memory chain of the running process, if there is one.
  datatype State = State(durable: seq<Entry>, journal: map<string, Note>, memory: Option<seq<Entry>>, phase: Phase)

  function About(read: Reader, e: Entry): Option<string> {
    read(e.body.kind, e.body.payload)
  }

  // The journal table after the transaction that stores this entry.
  function Noted(read: Reader, journal: map<string, Note>, e: Entry): map<string, Note> {
    match About(read, e)
    case None => journal
    case Some(id) => journal[id := Note(e.body.payload, e.body.seqNo)]
  }

  datatype Step =
    | Prepare(kind: string, payload: Payload, now: string)
    | Persist
    | StoreFails
    | Extend
    | Crash
    | Restart

  // The ledger table has the sequence number as its key.
  ghost predicate SeqIsFree(rows: seq<Entry>, e: Entry) {
    forall i :: 0 <= i < |rows| ==> rows[i].body.seqNo != e.body.seqNo
  }

  ghost predicate Enabled(s: State, step: Step) {
    match step
    case Prepare(_, _, _) => s.memory.Some? && s.phase.Idle?
    case Persist => s.phase.Prepared? && SeqIsFree(s.durable, s.phase.entry)
    case StoreFails => s.phase.Prepared?
    case Extend => s.memory.Some? && s.phase.Persisted?
    case Crash => s.memory.Some?
    case Restart => s.memory.None?
  }

  function Apply(h: Hasher, read: Reader, s: State, step: Step): State {
    match step
    case Prepare(kind, payload, now) =>
      if s.memory.None? then s else s.(phase := Prepared(Build(h, s.memory.value, kind, payload, now)))
    case Persist =>
      if !s.phase.Prepared? then s
      else
        var e := s.phase.entry;
        s.(durable := s.durable + [e], journal := Noted(read, s.journal, e), phase := Persisted(e))
    case StoreFails => s.(phase := Idle)
    case Extend =>
      if s.memory.None? || !s.phase.Persisted? then s
      else s.(memory := Some(s.memory.value + [s.phase.entry]), phase := Idle)
    case Crash => s.(memory := None, phase := Idle)
    case Restart => s.(memory := Some(SortBySeq(s.durable)))
  }

  ghost predicate IsRun(h: Hasher, read: Reader, run: seq<State>, steps: seq<Step>) {
    && |run| == |steps| + 1
    && run[0] == State([], map[], None, Idle)
    && forall i :: 0 <= i < |steps| ==> Enabled(run[i], steps[i]) && run[i + 1] == Apply(h, read, run[i], steps[i])
  }

  /** The journal table as the ledger tells it. */
  function Replayed(read: Reader, es: seq<Entry>): map<string, Note> {
    if |es| == 0 then map[] else Noted(read, Replayed(read, es[..|es| - 1]), es[|es| - 1])
  }

  lemma ReplayOneMore(read: Reader, es: seq<Entry>, e: Entry)
    ensures Replayed(read, es + [e]) == Noted(read, Replayed(read, es), e)
  {
    assert (es + [e])[..|es|] == es;
  }

  // The last entry about a journal entry.
  ghost predicate IsLast(read: Reader, es: seq<Entry>, id: string, k: nat): (last: bool)
    ensures last ==> k < |es|
  {
    && k < |es| && About(read, es[k]) == Some(id)
    && forall j :: k < j < |es| ==> About(read, es[j]) != Some(id)
  }

  lemma LastInLonger(read: Reader, es: seq<Entry>, e: Entry, id: string, k: nat)
    requires k < |es| && About(read, e) != Some(id)
    ensures IsLast(read, es + [e], id, k) <==> IsLast(read, es, id, k)
  {
    hide About;
    assert forall j :: 0 <= j < |es| ==> (es + [e])[j] == es[j];
    assert (es + [e])[|es|] == e;
  }

  lemma {:induction false} ReplayedHasTheLast(read: Reader, es: seq<Entry>, id: string)
    ensures id in Replayed(read, es) <==> exists k :: 0 <= k < |es| && About(read, es[k]) == Some(id)
    ensures id in Replayed(read, es) ==>
              exists k: nat :: IsLast(read, es, id, k)
                && Replayed(read, es)[id] == Note(es[k].body.payload, es[k].body.seqNo)
    decreases |es|
  {
    hide About;
    var n := |es|;
    if n > 0 {
      var rest, e := es[..n - 1], es[n - 1];
      assert es == rest + [e];
      ReplayedHasTheLast(read, rest, id);
      if About(read, e) == Some(id) {
        assert IsLast(read, es, id, n - 1);
      } else if id in Replayed(read, rest) {
        var k: nat :| IsLast(read, rest, id, k)
          && Replayed(read, rest)[id] == Note(rest[k].body.payload, rest[k].body.seqNo);
        LastInLonger(read, rest, e, id, k);
      }
    }
  }

  ghost predicate Safe(h: Hasher, read: Reader, s: State) {
    && ValidChain(h, s.durable)
    && s.journal == Replayed(read, s.durable)
    && (s.memory.None? ==> s.phase.Idle?)
    && (s.memory.Some? ==>
          match s.phase
          case Idle => s.durable == s.memory.value
          case Prepared(e) =>
            s.durable == s.memory.value
            && exists kind, payload, now :: e == Build(h, s.memory.value, kind, payload, now)
          case Persisted(e) => s.durable == s.memory.value + [e])
  }

  lemma StepKeepsSafe(h: Hasher, read: Reader, s: State, step: Step)
    requires Safe(h, read, s) && Enabled(s, step)
    ensures Safe(h, read, Apply(h, read, s, step))
    ensures s.durable <= Apply(h, read, s, step).durable
  {
    match step
    case Prepare(kind, payload, now) =>
      assert Build(h, s.memory.value, kind, payload, now) == Apply(h, read, s, step).phase.entry;
    case Persist =>
      var kind, payload, now :| s.phase.entry == Build(h, s.memory.value, kind, payload, now);
      BuildExtendsChain(h, s.durable, kind, payload, now);
      ReplayOneMore(read, s.durable, s.phase.entry);
    case Restart => ReloadRestoresChain(h, s.durable, s.durable);
    case _ =>
  }

  lemma {:induction false} RunsAreSafe(h: Hasher, read: Reader, run: seq<State>, steps: seq<Step>, i: nat)
    requires IsRun(h, read, run, steps) && i < |run|
    ensures Safe(h, read, run[i])
  {
    if i > 0 {
      RunsAreSafe(h, read, run, steps, i - 1);
      StepKeepsSafe(h, read, run[i - 1], steps[i - 1]);
    }
  }

  /** In every state of every run of appends, store failures, crashes and restarts the durable chain
      verifies and the in-memory chain is a prefix of it, at most one entry shorter: the head in
      memory is always one that the store supports. */
  lemma DurableChainIsAlwaysAhead(h: Hasher, read: Reader, run: seq<State>, steps: seq<Step>, i: nat)
    requires IsRun(h, read, run, steps) && i < |run|
    ensures ValidChain(h, run[i].durable)
    ensures run[i].memory.Some? ==>
              var memory := run[i].memory.value;
              memory <= run[i].durable && |run[i].durable| <= |memory| + 1 && ValidChain(h, memory)
  {
    RunsAreSafe(h, read, run, steps, i);
    if run[i].memory.Some? {
      PrefixIsValid(h, run[i].durable, |run[i].memory.value|);
      assert run[i].memory.value == run[i].durable[..|run[i].memory.value|];
    }
  }

  /** In every state of every run the two tables tell one story: a journal row is what the last ledger
      entry about it says, at the place it names, and no ledger entry about one is without its row. A crash
      never leaves a plan that the ledger does not have, nor the other way round. */
  lemma JournalSpeaksForTheLedger(h: Hasher, read: Reader, run: seq<State>, steps: seq<Step>, i: nat, id: string)
    requires IsRun(h, read, run, steps) && i < |run|
    ensures var es, journal := run[i].durable, run[i].journal;
            && (id in journal <==> exists k :: 0 <= k < |es| && About(read, es[k]) == Some(id))
            && (id in journal ==>
                  var k := journal[id].seqNo;
                  k >= 0 && IsLast(read, es, id, k) && journal[id].payload == es[k].body.payload)
  {
    hide About, IsRun, IsLast;
    RunsAreSafe(h, read, run, steps, i);
    var es, journal := run[i].durable, run[i].journal;
    ReplayedHasTheLast(read, es, id);
    if id in journal {
      var k: nat :| IsLast(read, es, id, k) && journal[id] == Note(es[k].body.payload, es[k].body.seqNo);
      assert FaultAt(h, es, k).None?;
    }
  }

  /** A durable entry is never lost or changed by anything that happens later. */
  lemma {:induction false} DurableEntriesStay(h: Hasher, read: Reader, run: seq<State>, steps: seq<Step>, i: nat, j: nat)
    requires IsRun(h, read, run, steps) && i <= j < |run|
    ensures run[i].durable <= run[j].durable
    decreases j
  {
    if i < j {
      DurableEntriesStay(h, read, run, steps, i, j - 1);
      RunsAreSafe(h, read, run, steps, j - 1);
      StepKeepsSafe(h, read, run[j - 1], steps[j - 1]);
    }
  }

  /** The single writer never meets the store's uniqueness error: whenever an entry is prepared, its
      sequence number is free. */
  lemma PreparedEntryIsFree(h: Hasher, read: Reader, run: seq<State>, steps: seq<Step>, i: nat)
    requires IsRun(h, read, run, steps) && i < |run| && run[i].phase.Prepared?
    ensures SeqIsFree(run[i].durable, run[i].phase.entry)
  {
    RunsAreSafe(h, read, run, steps, i);
    var rows := run[i].durable;
    forall k | 0 <= k < |rows|
      ensures rows[k].body.seqNo != run[i].phase.entry.body.seqNo
    {
      assert FaultAt(h, rows, k).None?;
    }
  }

  // ----- the method itself -------------------------------------------------------------------

  datatype StoreError = StoreError

  class Recorder {
    const ledger: LedgerObject
    const read: Reader
    var rows: Option<seq<Entry>>  // the durable store, when one is configured
    var journal: map<string, Note>

    /** Restarting over a store takes up its rows unverified; a valid chain comes back as it was. */
    constructor (ledger: LedgerObject, read: Reader, stored: Option<seq<Entry>>, journal: map<string, Note>)
      modifies ledger
      ensures this.ledger == ledger && this.read == read && rows == stored && this.journal == journal
      ensures ledger.entries == if stored.Some? then SortBySeq(stored.value) else old(ledger.entries)
      ensures stored.Some? && ValidChain(ledger.h, stored.value) ==> ledger.entries == stored.value
    {
      this.ledger, this.read := ledger, read;
      rows, this.journal := stored, journal;
      new;
      if stored.Some? {
        if ValidChain(ledger.h, stored.value) {
          ReloadRestoresChain(ledger.h, stored.value, stored.value);
        }
        ledger.LoadEntries(stored.value);
      }
    }

    /** Both copies grow by the same entry, the journal with them, or the store refused and nothing
        changed. */
    method Append(kind: string, payload: Payload, now: string, storeAccepts: bool) returns (r: Result<Entry, StoreError>)
      modifies this, ledger
      ensures old(rows).None? || storeAccepts ==>
                && r == Ok(Build(ledger.h, old(ledger.entries), kind, payload, now))
                && ledger.entries == old(ledger.entries) + [r.value]
                && rows == (if old(rows).None? then None else Some(old(rows).value + [r.value]))
                && journal == if old(rows).None? then old(journal) else Noted(read, old(journal), r.value)
      ensures old(rows).Some? && !storeAccepts ==>
                && r == Err(StoreError.StoreError) && ledger.entries == old(ledger.entries)
                && rows == old(rows) && journal == old(journal)
      ensures old(rows.Some? && journal == Replayed(read, rows.value)) ==> journal == Replayed(read, rows.value)
    {
      if rows.None? {
        var entry := ledger.Append(kind, payload, now);
        return Ok(entry);
      }
      var entry := ledger.Prepare(kind, payload, now);
      if !storeAccepts {
        return Err(StoreError.StoreError);
      }
      ReplayOneMore(read, rows.value, entry);
      rows := Some(rows.value + [entry]);
      var described := read(kind, payload);
      if described.Some? {
        journal := journal[described.value := Note(payload, entry.body.seqNo)];
      }
      ledger.AppendPrebuilt(entry);
      return Ok(entry);
    }
  }
}
