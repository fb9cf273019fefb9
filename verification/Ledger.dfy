/** The hash-chained ledger of `ledger.py`: entries, the chain they form, and the object that keeps
    them. A hash is the 64 hexadecimal characters the source stores; `h` stands for SHA-256 over the
    canonical JSON of an entry, or over the two concatenated hex strings of a Merkle pair. */
module Ledger {
  import opened Outcomes

  datatype Hash = Hex(digits: string)

  const GENESIS_PREV_HASH := Hex("0000000000000000000000000000000000000000000000000000000000000000")

  datatype Payload = Payload(json: string)

  // The recorded time is the text that canonical JSON has for it.
  datatype Body = Body(seqNo: int, kind: string, payload: Payload, recordedAt: string, prevHash: Hash)

  // The two texts that get hashed. Canonical JSON of an entry starts with a brace, a Merkle pair is
  // all hexadecimal, so the two kinds never coincide.
  datatype Input = EntryText(body: Body) | PairText(left: Hash, right: Hash)

  type Hasher = Input -> Hash

  datatype Entry = Entry(body: Body, entryHash: Hash)

  function HeadHash(es: seq<Entry>): Hash {
    if |es| == 0 then GENESIS_PREV_HASH else es[|es| - 1].entryHash
  }

  /** The entry that `prepare` computes for a chain. */
  function Build(h: Hasher, es: seq<Entry>, kind: string, payload: Payload, now: string): Entry {
    var body := Body(|es|, kind, payload, now, HeadHash(es));
    Entry(body, h(EntryText(body)))
  }

  // ----- the texts ---------------------------------------------------------------------------------

  type Sha = string -> string
  type Canon = Body -> string

  function TextOf(canon: Canon, input: Input): string {
    match input
    case EntryText(body) => canon(body)
    case PairText(left, right) => left.digits + right.digits
  }

  /** The hash of the model, from SHA-256 in hexadecimal and canonical JSON. */
  function HashText(sha: Sha, canon: Canon): Hasher {
    input => Hex(sha(TextOf(canon, input)))
  }

  /** Canonical JSON tells entries apart and starts with a brace. */
  ghost predicate IsCanon(canon: Canon) {
    && (forall a, b :: canon(a) == canon(b) ==> a == b)
    && (forall a :: |canon(a)| > 0 && canon(a)[0] == '{')
  }

  // There are such functions. This one writes a mark before each character of a text and an end after the
  // last, and numbers in unary.

  function Marked(s: string, rest: string): string {
    if |s| == 0 then "]" + rest else "." + [s[0]] + Marked(s[1..], rest)
  }

  lemma {:induction false} MarkedReads(s: string, rest: string, s': string, rest': string)
    requires Marked(s, rest) == Marked(s', rest')
    ensures s == s' && rest == rest'
  {
    var text := Marked(s, rest);
    if |s| == 0 || |s'| == 0 {
      assert text[0] == if |s| == 0 then ']' else '.';
      assert text[1..] == rest && text[1..] == rest';
    } else {
      assert text[1] == s[0] == s'[0];
      assert text[2..] == Marked(s[1..], rest) == Marked(s'[1..], rest');
      MarkedReads(s[1..], rest, s'[1..], rest');
      assert s == [s[0]] + s[1..] && s' == [s'[0]] + s'[1..];
    }
  }

  function Unary(n: int): string {
    if n < 0 then "-" + seq(-n, _ => '1') else seq(n, _ => '1')
  }

  lemma UnaryReads(n: int, n': int)
    requires Unary(n) == Unary(n')
    ensures n == n'
  {
    assert |Unary(n)| == if n < 0 then 1 - n else n;
    assert |Unary(n')| == if n' < 0 then 1 - n' else n';
    assert n < 0 ==> Unary(n)[0] == '-';
    assert n' < 0 ==> Unary(n')[0] == '-';
    assert n > 0 ==> Unary(n)[0] == '1';
    assert n' > 0 ==> Unary(n')[0] == '1';
  }

  function Written(b: Body): string {
    "{" + Marked(Unary(b.seqNo), Marked(b.kind, Marked(b.payload.json, Marked(b.recordedAt, b.prevHash.digits))))
  }

  lemma SomeCanon()
    ensures IsCanon(Written)
  {
    hide Marked, Unary;
    forall a, b | Written(a) == Written(b)
      ensures a == b
    {
      var pa, pb := Marked(a.recordedAt, a.prevHash.digits), Marked(b.recordedAt, b.prevHash.digits);
      var ka, kb := Marked(a.payload.json, pa), Marked(b.payload.json, pb);
      assert Written(a)[1..] == Marked(Unary(a.seqNo), Marked(a.kind, ka));
      assert Written(b)[1..] == Marked(Unary(b.seqNo), Marked(b.kind, kb));
      MarkedReads(Unary(a.seqNo), Marked(a.kind, ka), Unary(b.seqNo), Marked(b.kind, kb));
      UnaryReads(a.seqNo, b.seqNo);
      MarkedReads(a.kind, ka, b.kind, kb);
      MarkedReads(a.payload.json, pa, b.payload.json, pb);
      MarkedReads(a.recordedAt, a.prevHash.digits, b.recordedAt, b.prevHash.digits);
    }
  }

  const WIDTH := 64

  predicate IsDigits(s: string) {
    |s| == WIDTH && forall i :: 0 <= i < |s| ==> '0' <= s[i] <= '9' || 'a' <= s[i] <= 'f'
  }

  lemma GenesisIsWide()
    ensures |GENESIS_PREV_HASH.digits| == WIDTH
  {
  }

  ghost predicate IsWideSha(sha: Sha) {
    forall s :: IsDigits(sha(s))
  }

  lemma SomeWideSha()
    ensures IsWideSha(s => seq(WIDTH, _ => '0'))
  {
  }

  predicate IsWide(x: Hash) {
    IsDigits(x.digits)
  }

  predicate IsWideInput(input: Input) {
    input.PairText? ==> IsWide(input.left) && IsWide(input.right)
  }

  ghost predicate OneHash(sha: Sha, s: string, s': string) {
    s != s' && sha(s) == sha(s')
  }

  lemma HalvesOf(left: string, right: string)
    requires |left| == WIDTH
    ensures (left + right)[..WIDTH] == left && (left + right)[WIDTH..] == right
  {
  }

  // For pairs nothing need be known of canonical JSON.
  lemma PairTextsDiffer(canon: Canon, a: Input, b: Input)
    requires IsWideInput(a) && IsWideInput(b) && a.PairText? && b.PairText? && a != b
    ensures TextOf(canon, a) != TextOf(canon, b)
  {
    HalvesOf(a.left.digits, a.right.digits);
    HalvesOf(b.left.digits, b.right.digits);
  }

  /** Different inputs of full width are different texts. */
  lemma TextsDiffer(canon: Canon, a: Input, b: Input)
    requires IsCanon(canon) && IsWideInput(a) && IsWideInput(b) && a != b
    ensures TextOf(canon, a) != TextOf(canon, b)
  {
    if a.PairText? && b.PairText? {
      PairTextsDiffer(canon, a, b);
    } else if a.PairText? {
      assert TextOf(canon, a)[0] == a.left.digits[0];
    } else if b.PairText? {
      assert TextOf(canon, b)[0] == b.left.digits[0];
    }
  }

  // ----- integrity ---------------------------------------------------------------------------

  datatype Fault = SequenceGap | BrokenLink | AlteredPayload

  datatype Tamper = Tamper(index: nat, fault: Fault)

  function FaultAt(h: Hasher, es: seq<Entry>, i: nat): Option<Fault>
    requires i < |es|
  {
    if es[i].body.seqNo != i then Some(SequenceGap)
    else if es[i].body.prevHash != HeadHash(es[..i]) then Some(BrokenLink)
    else if h(EntryText(es[i].body)) != es[i].entryHash then Some(AlteredPayload)
    else None
  }

  ghost predicate ValidChain(h: Hasher, es: seq<Entry>) {
    forall i :: 0 <= i < |es| ==> FaultAt(h, es, i).None?
  }

  /** What `build` appends keeps a valid chain valid. */
  lemma BuildExtendsChain(h: Hasher, es: seq<Entry>, kind: string, payload: Payload, now: string)
    requires ValidChain(h, es)
    ensures ValidChain(h, es + [Build(h, es, kind, payload, now)])
  {
    var longer := es + [Build(h, es, kind, payload, now)];
    forall i | 0 <= i < |longer|
      ensures FaultAt(h, longer, i).None?
    {
      if i < |es| {
        assert longer[..i] == es[..i];
        assert FaultAt(h, es, i).None?;
      } else {
        assert longer[..i] == es;
      }
    }
  }

  /** Every prefix of a valid chain is valid: the chain alone cannot show truncation. */
  lemma PrefixIsValid(h: Hasher, es: seq<Entry>, n: nat)
    requires ValidChain(h, es) && n <= |es|
    ensures ValidChain(h, es[..n])
  {
    forall i | 0 <= i < n
      ensures FaultAt(h, es[..n], i).None?
    {
      assert es[..n][..i] == es[..i];
      assert FaultAt(h, es, i).None?;
    }
  }

  lemma EntrySpelledOut(h: Hasher, es: seq<Entry>, i: nat)
    requires i < |es|
    ensures FaultAt(h, es, i).None? <==>
      && es[i].body.seqNo == i
      && (i == 0 ==> es[i].body.prevHash.digits == "0000000000000000000000000000000000000000000000000000000000000000")
      && (i > 0 ==> es[i].body.prevHash == es[i - 1].entryHash)
      && es[i].entryHash == h(EntryText(es[i].body))
  {
    assert i > 0 ==> es[..i][i - 1] == es[i - 1];
  }

  /** A valid chain, entry by entry: numbered from zero, linked to the hash before it (to 64 zeros at the
      start), and hashed as it stands. */
  lemma ValidSpelledOut(h: Hasher, es: seq<Entry>)
    ensures ValidChain(h, es) <==>
      forall i {:trigger es[i].body} :: 0 <= i < |es| ==>
        && es[i].body.seqNo == i
        && (i == 0 ==> es[i].body.prevHash.digits == "0000000000000000000000000000000000000000000000000000000000000000")
        && (i > 0 ==> es[i].body.prevHash == es[i - 1].entryHash)
        && es[i].entryHash == h(EntryText(es[i].body))
  {
    hide FaultAt;
    if ValidChain(h, es) {
      forall i | 0 <= i < |es|
        ensures es[i].body.seqNo == i
        ensures i == 0 ==> es[i].body.prevHash.digits == "0000000000000000000000000000000000000000000000000000000000000000"
        ensures i > 0 ==> es[i].body.prevHash == es[i - 1].entryHash
        ensures es[i].entryHash == h(EntryText(es[i].body))
      {
        assert FaultAt(h, es, i).None?;
        EntrySpelledOut(h, es, i);
      }
    } else {
      var i :| 0 <= i < |es| && FaultAt(h, es, i).Some?;
      EntrySpelledOut(h, es, i);
      assert es[i].body == es[i].body;
    }
  }

  // ----- the head binds the history ----------------------------------------------------------

  /** Evidence that the hash was broken, by position in the two chains: two different entries with
      one hash, or an entry that hashes to the genesis value. */
  datatype Break = SameHash(i: nat, j: nat) | GenesisInFirst(i: nat) | GenesisInSecond(j: nat)

  predicate IsBreak(h: Hasher, a: seq<Entry>, b: seq<Entry>, w: Break) {
    match w
    case SameHash(i, j) =>
      i < |a| && j < |b| && a[i].body != b[j].body && h(EntryText(a[i].body)) == h(EntryText(b[j].body))
    case GenesisInFirst(i) => i < |a| && h(EntryText(a[i].body)) == GENESIS_PREV_HASH
    case GenesisInSecond(j) => j < |b| && h(EntryText(b[j].body)) == GENESIS_PREV_HASH
  }

  /** Two chains that both verify and share a head hash are the same chain, length included, or the
      hash was broken at a named place. */
  lemma {:induction false} HeadBindsChain(h: Hasher, a: seq<Entry>, b: seq<Entry>) returns (w: Break)
    requires ValidChain(h, a) && ValidChain(h, b)
    requires HeadHash(a) == HeadHash(b)
    ensures a == b || IsBreak(h, a, b, w)
    decreases |a|
  {
    var m, n := |a|, |b|;
    w := SameHash(0, 0);
    if m == 0 && n > 0 {
      assert FaultAt(h, b, n - 1).None?;
      w := GenesisInSecond(n - 1);
    } else if n == 0 && m > 0 {
      assert FaultAt(h, a, m - 1).None?;
      w := GenesisInFirst(m - 1);
    } else if m > 0 {
      var p, q := a[m - 1], b[n - 1];
      assert FaultAt(h, a, m - 1).None? && FaultAt(h, b, n - 1).None?;
      w := SameHash(m - 1, n - 1);
      if p.body == q.body {
        PrefixIsValid(h, a, m - 1);
        PrefixIsValid(h, b, n - 1);
        w := HeadBindsChain(h, a[..m - 1], b[..n - 1]);
        assert a == a[..m - 1] + [p] && b == b[..n - 1] + [q];
      }
    }
  }

  // ----- reloading ---------------------------------------------------------------------------

  function InsertBySeq(es: seq<Entry>, e: Entry): seq<Entry> {
    if |es| == 0 then [e]
    else if e.body.seqNo < es[|es| - 1].body.seqNo then InsertBySeq(es[..|es| - 1], e) + [es[|es| - 1]]
    else es + [e]
  }

  /** Python's stable `sorted` with the sequence number as its key. */
  function SortBySeq(es: seq<Entry>): seq<Entry> {
    if |es| == 0 then [] else InsertBySeq(SortBySeq(es[..|es| - 1]), es[|es| - 1])
  }

  ghost predicate Ascending(es: seq<Entry>) {
    forall i, j :: 0 <= i < j < |es| ==> es[i].body.seqNo <= es[j].body.seqNo
  }

  /** The entries with one sequence number, in their order. */
  ghost function WithSeq(es: seq<Entry>, k: int): seq<Entry> {
    if |es| == 0 then []
    else WithSeq(es[..|es| - 1], k) + if es[|es| - 1].body.seqNo == k then [es[|es| - 1]] else []
  }

  lemma WithSeqOfLonger(es: seq<Entry>, e: Entry, k: int)
    ensures WithSeq(es + [e], k) == WithSeq(es, k) + if e.body.seqNo == k then [e] else []
  {
    assert (es + [e])[..|es|] == es;
  }

  lemma GreatestComesLast(es: seq<Entry>)
    requires Ascending(es) && |es| > 0
    ensures Ascending(es[..|es| - 1])
    ensures forall x :: x in es ==> x.body.seqNo <= es[|es| - 1].body.seqNo
  {
  }

  lemma GreaterMayFollow(es: seq<Entry>, e: Entry)
    requires Ascending(es) && forall x :: x in es ==> x.body.seqNo <= e.body.seqNo
    ensures Ascending(es + [e])
  {
  }

  lemma {:induction false} InsertIsPermutation(es: seq<Entry>, e: Entry)
    ensures multiset(InsertBySeq(es, e)) == multiset(es) + multiset{e}
    decreases |es|
  {
    var n := |es|;
    if n > 0 && e.body.seqNo < es[n - 1].body.seqNo {
      InsertIsPermutation(es[..n - 1], e);
      assert es == es[..n - 1] + [es[n - 1]];
    }
  }

  lemma InsertAdds(es: seq<Entry>, e: Entry, x: Entry)
    ensures x in InsertBySeq(es, e) <==> x in es || x == e
  {
    InsertIsPermutation(es, e);
    assert x in InsertBySeq(es, e) <==> x in multiset(InsertBySeq(es, e));
  }

  lemma {:induction false} InsertIsAscending(es: seq<Entry>, e: Entry)
    requires Ascending(es)
    ensures Ascending(InsertBySeq(es, e))
    decreases |es|
  {
    hide Ascending;
    var n := |es|;
    if n == 0 {
      OneIsAscending(e);
    } else {
      var rest, last := es[..n - 1], es[n - 1];
      GreatestComesLast(es);
      if e.body.seqNo < last.body.seqNo {
        InsertIsAscending(rest, e);
        forall x | x in InsertBySeq(rest, e)
          ensures x.body.seqNo <= last.body.seqNo
        {
          InsertAdds(rest, e, x);
        }
        GreaterMayFollow(InsertBySeq(rest, e), last);
      } else {
        GreaterMayFollow(es, e);
      }
    }
  }

  lemma OneIsAscending(e: Entry)
    ensures Ascending([]) && Ascending([e])
  {
  }

  lemma {:induction false} InsertKeepsRows(es: seq<Entry>, e: Entry, k: int)
    ensures WithSeq(InsertBySeq(es, e), k) == WithSeq(es + [e], k)
    decreases |es|
  {
    var n := |es|;
    if n > 0 && e.body.seqNo < es[n - 1].body.seqNo {
      var rest, last := es[..n - 1], es[n - 1];
      InsertKeepsRows(rest, e, k);
      WithSeqOfLonger(InsertBySeq(rest, e), last, k);
      WithSeqOfLonger(rest, e, k);
      WithSeqOfLonger(es, e, k);
    }
  }

  /** Whatever the rows, tampered ones with repeated or missing numbers included: sorting keeps every
      row, puts the numbers in order, and leaves rows of one number in the order they had. */
  lemma SortBySeqIsStable(es: seq<Entry>)
    ensures Ascending(SortBySeq(es)) && multiset(SortBySeq(es)) == multiset(es)
    ensures forall k :: WithSeq(SortBySeq(es), k) == WithSeq(es, k)
  {
    hide Ascending, SortBySeq, WithSeq;
    SortIsAscending(es);
    forall k
      ensures WithSeq(SortBySeq(es), k) == WithSeq(es, k)
    {
      SortKeepsRows(es, k);
    }
  }

  lemma {:induction false} SortIsAscending(es: seq<Entry>)
    ensures Ascending(SortBySeq(es)) && multiset(SortBySeq(es)) == multiset(es)
    decreases |es|
  {
    hide InsertBySeq;
    var n := |es|;
    if n > 0 {
      hide Ascending;
      SortIsAscending(es[..n - 1]);
      InsertIsAscending(SortBySeq(es[..n - 1]), es[n - 1]);
      InsertIsPermutation(SortBySeq(es[..n - 1]), es[n - 1]);
      assert es == es[..n - 1] + [es[n - 1]];
    }
  }

  lemma {:induction false} SortKeepsRows(es: seq<Entry>, k: int)
    ensures WithSeq(SortBySeq(es), k) == WithSeq(es, k)
    decreases |es|
  {
    hide InsertBySeq;
    var n := |es|;
    if n > 0 {
      var rest, last := es[..n - 1], es[n - 1];
      SortKeepsRows(rest, k);
      InsertKeepsRows(SortBySeq(rest), last, k);
      WithSeqOfLonger(SortBySeq(rest), last, k);
    }
  }

  lemma {:induction false} WithSeqFinds(es: seq<Entry>, k: int)
    ensures WithSeq(es, k) != [] <==> exists i :: 0 <= i < |es| && es[i].body.seqNo == k
    decreases |es|
  {
    var n := |es|;
    if n > 0 {
      WithSeqFinds(es[..n - 1], k);
      assert forall i :: 0 <= i < n - 1 ==> es[..n - 1][i] == es[i];
    }
  }

  lemma GreatestOccursIn(a: seq<Entry>, b: seq<Entry>)
    requires Ascending(b) && |a| > 0
    requires forall k :: WithSeq(a, k) == WithSeq(b, k)
    ensures |b| > 0 && a[|a| - 1].body.seqNo <= b[|b| - 1].body.seqNo
  {
    hide WithSeq, Ascending;
    var k := a[|a| - 1].body.seqNo;
    WithSeqFinds(a, k);
    WithSeqFinds(b, k);
    GreatestComesLast(b);
  }

  lemma LastsAgree(a: seq<Entry>, b: seq<Entry>)
    requires Ascending(a) && Ascending(b) && |a| > 0
    requires forall k :: WithSeq(a, k) == WithSeq(b, k)
    ensures |b| > 0 && a[|a| - 1] == b[|b| - 1]
  {
    hide WithSeq, Ascending;
    GreatestOccursIn(a, b);
    GreatestOccursIn(b, a);
    var x, y := a[|a| - 1], b[|b| - 1];
    WithSeqEnds(a);
    WithSeqEnds(b);
    SameEnd(WithSeq(a[..|a| - 1], x.body.seqNo), x, WithSeq(b[..|b| - 1], x.body.seqNo), y);
  }

  lemma WithSeqEnds(es: seq<Entry>)
    requires |es| > 0
    ensures var last := es[|es| - 1];
            WithSeq(es, last.body.seqNo) == WithSeq(es[..|es| - 1], last.body.seqNo) + [last]
  {
  }

  lemma SameEnd(a: seq<Entry>, x: Entry, b: seq<Entry>, y: Entry)
    requires a + [x] == b + [y]
    ensures x == y
  {
    assert (a + [x])[|a|] == x && (b + [y])[|b|] == y && |a| == |b|;
  }

  lemma PrefixesAgree(a: seq<Entry>, b: seq<Entry>, x: Entry, k: int)
    requires WithSeq(a + [x], k) == WithSeq(b + [x], k)
    ensures WithSeq(a, k) == WithSeq(b, k)
  {
    hide WithSeq;
    WithSeqOfLonger(a, x, k);
    WithSeqOfLonger(b, x, k);
    SameTail(WithSeq(a, k), WithSeq(b, k), if x.body.seqNo == k then [x] else []);
  }

  /** And these properties leave no choice: there is one ascending list with given rows per number. */
  lemma {:induction false} StableOrderIsUnique(a: seq<Entry>, b: seq<Entry>)
    requires Ascending(a) && Ascending(b)
    requires forall k :: WithSeq(a, k) == WithSeq(b, k)
    ensures a == b
    decreases |a|
  {
    hide WithSeq;
    if |a| > 0 {
      LastsAgree(a, b);
      var a', b', x := a[..|a| - 1], b[..|b| - 1], a[|a| - 1];
      assert a == a' + [x] && b == b' + [x];
      forall k
        ensures WithSeq(a', k) == WithSeq(b', k)
      {
        PrefixesAgree(a', b', x, k);
      }
      StableOrderIsUnique(a', b');
    } else if |b| > 0 {
      LastsAgree(b, a);
    }
  }

  lemma SameTail(a: seq<Entry>, b: seq<Entry>, tail: seq<Entry>)
    requires a + tail == b + tail
    ensures a == b
  {
    assert |a| == |b|;
    assert a == (a + tail)[..|a|] && b == (b + tail)[..|a|];
  }

  lemma ValidIsAscending(h: Hasher, chain: seq<Entry>)
    requires ValidChain(h, chain)
    ensures Ascending(chain)
  {
    forall i, j | 0 <= i < j < |chain|
      ensures chain[i].body.seqNo <= chain[j].body.seqNo
    {
      assert FaultAt(h, chain, i).None? && FaultAt(h, chain, j).None?;
    }
  }

  lemma {:induction false} WithSeqCounts(es: seq<Entry>, k: int, x: Entry)
    ensures multiset(WithSeq(es, k))[x] == if x.body.seqNo == k then multiset(es)[x] else 0
    decreases |es|
  {
    var n := |es|;
    if n > 0 {
      WithSeqCounts(es[..n - 1], k, x);
      assert es == es[..n - 1] + [es[n - 1]];
    }
  }

  lemma {:induction false} OneRowPerNumber(h: Hasher, chain: seq<Entry>, k: int)
    requires ValidChain(h, chain)
    ensures WithSeq(chain, k) == if 0 <= k < |chain| then [chain[k]] else []
    decreases |chain|
  {
    hide ValidChain;
    var n := |chain|;
    if n > 0 {
      PrefixIsValid(h, chain, n - 1);
      OneRowPerNumber(h, chain[..n - 1], k);
      LastNumber(h, chain);
    }
  }

  lemma LastNumber(h: Hasher, chain: seq<Entry>)
    requires ValidChain(h, chain) && |chain| > 0
    ensures chain[|chain| - 1].body.seqNo == |chain| - 1
  {
    assert FaultAt(h, chain, |chain| - 1).None?;
  }

  lemma RowsOfOneNumber(h: Hasher, chain: seq<Entry>, rows: seq<Entry>, k: int)
    requires ValidChain(h, chain) && multiset(rows) == multiset(chain)
    ensures WithSeq(rows, k) == WithSeq(chain, k)
  {
    hide ValidChain, WithSeq;
    OneRowPerNumber(h, chain, k);
    forall x
      ensures multiset(WithSeq(rows, k))[x] == multiset(WithSeq(chain, k))[x]
    {
      WithSeqCounts(rows, k, x);
      WithSeqCounts(chain, k, x);
    }
    SameMultiset(WithSeq(rows, k), WithSeq(chain, k));
  }

  lemma SameMultiset(a: seq<Entry>, b: seq<Entry>)
    requires multiset(a) == multiset(b) && |b| <= 1
    ensures a == b
  {
    assert |a| == |multiset(a)| == |multiset(b)| == |b|;
    if |b| == 1 {
      assert a[0] in multiset(a);
    }
  }

  /** Reloading the rows of a valid chain in sequence order gives back exactly that chain, in whatever
      order the store hands them out. */
  lemma ReloadRestoresChain(h: Hasher, chain: seq<Entry>, rows: seq<Entry>)
    requires ValidChain(h, chain) && multiset(rows) == multiset(chain)
    ensures SortBySeq(rows) == chain
  {
    hide SortBySeq, ValidChain;
    ValidIsAscending(h, chain);
    SortBySeqIsStable(rows);
    forall k
      ensures WithSeq(rows, k) == WithSeq(chain, k)
    {
      RowsOfOneNumber(h, chain, rows, k);
    }
    StableOrderIsUnique(SortBySeq(rows), chain);
  }

  // ----- the object --------------------------------------------------------------------------

  class LedgerObject {
    const h: Hasher
    var entries: seq<Entry>

    constructor (h: Hasher)
      ensures entries == [] && this.h == h
    {
      this.h := h;
      entries := [];
    }

    method Prepare(kind: string, payload: Payload, now: string) returns (entry: Entry)
      ensures entry == Build(h, entries, kind, payload, now)
      ensures entry.body.seqNo == |entries| && entry.body.kind == kind && entry.body.payload == payload
              && entry.body.recordedAt == now && entry.entryHash == h(EntryText(entry.body))
      ensures |entries| > 0 ==> entry.body.prevHash == entries[|entries| - 1].entryHash
      ensures |entries| == 0 ==> entry.body.prevHash.digits == "0000000000000000000000000000000000000000000000000000000000000000"
    {
        var prev := if |entries| > 0 then entries[|entries| - 1].entryHash else GENESIS_PREV_HASH;
      var body := Body(|entries|, kind, payload, now, prev);
      entry := Entry(body, h(EntryText(body)));
    }

    method AppendPrebuilt(entry: Entry)
      modifies this
      ensures entries == old(entries) + [entry]
    {
      entries := entries + [entry];
    }

    method Append(kind: string, payload: Payload, now: string) returns (entry: Entry)
      modifies this
      ensures entry == Build(h, old(entries), kind, payload, now)
      ensures entries == old(entries) + [entry]
      ensures old(ValidChain(h, entries)) ==> ValidChain(h, entries)
    {
      entry := Prepare(kind, payload, now);
      if ValidChain(h, entries) {
        BuildExtendsChain(h, entries, kind, payload, now);
      }
      entries := entries + [entry];
    }

    /** Takes every row, ascending, rows of one number in the order they came. `StableOrderIsUnique`
        says that this fixes the result. */
    method LoadEntries(rows: seq<Entry>)
      modifies this
      ensures entries == SortBySeq(rows)
      ensures Ascending(entries) && multiset(entries) == multiset(rows)
      ensures forall k :: WithSeq(entries, k) == WithSeq(rows, k)
    {
      SortBySeqIsStable(rows);
      entries := SortBySeq(rows);
    }

    /** Accepts exactly the valid chains, and otherwise reports the first faulty entry with the
        first check that entry fails. */
    method VerifyIntegrity() returns (verdict: Result<(), Tamper>)
      ensures verdict.Ok? <==> ValidChain(h, entries)
      ensures verdict.Err? ==>
                var t := verdict.error;
                && t.index < |entries| && FaultAt(h, entries, t.index) == Some(t.fault)
                && forall i :: 0 <= i < t.index ==> FaultAt(h, entries, i).None?
      // The faults in the order they are looked for.
      ensures verdict.Err? ==>
                var t, e := verdict.error, entries[verdict.error.index].body;
                && (t.fault == SequenceGap <==> e.seqNo != t.index)
                && (t.fault == BrokenLink ==>
                      e.prevHash != if t.index > 0 then entries[t.index - 1].entryHash else GENESIS_PREV_HASH)
                && (t.fault == AlteredPayload ==>
                      && e.prevHash == (if t.index > 0 then entries[t.index - 1].entryHash else GENESIS_PREV_HASH)
                      && entries[t.index].entryHash != h(EntryText(e)))
    {
      var prev := GENESIS_PREV_HASH;
      for i := 0 to |entries|
        invariant prev == HeadHash(entries[..i])
        invariant forall k :: 0 <= k < i ==> FaultAt(h, entries, k).None?
      {
        var e := entries[i];
        ghost var fault := FaultAt(h, entries, i);
        if e.body.seqNo != i {
          return Err(Tamper(i, SequenceGap));
        }
        if e.body.prevHash != prev {
          return Err(Tamper(i, BrokenLink));
        }
        if h(EntryText(e.body)) != e.entryHash {
          return Err(Tamper(i, AlteredPayload));
        }
        prev := e.entryHash;
      }
      return Ok(());
    }

    method VerifyAgainstHead(expected: Hash) returns (ok: bool)
      ensures ok <==> ValidChain(h, entries) && HeadHash(entries) == expected
    {
      var verdict := VerifyIntegrity();
      ok := verdict.Ok? && HeadHash(entries) == expected;
    }
  }
}
