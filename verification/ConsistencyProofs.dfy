/** Consistency proofs of section 2.1.2 of RFC 6962: the generator of `translog.go` and the verifier
    that walks the same recursion. */
module ConsistencyProofs {
  import opened Hashing
  import opened MerkleTree

  datatype Verdict =
    | Accepted | BadSizes | NotEmpty | DifferentRoots
    | TooShort | Unused(count: nat) | OldRootMismatch | NewRootMismatch

  function Consistency(h: Hash, hs: seq<Digest>, lo: nat, n: nat, m: nat, isRoot: bool): (proof: seq<Digest>)
    requires lo + n <= |hs| && 1 <= m <= n
    decreases n, hs
  {
    if m == n then
      if isRoot then [] else [Root(h, hs, lo, n)]
    else
      var k := Split(n);
      if m <= k then Consistency(h, hs, lo, k, m, isRoot) + [Root(h, hs, lo + k, n - k)]
      else Consistency(h, hs, lo + k, n - k, m - k, false) + [Root(h, hs, lo, k)]
  }

  function ConsistencyProof(h: Hash, hs: seq<Digest>, m: nat, n: nat): (proof: seq<Digest>)
    requires m <= n <= |hs|
  {
    if m == 0 || m == n then [] else Consistency(h, hs, 0, n, m, true)
  }

  datatype Walk = Short | Walked(before: Digest, after: Digest, rest: seq<Digest>)

  function Consume(h: Hash, m: nat, n: nat, isRoot: bool, proof: seq<Digest>, oldRoot: Digest): (w: Walk)
    requires 1 <= m <= n
    decreases n, proof
  {
    if m == n then
      if isRoot then Walked(oldRoot, oldRoot, proof)
      else if |proof| == 0 then Short
      else Walked(proof[0], proof[0], proof[1..])
    else
      var k := Split(n);
      if m <= k then
        match Consume(h, m, k, isRoot, proof, oldRoot)
        case Short => Short
        case Walked(o, u, rest) =>
          if |rest| == 0 then Short else Walked(o, HashNode(h, u, rest[0]), rest[1..])
      else
        match Consume(h, m - k, n - k, false, proof, oldRoot)
        case Short => Short
        case Walked(o, u, rest) =>
          if |rest| == 0 then Short
          else Walked(HashNode(h, rest[0], o), HashNode(h, rest[0], u), rest[1..])
  }

  function VerifyConsistency(h: Hash, m: int, n: int, proof: seq<Digest>, oldRoot: Digest, newRoot: Digest): Verdict {
    if m < 0 || n < m then BadSizes
    else if m == n then
      if |proof| != 0 then NotEmpty
      else if oldRoot != newRoot then DifferentRoots
      else Accepted
    else if m == 0 then Accepted
    else
      match Consume(h, m, n, true, proof, oldRoot)
      case Short => TooShort
      case Walked(gotOld, gotNew, rest) =>
        if |rest| != 0 then Unused(|rest|)
        else if gotOld != oldRoot then OldRootMismatch
        else if gotNew != newRoot then NewRootMismatch
        else Accepted
  }

  /** Where there is nothing to walk: sizes that are no prefix are refused, one size needs an empty proof and
      equal roots, and a head of size zero is a prefix of everything. */
  lemma TrivialSizes(h: Hash, m: int, n: int, proof: seq<Digest>, oldRoot: Digest, newRoot: Digest)
    ensures var v := VerifyConsistency(h, m, n, proof, oldRoot, newRoot);
            && (v == BadSizes <==> m < 0 || n < m)
            && (0 <= m == n ==> (v == Accepted <==> proof == [] && oldRoot == newRoot))
            && (0 == m < n ==> v == Accepted)
  {
  }

  // ----- completeness ------------------------------------------------------------------------

  /** The walk over a generated proof rebuilds both roots and leaves exactly what followed it. */
  lemma {:induction false} WalkOverGenerated(h: Hash, hs: seq<Digest>, lo: nat, n: nat, m: nat, isRoot: bool,
        tail: seq<Digest>, oldRoot: Digest)
    requires lo + n <= |hs| && 1 <= m <= n
    requires isRoot ==> oldRoot == Root(h, hs, lo, m)
    ensures Consume(h, m, n, isRoot, Consistency(h, hs, lo, n, m, isRoot) + tail, oldRoot)
         == Walked(Root(h, hs, lo, m), Root(h, hs, lo, n), tail)
    decreases n
  {
    hide Split, HashNode;
    if m == n {
      assert Consistency(h, hs, lo, n, m, isRoot) + tail == if isRoot then tail else [Root(h, hs, lo, n)] + tail;
    } else {
      var k := Split(n);
      if m <= k {
        var last := Root(h, hs, lo + k, n - k);
        WalkOverGenerated(h, hs, lo, k, m, isRoot, [last] + tail, oldRoot);
        Regroup(Consistency(h, hs, lo, k, m, isRoot), last, tail);
      } else {
        var last := Root(h, hs, lo, k);
        WalkOverGenerated(h, hs, lo + k, n - k, m - k, false, [last] + tail, oldRoot);
        Regroup(Consistency(h, hs, lo + k, n - k, m - k, false), last, tail);
        RootOfLongPrefix(h, hs, lo, n, m);
      }
    }
  }

  lemma Regroup(proof: seq<Digest>, last: Digest, tail: seq<Digest>)
    ensures (proof + [last]) + tail == proof + ([last] + tail)
    ensures ([last] + tail)[0] == last && ([last] + tail)[1..] == tail
  {
  }

  lemma {:induction false} ConsistencyLength(h: Hash, hs: seq<Digest>, lo: nat, n: nat, m: nat, isRoot: bool)
    requires lo + n <= |hs| && 1 <= m <= n
    ensures |Consistency(h, hs, lo, n, m, isRoot)| <= CeilLog2(n) + 1
    decreases n
  {
    hide Split;
    if m < n {
      var k := Split(n);
      CeilLog2OfSplit(n);
      if m <= k {
        ConsistencyLength(h, hs, lo, k, m, isRoot);
      } else {
        ConsistencyLength(h, hs, lo + k, n - k, m - k, false);
      }
    }
  }

  /** For every log and every pair of sizes the generated proof is accepted, with no hash left
      over, and has at most ceil(log2 n) + 1 hashes. */
  lemma ConsistencyComplete(h: Hash, hs: seq<Digest>, m: nat, n: nat)
    requires m <= n <= |hs|
    ensures VerifyConsistency(h, m, n, ConsistencyProof(h, hs, m, n), Root(h, hs, 0, m), Root(h, hs, 0, n)) == Accepted
    ensures |ConsistencyProof(h, hs, m, n)| <= CeilLog2(n) + 1
  {
    if 0 < m < n {
      var proof := Consistency(h, hs, 0, n, m, true);
      WalkOverGenerated(h, hs, 0, n, m, true, [], Root(h, hs, 0, m));
      assert proof + [] == proof;
      ConsistencyLength(h, hs, 0, n, m, true);
    }
  }

  // ----- soundness ---------------------------------------------------------------------------

  // The walk rebuilt the true old root, and used exactly the generated proof.
  predicate WalkIsTrue(h: Hash, hs: seq<Digest>, lo: nat, n: nat, m: nat, isRoot: bool, proof: seq<Digest>, w: Walk)
    requires lo + n <= |hs| && 1 <= m <= n
  {
    w.Walked? && w.before == Root(h, hs, lo, m) && proof == Consistency(h, hs, lo, n, m, isRoot) + w.rest
  }

  lemma {:induction false} WalkIsWide(h: Hash, m: nat, n: nat, isRoot: bool, proof: seq<Digest>, oldRoot: Digest)
    requires IsWide(h) && IsDigest(oldRoot) && AllDigests(proof) && 1 <= m <= n
    ensures var w := Consume(h, m, n, isRoot, proof, oldRoot);
            w.Walked? ==> IsDigest(w.before) && IsDigest(w.after) && AllDigests(w.rest)
    decreases n
  {
    hide Split;
    if m < n {
      var k := Split(n);
      if m <= k {
        WalkIsWide(h, m, k, isRoot, proof, oldRoot);
      } else {
        WalkIsWide(h, m - k, n - k, false, proof, oldRoot);
      }
    }
  }

  // One step down to the left: the walk below arrives at the true left root, or a node is forged.
  lemma LeftStep(h: Hash, hs: seq<Digest>, lo: nat, n: nat, m: nat, isRoot: bool, proof: seq<Digest>, oldRoot: Digest)
    returns (f: Forgery)
    requires IsWide(h) && IsDigest(oldRoot) && AllDigests(proof)
    requires lo + n <= |hs| && 1 <= m < n && m <= Split(n)
    requires var w := Consume(h, m, n, isRoot, proof, oldRoot); w.Walked? && w.after == Root(h, hs, lo, n)
    ensures var below := Consume(h, m, Split(n), isRoot, proof, oldRoot);
            || ForgesNode(h, hs, f)
            || (below.Walked? && |below.rest| > 0 && below.after == Root(h, hs, lo, Split(n))
                && below.rest[0] == Root(h, hs, lo + Split(n), n - Split(n)))
  {
    hide Split, IsWide, IsDigest, AllDigests, IsInput;
    var k := Split(n);
    var below := Consume(h, m, k, isRoot, proof, oldRoot);
    WalkIsWide(h, m, k, isRoot, proof, oldRoot);
    f := Forgery(lo, n, Node(below.after, below.rest[0]));
    WideNode(below.after, below.rest);
  }

  lemma RightStep(h: Hash, hs: seq<Digest>, lo: nat, n: nat, m: nat, isRoot: bool, proof: seq<Digest>, oldRoot: Digest)
    returns (f: Forgery)
    requires IsWide(h) && IsDigest(oldRoot) && AllDigests(proof)
    requires lo + n <= |hs| && 1 <= m < n && m > Split(n)
    requires var w := Consume(h, m, n, isRoot, proof, oldRoot); w.Walked? && w.after == Root(h, hs, lo, n)
    ensures var k := Split(n);
            var below := Consume(h, m - k, n - k, false, proof, oldRoot);
            || ForgesNode(h, hs, f)
            || (below.Walked? && |below.rest| > 0 && below.after == Root(h, hs, lo + k, n - k)
                && below.rest[0] == Root(h, hs, lo, k))
  {
    hide Split, IsWide, IsDigest, AllDigests, IsInput;
    var k := Split(n);
    var below := Consume(h, m - k, n - k, false, proof, oldRoot);
    WalkIsWide(h, m - k, n - k, false, proof, oldRoot);
    f := Forgery(lo, n, Node(below.rest[0], below.after));
    WideNode(below.after, below.rest);
  }

  lemma WideNode(d: Digest, rest: seq<Digest>)
    requires IsDigest(d) && AllDigests(rest) && |rest| > 0
    ensures IsInput(Node(d, rest[0])) && IsInput(Node(rest[0], d))
  {
  }

  /** If the walk arrives at the true new root, then the old root it rebuilt is the root of the
      first m leaves and the hashes it used are the generated proof, or a node is forged. */
  lemma {:induction false} WalkSound(h: Hash, hs: seq<Digest>, lo: nat, n: nat, m: nat, isRoot: bool,
        proof: seq<Digest>, oldRoot: Digest)
    returns (f: Forgery)
    requires IsWide(h) && IsDigest(oldRoot) && AllDigests(proof)
    requires lo + n <= |hs| && 1 <= m <= n
    requires var w := Consume(h, m, n, isRoot, proof, oldRoot); w.Walked? && w.after == Root(h, hs, lo, n)
    ensures WalkIsTrue(h, hs, lo, n, m, isRoot, proof, Consume(h, m, n, isRoot, proof, oldRoot)) || ForgesNode(h, hs, f)
    decreases n
  {
    hide Split, Consistency, WalkIsTrue, ForgesNode, IsWide, IsDigest, AllDigests, Root;
    f := Forgery(0, 0, Nothing);
    if m == n {
      TrueAtTheEnd(h, hs, lo, n, isRoot, proof, oldRoot);
    } else {
      var k := Split(n);
      if m <= k {
        f := LeftStep(h, hs, lo, n, m, isRoot, proof, oldRoot);
        if !ForgesNode(h, hs, f) {
          f := WalkSound(h, hs, lo, k, m, isRoot, proof, oldRoot);
          if !ForgesNode(h, hs, f) {
            TrueToTheLeft(h, hs, lo, n, m, isRoot, proof, oldRoot);
          }
        }
      } else {
        f := RightStep(h, hs, lo, n, m, isRoot, proof, oldRoot);
        if !ForgesNode(h, hs, f) {
          f := WalkSound(h, hs, lo + k, n - k, m - k, false, proof, oldRoot);
          if !ForgesNode(h, hs, f) {
            TrueToTheRight(h, hs, lo, n, m, isRoot, proof, oldRoot);
          }
        }
      }
    }
  }

  lemma TrueAtTheEnd(h: Hash, hs: seq<Digest>, lo: nat, n: nat, isRoot: bool, proof: seq<Digest>, oldRoot: Digest)
    requires lo + n <= |hs| && 1 <= n
    requires var w := Consume(h, n, n, isRoot, proof, oldRoot); w.Walked? && w.after == Root(h, hs, lo, n)
    ensures WalkIsTrue(h, hs, lo, n, n, isRoot, proof, Consume(h, n, n, isRoot, proof, oldRoot))
  {
    hide Split, Root;
    assert proof == if isRoot then [] + proof else [proof[0]] + proof[1..];
  }

  lemma TrueToTheLeft(h: Hash, hs: seq<Digest>, lo: nat, n: nat, m: nat, isRoot: bool, proof: seq<Digest>,
        oldRoot: Digest)
    requires lo + n <= |hs| && 1 <= m < n && m <= Split(n)
    requires var w := Consume(h, m, Split(n), isRoot, proof, oldRoot);
             && WalkIsTrue(h, hs, lo, Split(n), m, isRoot, proof, w)
             && |w.rest| > 0 && w.rest[0] == Root(h, hs, lo + Split(n), n - Split(n))
    ensures WalkIsTrue(h, hs, lo, n, m, isRoot, proof, Consume(h, m, n, isRoot, proof, oldRoot))
  {
  }

  lemma TrueToTheRight(h: Hash, hs: seq<Digest>, lo: nat, n: nat, m: nat, isRoot: bool, proof: seq<Digest>,
        oldRoot: Digest)
    requires lo + n <= |hs| && 1 < n && Split(n) < m < n
    requires var w := Consume(h, m - Split(n), n - Split(n), false, proof, oldRoot);
             && WalkIsTrue(h, hs, lo + Split(n), n - Split(n), m - Split(n), false, proof, w)
             && |w.rest| > 0 && w.rest[0] == Root(h, hs, lo, Split(n))
    ensures WalkIsTrue(h, hs, lo, n, m, isRoot, proof, Consume(h, m, n, isRoot, proof, oldRoot))
  {
    hide Split, Root;
    var k := Split(n);
    var w := Consume(h, m - k, n - k, false, proof, oldRoot);
    RootOfLongPrefix(h, hs, lo, n, m);
    PeelLast(proof, Consistency(h, hs, lo + k, n - k, m - k, false), w.rest);
  }

  lemma PeelLast(proof: seq<Digest>, used: seq<Digest>, rest: seq<Digest>)
    requires |rest| > 0
    ensures proof == used + rest ==> proof == (used + [rest[0]]) + rest[1..]
  {
    assert rest == [rest[0]] + rest[1..];
    assert used + ([rest[0]] + rest[1..]) == (used + [rest[0]]) + rest[1..];
  }

  /** Accepted, with hashes of full width, against the true root of n leaves, for 1 <= m <= n: the old
      root is the root of the first m of those leaves and the proof is the generated one, or two
      different byte strings with one hash are at hand, one of them hashed for a node of the tree. */
  lemma ConsistencySound(sha: Bytes -> Digest, hs: seq<Digest>, m: nat, n: nat, proof: seq<Digest>, oldRoot: Digest)
    returns (f: Forgery)
    requires IsWideSha(sha) && AllDigests(hs) && AllDigests(proof) && IsDigest(oldRoot)
    requires 1 <= m <= n <= |hs|
    requires var h := HashWith(sha); VerifyConsistency(h, m, n, proof, oldRoot, Root(h, hs, 0, n)) == Accepted
    ensures var h := HashWith(sha);
            (oldRoot == Root(h, hs, 0, m) && proof == ConsistencyProof(h, hs, m, n)) || BreaksNode(sha, hs, f)
  {
    hide BreaksNode;
    var h := HashWith(sha);
    WideShaHashesWide(sha);
    f := ConsistentOrForged(h, hs, m, n, proof, oldRoot);
    if ForgesNode(h, hs, f) {
      ForgedNodeOnBytes(sha, hs, f);
    }
  }

  lemma ConsistentOrForged(h: Hash, hs: seq<Digest>, m: nat, n: nat, proof: seq<Digest>, oldRoot: Digest)
    returns (f: Forgery)
    requires IsWide(h) && AllDigests(proof) && IsDigest(oldRoot)
    requires 1 <= m <= n <= |hs|
    requires VerifyConsistency(h, m, n, proof, oldRoot, Root(h, hs, 0, n)) == Accepted
    ensures (oldRoot == Root(h, hs, 0, m) && proof == ConsistencyProof(h, hs, m, n)) || ForgesNode(h, hs, f)
  {
    f := Forgery(0, 0, Nothing);
    if m < n {
      f := WalkSound(h, hs, 0, n, m, true, proof, oldRoot);
      assert Consistency(h, hs, 0, n, m, true) + [] == Consistency(h, hs, 0, n, m, true);
    }
  }

  /** The width guard is needed here too. For every hash function and every log of two entries there are
      an old root of 31 bytes, said to be that of the first entry, and a proof hash of 33 that the
      verifier accepts: the two true leaf hashes, split in another place. */
  lemma UnevenOldRootIsAccepted(sha: Bytes -> Digest, hs: seq<Digest>) returns (oldRoot: Digest, p: Digest)
    requires IsWideSha(sha) && |hs| == 2 && AllDigests(hs)
    ensures var h := HashWith(sha);
            && oldRoot != Root(h, hs, 0, 1) && !IsDigest(oldRoot) && !IsDigest(p)
            && VerifyConsistency(h, 1, 2, [p], oldRoot, Root(h, hs, 0, 2)) == Accepted
  {
    var h := HashWith(sha);
    oldRoot, p := UnevenSplit(hs[0], hs[1]);
    assert Split(2) == 1;
    assert Root(h, hs, 0, 2) == HashNode(h, Root(h, hs, 0, 1), Root(h, hs, 1, 1)) == HashNode(h, hs[0], hs[1]);
    assert Consume(h, 1, 1, true, [p], oldRoot) == Walked(oldRoot, oldRoot, [p]);
    assert Consume(h, 1, 2, true, [p], oldRoot) == Walked(oldRoot, HashNode(h, oldRoot, p), []);
  }

  /** The bound m >= 1 is needed. Against a larger tree size zero is accepted with any old root,
      any new root and any proof at all, unused hashes included. */
  lemma SizeZeroAcceptsAnything(h: Hash, m: int, n: int)
    ensures (forall proof: seq<Digest>, oldRoot: Digest, newRoot: Digest ::
               VerifyConsistency(h, m, n, proof, oldRoot, newRoot) == Accepted)
       <==> m == 0 && n > 0
  {
    var zero := Digest([]);
    if m < 0 || n < m {
      assert VerifyConsistency(h, m, n, [], zero, zero) == BadSizes;
    } else if 1 <= m < n {
      var long := seq(n + 1, _ => zero);
      WalkIsShort(h, m, n, true, long, zero);
      assert VerifyConsistency(h, m, n, long, zero, zero) != Accepted;
    } else if m == n {
      assert VerifyConsistency(h, m, n, [zero], zero, zero) == NotEmpty;
    }
  }

  // A walk uses at most n hashes.
  lemma {:induction false} WalkIsShort(h: Hash, m: nat, n: nat, isRoot: bool, proof: seq<Digest>, oldRoot: Digest)
    requires 1 <= m <= n
    ensures var w := Consume(h, m, n, isRoot, proof, oldRoot); w.Walked? ==> |proof| <= |w.rest| + n
    decreases n
  {
    hide Split;
    if m < n {
      var k := Split(n);
      if m <= k {
        WalkIsShort(h, m, k, isRoot, proof, oldRoot);
      } else {
        WalkIsShort(h, m - k, n - k, false, proof, oldRoot);
      }
    }
  }

  // ----- what an auditor concludes -----------------------------------------------------------

  /** An auditor who saw the entries `seen` behind an old head of claimed size m >= 1, and accepts a
      consistency proof towards a log holding `data`, knows that `seen` is exactly the first m
      entries of that log: nothing was rewritten, inserted or dropped. */
  lemma AcceptedHistoryIsAPrefix(sha: Bytes -> Digest, data: seq<Bytes>, seen: seq<Bytes>, m: nat, proof: seq<Digest>)
    returns (f: Forgery)
    requires IsWideSha(sha) && AllDigests(proof) && 1 <= m <= |data|
    requires var h := HashWith(sha);
             VerifyConsistency(h, m, |data|, proof, LogRoot(h, seen), LogRoot(h, data)) == Accepted
    ensures seen == data[..m] || BreaksView(sha, data, f)
  {
    hide BreaksView, Root;
    var h := HashWith(sha);
    var hs := Leaves(h, data);
    WideShaHashesWide(sha);
    LeavesAreWide(h, seen);
    RootIsWide(h, Leaves(h, seen), 0, |seen|);
    f := ConsistentOrForged(h, hs, m, |data|, proof, LogRoot(h, seen));
    if LogRoot(h, seen) == Root(h, hs, 0, m) {
      f := RootBindsView(h, seen, 0, |seen|, data, 0, m);
      assert seen[0..|seen|] == seen && data[0..m] == data[..m];
    }
    if ForgesView(h, data, f) {
      ForgedViewOnBytes(sha, data, f);
    }
  }
}
