/** Inclusion proofs: the recursive generator of `translog.go` against its iterative verifier.

    The generator recurses on the split point. The verifier never sees a tree: it shifts the leaf
    index `fn` and the last index `sn` to the right and reads off on which side each sibling lies.
    The two meet in the list of sides, leaf first: `Sides` computes it from the tree, `ShiftSides`
    from the two indices. */
module InclusionProofs {
  import opened Hashing
  import opened MerkleTree

  datatype Verdict = Accepted | OutsideTree | TooLong | TooShort | RootMismatch

  // true: the sibling is on the left
  type Side = bool

  function Sides(index: nat, n: nat): (sides: seq<Side>)
    requires index < n
    ensures n > 1 ==> |sides| > 0
    decreases n, index
  {
    if n == 1 then []
    else
      var k := Split(n);
      if index < k then Sides(index, k) + [false] else Sides(index - k, n - k) + [true]
  }

  lemma {:induction false} SidesAreFew(index: nat, n: nat)
    requires index < n
    ensures |Sides(index, n)| <= CeilLog2(n)
    decreases n
  {
    hide Split;
    if n > 1 {
      CeilLog2OfSplit(n);
      var k := Split(n);
      if index < k {
        SidesAreFew(index, k);
      } else {
        SidesAreFew(index - k, n - k);
      }
    }
  }

  function Climb(h: Hash, computed: Digest, sides: seq<Side>, proof: seq<Digest>): Digest
    requires |sides| == |proof|
    decreases |sides|
  {
    if |sides| == 0 then computed
    else
      var parent := if sides[0] then HashNode(h, proof[0], computed)
                    else HashNode(h, computed, proof[0]);
      Climb(h, parent, sides[1..], proof[1..])
  }

  function Judge(h: Hash, computed: Digest, sides: seq<Side>, proof: seq<Digest>, root: Digest): Verdict {
    if |sides| < |proof| then TooLong
    else if |proof| < |sides| then TooShort
    else if Climb(h, computed, sides, proof) == root then Accepted
    else RootMismatch
  }

  /** What the verifier must answer, stated over the tree the proof claims to come from. */
  function InclusionVerdict(h: Hash, leafHash: Digest, index: int, size: int, proof: seq<Digest>,
        root: Digest): Verdict {
    if index < 0 || size < 0 || index >= size then OutsideTree
    else Judge(h, leafHash, Sides(index, size), proof, root)
  }

  // ----- the shifting loop -------------------------------------------------------------------

  /** The sides that the shifting loop reads off. When `fn == sn` is even and not zero both are
      shifted without using up a proof hash. */
  function ShiftSides(fn: nat, sn: nat): (sides: seq<Side>)
    requires fn <= sn
    ensures sn > 0 <==> |sides| > 0
  {
    if sn == 0 then []
    else if fn % 2 == 1 then [true] + ShiftSides(fn / 2, sn / 2)
    else if fn == sn then ShiftSides(fn / 2, sn / 2)
    else [false] + ShiftSides(fn / 2, sn / 2)
  }

  /** Below a full subtree of size k both views read the binary digits of the index. */
  lemma {:induction false} ShiftSidesOfLeftPart(fn: nat, sn: nat, k: nat)
    requires IsPowerOfTwo(k) && fn < k <= sn < 2 * k
    ensures ShiftSides(fn, sn) == ShiftSides(fn, k - 1) + [false]
  {
    if k == 1 {
      assert ShiftSides(0, 1) == [false] + ShiftSides(0, 0);
      assert ShiftSides(0, 0) == [];
    } else {
      ShiftSidesOfLeftPart(fn / 2, sn / 2, k / 2);
      assert (k - 1) / 2 == k / 2 - 1;
      if fn % 2 == 1 {
      } else {
        assert fn != k - 1;
      }
    }
  }

  /** Setting the top bit of both indices appends one left sibling at the root end. */
  lemma {:induction false} ShiftSidesOfRightPart(fn: nat, sn: nat, k: nat)
    requires IsPowerOfTwo(k) && fn <= sn < k
    ensures ShiftSides(fn + k, sn + k) == ShiftSides(fn, sn) + [true]
  {
    if k == 1 {
      assert ShiftSides(1, 1) == [true] + ShiftSides(0, 0);
      assert ShiftSides(0, 0) == [];
    } else {
      ShiftSidesOfRightPart(fn / 2, sn / 2, k / 2);
      assert (fn + k) / 2 == fn / 2 + k / 2 && (sn + k) / 2 == sn / 2 + k / 2;
      assert (fn + k) % 2 == fn % 2;
      if sn == 0 {
        assert ShiftSides(k, k) == ShiftSides(k / 2, k / 2);
      }
    }
  }

  /** The loop and the recursion agree on every tree, ragged or not. */
  lemma {:induction false} ShiftSidesMatchTree(index: nat, n: nat)
    requires index < n
    ensures ShiftSides(index, n - 1) == Sides(index, n)
    decreases n
  {
    hide Split, IsPowerOfTwo, ShiftSides;
    if n > 1 {
      var k := Split(n);
      SplitIsTheLargestPower(n);
      if index < k {
        ShiftSidesOfLeftPart(index, n - 1, k);
        ShiftSidesMatchTree(index, k);
      } else {
        ShiftSidesOfRightPart(index - k, n - 1 - k, k);
        ShiftSidesMatchTree(index - k, n - k);
      }
    }
  }

  method VerifyInclusion(h: Hash, leafHash: Digest, index: int, size: int, proof: seq<Digest>, root: Digest)
    returns (verdict: Verdict)
    ensures verdict == InclusionVerdict(h, leafHash, index, size, proof, root)
    ensures verdict == OutsideTree <==> index < 0 || index >= size
    ensures verdict == TooLong <==> 0 <= index < size && |proof| > |Sides(index, size)|
    ensures verdict == TooShort <==> 0 <= index < size && |proof| < |Sides(index, size)|
  {
    if index < 0 || size < 0 || index >= size {
      return OutsideTree;
    }
    ShiftSidesMatchTree(index, size);
    var computed := leafHash;
    var fn: nat, sn: nat := index, size - 1;
    var used := 0;
    while used < |proof|
      invariant 0 <= used <= |proof| && fn <= sn
      invariant Judge(h, computed, ShiftSides(fn, sn), proof[used..], root)
             == Judge(h, leafHash, Sides(index, size), proof, root)
    {
      var p := proof[used];
      if sn == 0 {
        return TooLong;
      }
      ghost var sides := ShiftSides(fn, sn);
      if fn % 2 == 1 || fn == sn {
        computed := HashNode(h, p, computed);
        if fn % 2 == 0 {
          while fn != 0 && fn % 2 == 0
            invariant 0 < fn == sn && ShiftSides(fn, sn) == sides
          {
            fn, sn := fn / 2, sn / 2;
          }
        }
      } else {
        computed := HashNode(h, computed, p);
      }
      fn, sn := fn / 2, sn / 2;
      assert sides[1..] == ShiftSides(fn, sn);
      assert proof[used..][1..] == proof[used + 1..];
      used := used + 1;
    }
    if sn != 0 {
      return TooShort;
    }
    return if computed == root then Accepted else RootMismatch;
  }

  // ----- completeness ------------------------------------------------------------------------

  lemma {:induction false} ClimbOneMore(h: Hash, start: Digest, sides: seq<Side>, proof: seq<Digest>, side: Side,
        p: Digest)
    requires |sides| == |proof|
    ensures Climb(h, start, sides + [side], proof + [p]) ==
            var below := Climb(h, start, sides, proof);
            if side then HashNode(h, p, below) else HashNode(h, below, p)
    decreases |sides|
  {
    if |sides| > 0 {
      var parent := if sides[0] then HashNode(h, proof[0], start) else HashNode(h, start, proof[0]);
      ClimbOneMore(h, parent, sides[1..], proof[1..], side, p);
      assert (sides + [side])[1..] == sides[1..] + [side];
      assert (proof + [p])[1..] == proof[1..] + [p];
    } else {
      assert (sides + [side])[1..] == [] && (proof + [p])[1..] == [];
    }
  }

  lemma {:induction false} PathClimbsToRoot(h: Hash, hs: seq<Digest>, lo: nat, n: nat, index: nat)
    requires lo + n <= |hs| && index < n
    ensures |Inclusion(h, hs, lo, n, index)| == |Sides(index, n)|
    ensures Climb(h, hs[lo + index], Sides(index, n), Inclusion(h, hs, lo, n, index)) == Root(h, hs, lo, n)
    decreases n
  {
    hide Split, HashNode;
    if n > 1 {
      var k := Split(n);
      if index < k {
        var sides, path, right := Sides(index, k), Inclusion(h, hs, lo, k, index), Root(h, hs, lo + k, n - k);
        PathClimbsToRoot(h, hs, lo, k, index);
        assert Sides(index, n) == sides + [false];
        ClimbOneMore(h, hs[lo + index], sides, path, false, right);
      } else {
        var sides, path, left := Sides(index - k, n - k), Inclusion(h, hs, lo + k, n - k, index - k), Root(h, hs, lo, k);
        PathClimbsToRoot(h, hs, lo + k, n - k, index - k);
        assert Sides(index, n) == sides + [true];
        ClimbOneMore(h, hs[lo + index], sides, path, true, left);
      }
    }
  }

  /** Every audit path is accepted for its own leaf, whatever the size of the tree, and is no
      longer than the tree is deep. */
  lemma InclusionComplete(h: Hash, hs: seq<Digest>, n: nat, index: nat)
    requires index < n <= |hs|
    ensures InclusionVerdict(h, hs[index], index, n, Inclusion(h, hs, 0, n, index), Root(h, hs, 0, n)) == Accepted
    ensures |Inclusion(h, hs, 0, n, index)| <= CeilLog2(n)
  {
    PathClimbsToRoot(h, hs, 0, n, index);
    SidesAreFew(index, n);
  }

  // ----- soundness ---------------------------------------------------------------------------

  lemma {:induction false} ClimbIsWide(h: Hash, computed: Digest, sides: seq<Side>, proof: seq<Digest>)
    requires IsWide(h) && IsDigest(computed) && |sides| == |proof|
    ensures IsDigest(Climb(h, computed, sides, proof))
    decreases |sides|
  {
    if |sides| > 0 {
      var parent := if sides[0] then HashNode(h, proof[0], computed) else HashNode(h, computed, proof[0]);
      ClimbIsWide(h, parent, sides[1..], proof[1..]);
    }
  }

  // The last turn of a climb, and what was hashed for it.
  lemma ClimbPeels(h: Hash, leafHash: Digest, sides: seq<Side>, side: Side, proof: seq<Digest>)
    requires IsWide(h) && IsDigest(leafHash) && AllDigests(proof) && |proof| == |sides| + 1
    ensures var p, rest := proof[|sides|], proof[..|sides|];
            var below := Climb(h, leafHash, sides, rest);
            && proof == rest + [p] && AllDigests(rest) && IsInput(Node(below, p)) && IsInput(Node(p, below))
            && Climb(h, leafHash, sides + [side], proof) == h(if side then Node(p, below) else Node(below, p))
  {
    hide Climb;
    var p, rest := proof[|sides|], proof[..|sides|];
    assert proof == rest + [p];
    ClimbIsWide(h, leafHash, sides, rest);
    ClimbOneMore(h, leafHash, sides, rest, side, p);
  }

  // One step down: at the root of the view the proof hashed the two true subtree roots, or forged them.
  lemma ClimbSoundAtRoot(h: Hash, hs: seq<Digest>, lo: nat, n: nat, leafHash: Digest, sides: seq<Side>, right: bool,
        proof: seq<Digest>)
    returns (f: Forgery)
    requires IsWide(h) && IsDigest(leafHash) && AllDigests(proof)
    requires lo + n <= |hs| && n > 1 && |proof| == |sides| + 1
    requires Climb(h, leafHash, sides + [right], proof) == Root(h, hs, lo, n)
    ensures var k, last := Split(n), |proof| - 1;
            var below := Climb(h, leafHash, sides, proof[..last]);
            || ForgesNode(h, hs, f)
            || (if right then proof[last] == Root(h, hs, lo, k) && below == Root(h, hs, lo + k, n - k)
                else below == Root(h, hs, lo, k) && proof[last] == Root(h, hs, lo + k, n - k))
  {
    hide Split, IsWide, IsDigest, AllDigests, IsInput, Climb;
    ClimbPeels(h, leafHash, sides, right, proof);
    var last := |proof| - 1;
    var below := Climb(h, leafHash, sides, proof[..last]);
    f := Forgery(lo, n, if right then Node(proof[last], below) else Node(below, proof[last]));
  }

  /** Descends from the root as long as the accepted proof and the true tree hashed the same
      inputs: a proof of the right length and width that climbs to the true root starts at the true
      leaf and is, hash for hash, the generated audit path, or else it forges a node of the tree. */
  lemma {:induction false} ClimbSound(h: Hash, hs: seq<Digest>, lo: nat, n: nat, leafHash: Digest, index: nat,
        proof: seq<Digest>)
    returns (f: Forgery)
    requires IsWide(h) && IsDigest(leafHash) && AllDigests(proof)
    requires lo + n <= |hs| && index < n && |proof| == |Sides(index, n)|
    requires Climb(h, leafHash, Sides(index, n), proof) == Root(h, hs, lo, n)
    ensures (leafHash == hs[lo + index] && proof == Inclusion(h, hs, lo, n, index)) || ForgesNode(h, hs, f)
    decreases n
  {
    hide Split, IsWide, IsDigest, IsInput, ForgesNode;
    f := Forgery(0, 0, Nothing);
    if n > 1 {
      hide Climb, Root;
      var k, last := Split(n), |proof| - 1;
      var rest := proof[..last];
      assert proof == rest + [proof[last]];
      if index < k {
        f := ClimbSoundAtRoot(h, hs, lo, n, leafHash, Sides(index, k), false, proof);
        if !ForgesNode(h, hs, f) {
          f := ClimbSound(h, hs, lo, k, leafHash, index, rest);
        }
      } else {
        f := ClimbSoundAtRoot(h, hs, lo, n, leafHash, Sides(index - k, n - k), true, proof);
        if !ForgesNode(h, hs, f) {
          f := ClimbSound(h, hs, lo + k, n - k, leafHash, index - k, rest);
        }
      }
    } else {
      assert proof == [];
    }
  }

  /** The verifier, given hashes of full width, accepts against the true root only the true leaf with
      its own audit path, or else the proof gives two different byte strings with one hash: one of them
      is what was hashed for a node of the tree. */
  lemma InclusionSound(sha: Bytes -> Digest, hs: seq<Digest>, n: nat, leafHash: Digest, index: nat, proof: seq<Digest>)
    returns (f: Forgery)
    requires IsWideSha(sha) && AllDigests(hs) && IsDigest(leafHash) && AllDigests(proof)
    requires index < n <= |hs|
    requires var h := HashWith(sha);
             InclusionVerdict(h, leafHash, index, n, proof, Root(h, hs, 0, n)) == Accepted
    ensures (leafHash == hs[index] && proof == Inclusion(HashWith(sha), hs, 0, n, index)) || BreaksNode(sha, hs, f)
  {
    hide BreaksNode;
    var h := HashWith(sha);
    WideShaHashesWide(sha);
    f := ClimbSound(h, hs, 0, n, leafHash, index, proof);
    if ForgesNode(h, hs, f) {
      ForgedNodeOnBytes(sha, hs, f);
    }
  }

  /** The width guard is needed. For every hash function and every log of two entries there are a leaf
      hash of 31 bytes and a proof hash of 33 that the verifier accepts: they are the two true leaf
      hashes, split in another place, so no hash is broken. */
  lemma UnevenSplitIsAccepted(sha: Bytes -> Digest, hs: seq<Digest>) returns (leafHash: Digest, p: Digest)
    requires IsWideSha(sha) && |hs| == 2 && AllDigests(hs)
    ensures var h := HashWith(sha);
            && leafHash != hs[0] && !IsDigest(leafHash) && !IsDigest(p)
            && InclusionVerdict(h, leafHash, 0, 2, [p], Root(h, hs, 0, 2)) == Accepted
            && Encode(Node(leafHash, p)) == Encode(Node(hs[0], hs[1]))
  {
    var h := HashWith(sha);
    leafHash, p := UnevenSplit(hs[0], hs[1]);
    hide Encode;
    assert Split(2) == 1 && Sides(0, 1) == [] && Sides(0, 2) == [false];
    assert Root(h, hs, 0, 2) == HashNode(h, Root(h, hs, 0, 1), Root(h, hs, 1, 1)) == HashNode(h, hs[0], hs[1]);
    assert Climb(h, leafHash, [false], [p]) == HashNode(h, leafHash, p);
  }

  // ----- receipts with a position of their own ----------------------------------------------------

  /** From a leaf hash up to the root of a view by any turns at all: the leaf is an entry of the view. */
  lemma {:induction false} ClimbFromEntry(h: Hash, data: seq<Bytes>, lo: nat, n: nat, entry: Bytes, sides: seq<Side>,
        proof: seq<Digest>)
    returns (f: Forgery)
    requires IsWide(h) && AllDigests(proof) && lo + n <= |data| && |proof| == |sides|
    requires Climb(h, HashLeaf(h, entry), sides, proof) == Root(h, Leaves(h, data), lo, n)
    ensures entry in data[lo..lo + n] || ForgesView(h, data, f)
    decreases |sides|
  {
    hide Split, InputOf, Root;
    var leafHash := HashLeaf(h, entry);
    RootHashesItsInput(h, data, lo, n);
    if |sides| == 0 {
      f := Forgery(lo, n, Leaf(entry));
      if f.claimed == InputOf(h, data, lo, n) {
        LeafInputIsEntry(h, data, lo, n, entry);
      }
    } else {
      var last := |sides| - 1;
      var side, p, rest := sides[last], proof[last], proof[..last];
      assert sides == sides[..last] + [side];
      var below := Climb(h, leafHash, sides[..last], rest);
      ClimbPeels(h, leafHash, sides[..last], side, proof);
      f := Forgery(lo, n, if side then Node(p, below) else Node(below, p));
      if f.claimed == InputOf(h, data, lo, n) {
        NodeInputIsSplit(h, data, lo, n, f.claimed.left, f.claimed.right);
        var k := Split(n);
        JoinViews(data, lo, k, n);
        if side {
          f := ClimbFromEntry(h, data, lo + k, n - k, entry, sides[..last], rest);
        } else {
          f := ClimbFromEntry(h, data, lo, k, entry, sides[..last], rest);
        }
      }
    }
  }

  lemma LeafInputIsEntry(h: Hash, data: seq<Bytes>, lo: nat, n: nat, entry: Bytes)
    requires lo + n <= |data| && InputOf(h, data, lo, n) == Leaf(entry)
    ensures entry in data[lo..lo + n]
  {
    hide Root;
    assert n == 1 && data[lo..lo + n][0] == entry;
  }

  lemma NodeInputIsSplit(h: Hash, data: seq<Bytes>, lo: nat, n: nat, left: Digest, right: Digest)
    requires lo + n <= |data| && InputOf(h, data, lo, n) == Node(left, right)
    ensures n > 1 && left == Root(h, Leaves(h, data), lo, Split(n))
    ensures right == Root(h, Leaves(h, data), lo + Split(n), n - Split(n))
  {
    hide Root, Split;
  }

  lemma NodeIsView(h: Hash, data: seq<Bytes>, f: Forgery)
    requires ForgesNode(h, Leaves(h, data), f)
    ensures ForgesView(h, data, f)
  {
    hide Root, Split;
  }

  lemma OtherEntryForges(h: Hash, data: seq<Bytes>, entry: Bytes, index: nat)
    requires index < |data| && entry != data[index] && HashLeaf(h, entry) == Leaves(h, data)[index]
    ensures ForgesView(h, data, Forgery(index, 1, Leaf(entry)))
  {
  }

  // From an entry up to the root by the turns of an index: the entry is the one at that index.
  lemma EntryAtItsIndex(h: Hash, data: seq<Bytes>, entry: Bytes, index: nat, proof: seq<Digest>) returns (f: Forgery)
    requires IsWide(h) && AllDigests(proof) && index < |data| && |proof| == |Sides(index, |data|)|
    requires Climb(h, HashLeaf(h, entry), Sides(index, |data|), proof) == LogRoot(h, data)
    ensures entry == data[index] || ForgesView(h, data, f)
  {
    hide Sides, Climb, Root, ForgesView, ForgesNode;
    var hs := Leaves(h, data);
    f := ClimbSound(h, hs, 0, |data|, HashLeaf(h, entry), index, proof);
    if ForgesNode(h, hs, f) {
      NodeIsView(h, data, f);
    } else if entry != data[index] {
      f := Forgery(index, 1, Leaf(entry));
      OtherEntryForges(h, data, entry, index);
    }
  }

  /** An accepted receipt is for an entry of the log, whatever index and size the receipt states; at the
      log's own size it is for the entry at the stated index. Otherwise two different byte strings with
      one hash are at hand, one of them hashed for a view of the log. */
  lemma EntryInclusionSound(sha: Bytes -> Digest, data: seq<Bytes>, entry: Bytes, index: int, size: int,
        proof: seq<Digest>)
    returns (f: Forgery)
    requires IsWideSha(sha) && AllDigests(proof)
    requires var h := HashWith(sha);
             InclusionVerdict(h, HashLeaf(h, entry), index, size, proof, LogRoot(h, data)) == Accepted
    ensures (entry in data && (size == |data| ==> entry == data[index])) || BreaksView(sha, data, f)
  {
    hide BreaksView, ForgesView, Sides, Climb, Root;
    var h := HashWith(sha);
    WideShaHashesWide(sha);
    f := ClimbFromEntry(h, data, 0, |data|, entry, Sides(index, size), proof);
    assert data[0..|data|] == data;
    if !ForgesView(h, data, f) && size == |data| {
      f := EntryAtItsIndex(h, data, entry, index, proof);
    }
    if ForgesView(h, data, f) {
      ForgedViewOnBytes(sha, data, f);
    }
  }

  /** The position itself is read only through the turns it stands for. Where two positions take the
      same turns the verifier cannot tell them apart. */
  lemma PositionsWithOneVerdict(h: Hash, leafHash: Digest, index: nat, size: nat, index': nat, size': nat,
        proof: seq<Digest>, root: Digest)
    requires index < size && index' < size' && Sides(index, size) == Sides(index', size')
    ensures InclusionVerdict(h, leafHash, index, size, proof, root)
         == InclusionVerdict(h, leafHash, index', size', proof, root)
  {
  }

  /** So index 1 of 2 passes for index 2 of 3: in every log of two entries the receipt of the second one
      is accepted with the wrong position. */
  lemma WrongPositionIsAccepted(h: Hash, hs: seq<Digest>)
    requires |hs| == 2
    ensures InclusionVerdict(h, hs[1], 2, 3, Inclusion(h, hs, 0, 2, 1), Root(h, hs, 0, 2)) == Accepted
  {
    hide InclusionVerdict;
    assert Split(2) == 1 && Split(3) == 2;
    assert Sides(0, 1) == [] && Sides(1, 2) == [true] && Sides(2, 3) == [true];
    InclusionComplete(h, hs, 2, 1);
    PositionsWithOneVerdict(h, hs[1], 1, 2, 2, 3, Inclusion(h, hs, 0, 2, 1), Root(h, hs, 0, 2));
  }
}
