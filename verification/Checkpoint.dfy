/** The Merkle checkpoint of `ledger.py`: a list of hashes is rewritten level by level, and a level
    of odd length pairs its last hash with itself. */
module Checkpoint {
  import opened Ledger

  // ----- the tree, read from the root ----------------------------------------------------------

  function LevelSize(n: nat, t: nat): (size: nat)
    ensures n > 0 ==> size > 0
  {
    if t == 0 then n else (LevelSize(n, t - 1) + 1) / 2
  }

  function Height(n: nat): nat {
    if n <= 1 then 0 else 1 + Height((n + 1) / 2)
  }

  // The right sibling of an even position, or that position itself where the level is odd.
  function RightOf(size: nat, left: nat): (r: nat)
    requires left < size
    ensures r < size
  {
    if left + 1 < size then left + 1 else left
  }

  /** The hash at position i of level t, levels counted from the leaves. */
  function NodeHash(h: Hasher, xs: seq<Hash>, t: nat, i: nat): Hash
    requires i < LevelSize(|xs|, t)
    decreases t, 1
  {
    if t == 0 then xs[i] else h(NodeText(h, xs, t, i))
  }

  function NodeText(h: Hasher, xs: seq<Hash>, t: nat, i: nat): Input
    requires 0 < t && i < LevelSize(|xs|, t)
    decreases t, 0
  {
    PairText(NodeHash(h, xs, t - 1, 2 * i), NodeHash(h, xs, t - 1, RightOf(LevelSize(|xs|, t - 1), 2 * i)))
  }

  lemma {:induction false} LevelSizeFromBelow(n: nat, t: nat)
    requires t > 0
    ensures LevelSize(n, t) == LevelSize((n + 1) / 2, t - 1)
  {
    if t > 1 {
      LevelSizeFromBelow(n, t - 1);
    }
  }

  lemma {:induction false} TopHasOneNode(n: nat)
    requires n > 0
    ensures LevelSize(n, Height(n)) == 1
  {
    if n > 1 {
      TopHasOneNode((n + 1) / 2);
      LevelSizeFromBelow(n, Height(n));
    }
  }

  lemma {:induction false} OneStaysOne(t: nat)
    ensures LevelSize(1, t) == 1
  {
    if t > 0 {
      OneStaysOne(t - 1);
    }
  }

  lemma {:induction false} HeightIsTheFirstLevelOfOne(n: nat, t: nat)
    requires n > 0 && LevelSize(n, t) == 1
    requires t > 0 ==> LevelSize(n, t - 1) > 1
    ensures t == Height(n)
    decreases n
  {
    if n == 1 {
      if t > 0 {
        OneStaysOne(t - 1);
      }
    } else {
      LevelSizeFromBelow(n, t);
      if t > 1 {
        LevelSizeFromBelow(n, t - 1);
      }
      HeightIsTheFirstLevelOfOne((n + 1) / 2, t - 1);
    }
  }

  function MerkleRoot(h: Hasher, xs: seq<Hash>): Hash {
    if |xs| == 0 then GENESIS_PREV_HASH
    else
      TopHasOneNode(|xs|);
      NodeHash(h, xs, Height(|xs|), 0)
  }

  // One level up, by the text of the source: neighbours are hashed together, and a last one without a
  // neighbour with itself.
  function Paired(h: Hasher, xs: seq<Hash>): (ys: seq<Hash>)
    ensures |ys| == (|xs| + 1) / 2
  {
    seq((|xs| + 1) / 2, i requires 0 <= i < (|xs| + 1) / 2 =>
      h(PairText(xs[2 * i], if 2 * i + 1 < |xs| then xs[2 * i + 1] else xs[2 * i])))
  }

  lemma {:induction false} NodeOfPaired(h: Hasher, xs: seq<Hash>, t: nat, i: nat)
    requires t > 0 && i < LevelSize(|xs|, t)
    ensures LevelSize(|Paired(h, xs)|, t - 1) == LevelSize(|xs|, t)
    ensures NodeHash(h, Paired(h, xs), t - 1, i) == NodeHash(h, xs, t, i)
    decreases t
  {
    var ys := Paired(h, xs);
    LevelSizeFromBelow(|xs|, t);
    if t > 1 {
      LevelSizeFromBelow(|xs|, t - 1);
      var right := RightOf(LevelSize(|xs|, t - 1), 2 * i);
      NodeOfPaired(h, xs, t - 1, 2 * i);
      NodeOfPaired(h, xs, t - 1, right);
      assert NodeText(h, ys, t - 1, i) == NodeText(h, xs, t, i);
    } else {
      assert NodeText(h, xs, 1, i) == PairText(xs[2 * i], if 2 * i + 1 < |xs| then xs[2 * i + 1] else xs[2 * i]);
    }
  }

  /** The root, level by level: 64 zeros for nothing, one hash for itself, and otherwise the root of the list
      in which neighbours are hashed together. */
  lemma MerkleRootSpelledOut(h: Hasher, xs: seq<Hash>)
    ensures |xs| == 0 ==> MerkleRoot(h, xs).digits == "0000000000000000000000000000000000000000000000000000000000000000"
    ensures |xs| == 1 ==> MerkleRoot(h, xs) == xs[0]
    ensures |xs| > 1 ==> MerkleRoot(h, xs) == MerkleRoot(h, Paired(h, xs))
  {
    if |xs| == 0 {
      } else if |xs| > 1 {
      TopHasOneNode(|xs|);
      TopHasOneNode(|Paired(h, xs)|);
      NodeOfPaired(h, xs, Height(|xs|), 0);
    }
  }

  // ----- the in-place loop -------------------------------------------------------------------

  /** The loop over shrinking levels computes the root of the tree. */
  method ComputeMerkleRoot(h: Hasher, xs: seq<Hash>) returns (root: Hash)
    ensures root == MerkleRoot(h, xs)
  {
    if |xs| == 0 {
      return GENESIS_PREV_HASH;
    }
    var level := xs;
    ghost var t := 0;
    while |level| > 1
      invariant |level| == LevelSize(|xs|, t) > 0
      invariant t > 0 ==> LevelSize(|xs|, t - 1) > 1
      invariant forall i :: 0 <= i < |level| ==> level[i] == NodeHash(h, xs, t, i)
      decreases |level|
    {
      var next := [];
      var i := 0;
      while i < |level|
        invariant i == 2 * |next| && |next| <= LevelSize(|xs|, t + 1)
        invariant forall k :: 0 <= k < |next| ==> next[k] == NodeHash(h, xs, t + 1, k)
        decreases |level| - i
      {
        var left := level[i];
        var right := if i + 1 < |level| then level[i + 1] else left;
        assert NodeHash(h, xs, t + 1, |next|) == h(NodeText(h, xs, t + 1, |next|));
        next := next + [h(PairText(left, right))];
        i := i + 2;
      }
      level := next;
      t := t + 1;
    }
    HeightIsTheFirstLevelOfOne(|xs|, t);
    return level[0];
  }

  // ----- what the root binds -----------------------------------------------------------------

  function Hashes(es: seq<Entry>): (xs: seq<Hash>)
    ensures |xs| == |es| && forall i :: 0 <= i < |xs| ==> xs[i] == es[i].entryHash
  {
    seq(|es|, i requires 0 <= i < |es| => es[i].entryHash)
  }

  // What was hashed at a node: the entry itself on the leaf level, a pair above it.
  function TextAt(h: Hasher, es: seq<Entry>, t: nat, i: nat): Input
    requires i < LevelSize(|es|, t)
  {
    if t == 0 then EntryText(es[i].body) else NodeText(h, Hashes(es), t, i)
  }

  /** Evidence by position that the hash was broken: two nodes of the two trees with one hash whose
      texts differ. */
  datatype Clash = Clash(t: nat, i: nat, t': nat, i': nat)

  predicate IsClash(h: Hasher, a: seq<Entry>, b: seq<Entry>, c: Clash) {
    && c.i < LevelSize(|a|, c.t) && c.i' < LevelSize(|b|, c.t')
    && TextAt(h, a, c.t, c.i) != TextAt(h, b, c.t', c.i')
    && h(TextAt(h, a, c.t, c.i)) == h(TextAt(h, b, c.t', c.i'))
  }

  lemma NodeHashesItsText(h: Hasher, es: seq<Entry>, t: nat, i: nat)
    requires ValidChain(h, es) && i < LevelSize(|es|, t)
    ensures NodeHash(h, Hashes(es), t, i) == h(TextAt(h, es, t, i))
  {
    if t == 0 {
      assert FaultAt(h, es, i).None?;
    }
  }

  function Half(k: nat, t: nat): nat {
    if t == 0 then k else Half(k, t - 1) / 2
  }

  lemma {:induction false} HalfFromBelow(k: nat, t: nat)
    requires t > 0
    ensures Half(k, t) == Half(k / 2, t - 1)
  {
    if t > 1 {
      HalfFromBelow(k, t - 1);
    }
  }

  lemma {:induction false} HalfStaysInLevel(n: nat, k: nat, t: nat)
    requires k < n
    ensures Half(k, t) < LevelSize(n, t)
  {
    if t > 0 {
      HalfStaysInLevel(n, k, t - 1);
    }
  }

  /** From two nodes with one hash, walk down to leaf k of the second tree. The first tree is forced
      along the same texts, so it holds the same entry somewhere, or the texts part company. */
  lemma {:induction false} WalkToLeaf(h: Hasher, a: seq<Entry>, t: nat, i: nat, b: seq<Entry>, t': nat, k: nat)
    returns (c: Clash, j: nat)
    requires ValidChain(h, a) && ValidChain(h, b)
    requires i < LevelSize(|a|, t) && k < |b| && Half(k, t') < LevelSize(|b|, t')
    requires NodeHash(h, Hashes(a), t, i) == NodeHash(h, Hashes(b), t', Half(k, t'))
    ensures IsClash(h, a, b, c) || (j < |a| && a[j].body == b[k].body)
    decreases t
  {
    c, j := Clash(t, i, t', Half(k, t')), i;
    NodeHashesItsText(h, a, t, i);
    NodeHashesItsText(h, b, t', Half(k, t'));
    if TextAt(h, a, t, i) == TextAt(h, b, t', Half(k, t')) && t > 0 {
      HalfStaysInLevel(|b|, k, t' - 1);
      var left, right := 2 * i, RightOf(LevelSize(|a|, t - 1), 2 * i);
      var below := Half(k, t' - 1);
      assert below == 2 * Half(k, t') || below == RightOf(LevelSize(|b|, t' - 1), 2 * Half(k, t'));
      if below == 2 * Half(k, t') {
        c, j := WalkToLeaf(h, a, t - 1, left, b, t' - 1, k);
      } else {
        c, j := WalkToLeaf(h, a, t - 1, right, b, t' - 1, k);
      }
    }
  }

  /** Every entry of the second ledger is in the first, at its own place. */
  lemma RootCoversEntry(h: Hasher, a: seq<Entry>, b: seq<Entry>, k: nat) returns (c: Clash)
    requires ValidChain(h, a) && ValidChain(h, b) && |a| > 0 && k < |b|
    requires MerkleRoot(h, Hashes(a)) == MerkleRoot(h, Hashes(b))
    ensures IsClash(h, a, b, c) || (k < |a| && a[k] == b[k])
  {
    var t, t' := Height(|a|), Height(|b|);
    var j;
    TopHasOneNode(|a|);
    TopHasOneNode(|b|);
    HalfStaysInLevel(|b|, k, t');
    c, j := WalkToLeaf(h, a, t, 0, b, t', k);
    if !IsClash(h, a, b, c) {
      assert FaultAt(h, a, j).None? && FaultAt(h, b, k).None?;
    }
  }

  datatype Evidence = TwoTexts(c: Clash) | TwoTextsSwapped(c: Clash) | GenesisInFirst | GenesisInSecond

  // The text at the root of a tree hashes to the genesis value.
  predicate RootIsGenesis(h: Hasher, es: seq<Entry>)
    requires |es| > 0
  {
    TopHasOneNode(|es|);
    h(TextAt(h, es, Height(|es|), 0)) == GENESIS_PREV_HASH
  }

  predicate IsEvidence(h: Hasher, a: seq<Entry>, b: seq<Entry>, e: Evidence) {
    match e
    case TwoTexts(c) => IsClash(h, a, b, c)
    case TwoTextsSwapped(c) => IsClash(h, b, a, c)
    case GenesisInFirst => |a| > 0 && RootIsGenesis(h, a)
    case GenesisInSecond => |b| > 0 && RootIsGenesis(h, b)
  }

  /** Two ledgers that verify and have the same Merkle root are the same ledger, whatever their
      lengths, although the duplicated last hash makes the bare root of a hash list ambiguous. */
  lemma MerkleRootBindsLedger(h: Hasher, a: seq<Entry>, b: seq<Entry>) returns (e: Evidence)
    requires ValidChain(h, a) && ValidChain(h, b)
    requires MerkleRoot(h, Hashes(a)) == MerkleRoot(h, Hashes(b))
    ensures a == b || IsEvidence(h, a, b, e)
  {
    e := if |a| > 0 then Evidence.GenesisInFirst else Evidence.GenesisInSecond;
    if |a| == 0 && |b| > 0 {
      TopHasOneNode(|b|);
      NodeHashesItsText(h, b, Height(|b|), 0);
    } else if |b| == 0 && |a| > 0 {
      TopHasOneNode(|a|);
      NodeHashesItsText(h, a, Height(|a|), 0);
    } else if a != b {
      var c;
      if |a| < |b| {
        c := RootCoversEntry(h, a, b, |a|);
        e := TwoTexts(c);
      } else if |b| < |a| {
        c := RootCoversEntry(h, b, a, |b|);
        e := TwoTextsSwapped(c);
      } else {
        var k :| 0 <= k < |a| && a[k] != b[k];
        c := RootCoversEntry(h, a, b, k);
        e := TwoTexts(c);
      }
    }
  }

  // ----- bare hash lists -----------------------------------------------------------------------

  /** Two hash lists of one length with one root are equal, or at the returned node of both trees two
      different pairs have the same hash. */
  lemma RootBindsHashesOfOneSize(h: Hasher, xs: seq<Hash>, ys: seq<Hash>) returns (t: nat, i: nat)
    requires |xs| == |ys| && MerkleRoot(h, xs) == MerkleRoot(h, ys)
    ensures xs == ys || PairsDiffer(h, xs, ys, t, i)
  {
    t, i := 0, 0;
    if xs != ys {
      var k :| 0 <= k < |xs| && xs[k] != ys[k];
      TopHasOneNode(|xs|);
      HalfStaysInLevel(|xs|, k, Height(|xs|));
      t, i := DescendToHash(h, xs, ys, Height(|xs|), k);
    }
  }

  predicate PairsDiffer(h: Hasher, xs: seq<Hash>, ys: seq<Hash>, t: nat, i: nat)
    requires |xs| == |ys|
  {
    && t > 0 && i < LevelSize(|xs|, t)
    && NodeText(h, xs, t, i) != NodeText(h, ys, t, i)
    && h(NodeText(h, xs, t, i)) == h(NodeText(h, ys, t, i))
  }

  lemma {:induction false} DescendToHash(h: Hasher, xs: seq<Hash>, ys: seq<Hash>, t: nat, k: nat) returns (t': nat,
        i': nat)
    requires |xs| == |ys| && k < |xs| && Half(k, t) < LevelSize(|xs|, t)
    requires NodeHash(h, xs, t, Half(k, t)) == NodeHash(h, ys, t, Half(k, t))
    ensures xs[k] == ys[k] || PairsDiffer(h, xs, ys, t', i')
    decreases t
  {
    t', i' := t, Half(k, t);
    if t > 0 && NodeText(h, xs, t, i') == NodeText(h, ys, t, i') {
      HalfStaysInLevel(|xs|, k, t - 1);
      assert Half(k, t - 1) == 2 * i' || Half(k, t - 1) == RightOf(LevelSize(|xs|, t - 1), 2 * i');
      t', i' := DescendToHash(h, xs, ys, t - 1, k);
    }
  }

  // ----- down to the texts -----------------------------------------------------------------------

  // A node of a tree over wide hashes is wide, whatever its level.
  lemma NodeIsWide(sha: Sha, canon: Canon, xs: seq<Hash>, t: nat, i: nat)
    requires IsWideSha(sha) && (forall x :: x in xs ==> IsWide(x)) && i < LevelSize(|xs|, t)
    ensures IsWide(NodeHash(HashText(sha, canon), xs, t, i))
  {
    hide IsDigits;
    var h := HashText(sha, canon);
    if t > 0 {
      assert NodeHash(h, xs, t, i) == Hex(sha(TextOf(canon, NodeText(h, xs, t, i))));
    }
  }

  lemma TextIsWide(sha: Sha, canon: Canon, xs: seq<Hash>, t: nat, i: nat)
    requires IsWideSha(sha) && (forall x :: x in xs ==> IsWide(x)) && 0 < t && i < LevelSize(|xs|, t)
    ensures IsWideInput(NodeText(HashText(sha, canon), xs, t, i))
  {
    hide IsWide, NodeHash;
    var right := RightOf(LevelSize(|xs|, t - 1), 2 * i);
    NodeIsWide(sha, canon, xs, t - 1, 2 * i);
    NodeIsWide(sha, canon, xs, t - 1, right);
  }

  lemma ValidHashesAreWide(sha: Sha, canon: Canon, es: seq<Entry>)
    requires IsWideSha(sha) && ValidChain(HashText(sha, canon), es)
    ensures forall x :: x in Hashes(es) ==> IsWide(x)
  {
    hide IsDigits;
    forall i | 0 <= i < |es|
      ensures IsWide(Hashes(es)[i])
    {
      assert FaultAt(HashText(sha, canon), es, i).None?;
      assert Hashes(es)[i] == Hex(sha(TextOf(canon, EntryText(es[i].body))));
    }
  }

  lemma TextAtIsWide(sha: Sha, canon: Canon, es: seq<Entry>, t: nat, i: nat)
    requires IsWideSha(sha) && ValidChain(HashText(sha, canon), es) && i < LevelSize(|es|, t)
    ensures IsWideInput(TextAt(HashText(sha, canon), es, t, i))
  {
    hide IsWide, ValidChain;
    ValidHashesAreWide(sha, canon, es);
    if t > 0 {
      TextIsWide(sha, canon, Hashes(es), t, i);
    }
  }

  /** A clash between two ledgers that verify is two different texts with one SHA-256 value. */
  lemma ClashOnTexts(sha: Sha, canon: Canon, a: seq<Entry>, b: seq<Entry>, c: Clash)
    requires IsWideSha(sha) && IsCanon(canon)
    requires ValidChain(HashText(sha, canon), a) && ValidChain(HashText(sha, canon), b)
    requires IsClash(HashText(sha, canon), a, b, c)
    ensures var h := HashText(sha, canon);
            OneHash(sha, TextOf(canon, TextAt(h, a, c.t, c.i)), TextOf(canon, TextAt(h, b, c.t', c.i')))
  {
    hide TextAt, ValidChain, TextOf, IsWide, IsWideInput;
    var h := HashText(sha, canon);
    TextAtIsWide(sha, canon, a, c.t, c.i);
    TextAtIsWide(sha, canon, b, c.t', c.i');
    TextsDiffer(canon, TextAt(h, a, c.t, c.i), TextAt(h, b, c.t', c.i'));
  }

  /** Two lists of one length of 64-digit hashes with one root are equal, or two different texts are
      hashed to one value. */
  lemma RootBindsWideHashes(sha: Sha, canon: Canon, xs: seq<Hash>, ys: seq<Hash>) returns (s: string, s': string)
    requires IsWideSha(sha)
    requires |xs| == |ys| && forall x :: x in xs + ys ==> IsWide(x)
    requires MerkleRoot(HashText(sha, canon), xs) == MerkleRoot(HashText(sha, canon), ys)
    ensures xs == ys || OneHash(sha, s, s')
  {
    hide TextOf, IsWide, IsWideInput, NodeHash, MerkleRoot;
    var h := HashText(sha, canon);
    var t, i := RootBindsHashesOfOneSize(h, xs, ys);
    s, s' := "", "";
    if xs != ys {
      s, s' := TextOf(canon, NodeText(h, xs, t, i)), TextOf(canon, NodeText(h, ys, t, i));
      TextIsWide(sha, canon, xs, t, i);
      TextIsWide(sha, canon, ys, t, i);
      PairTextsDiffer(canon, NodeText(h, xs, t, i), NodeText(h, ys, t, i));
    }
  }

  /** The width is needed: rows taken up unverified can hold hashes of any length, and every list of two
      shares its root with each list of two that cuts the same text elsewhere. */
  lemma UnevenRowsShareARoot(sha: Sha, canon: Canon, text: string, k: nat, k': nat)
    requires k < k' <= |text|
    ensures var xs, ys := [Hex(text[..k]), Hex(text[k..])], [Hex(text[..k']), Hex(text[k'..])];
            xs != ys && MerkleRoot(HashText(sha, canon), xs) == MerkleRoot(HashText(sha, canon), ys)
  {
    var h := HashText(sha, canon);
    var xs, ys := [Hex(text[..k]), Hex(text[k..])], [Hex(text[..k']), Hex(text[k'..])];
    assert |xs[0].digits| != |ys[0].digits| && xs[0] != ys[0];
    assert text[..k] + text[k..] == text == text[..k'] + text[k'..];
    assert TextOf(canon, PairText(xs[0], xs[1])) == text == TextOf(canon, PairText(ys[0], ys[1]));
    RootOfTwo(h, xs);
    RootOfTwo(h, ys);
  }

  lemma RootOfTwo(h: Hasher, xs: seq<Hash>)
    requires |xs| == 2
    ensures MerkleRoot(h, xs) == h(PairText(xs[0], xs[1]))
  {
    TopHasOneNode(2);
    assert Height(2) == 1 && LevelSize(2, 0) == 2 && LevelSize(2, 1) == 1;
    assert NodeHash(h, xs, 0, 0) == xs[0] && NodeHash(h, xs, 0, 1) == xs[1];
    assert NodeText(h, xs, 1, 0) == PairText(xs[0], xs[1]);
    assert NodeHash(h, xs, 1, 0) == h(NodeText(h, xs, 1, 0));
  }

  /** For every list of odd length three or more, repeating the last hash leaves the root unchanged.
      Such a list is never the hash list of a chain that verifies. */
  lemma RepeatedLastHashIsInvisible(h: Hasher, xs: seq<Hash>)
    requires |xs| >= 3 && |xs| % 2 == 1
    ensures MerkleRoot(h, xs) == MerkleRoot(h, xs + [xs[|xs| - 1]])
  {
    var n := |xs|;
    var ys := xs + [xs[n - 1]];
    assert Height(n) == Height(n + 1);
    TopHasOneNode(n);
    TopHasOneNode(n + 1);
    LevelsAgree(h, xs, ys, Height(n), 0);
  }

  lemma {:induction false} LevelsAgree(h: Hasher, xs: seq<Hash>, ys: seq<Hash>, t: nat, i: nat)
    requires |xs| % 2 == 1 && ys == xs + [xs[|xs| - 1]]
    requires t > 0 && i < LevelSize(|xs|, t)
    ensures LevelSize(|xs|, t) == LevelSize(|ys|, t) && NodeHash(h, xs, t, i) == NodeHash(h, ys, t, i)
    decreases t
  {
    if t > 1 {
      LevelsAgree(h, xs, ys, t - 1, 2 * i);
      LevelsAgree(h, xs, ys, t - 1, RightOf(LevelSize(|xs|, t - 1), 2 * i));
    }
  }
}
