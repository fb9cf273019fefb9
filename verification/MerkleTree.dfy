/** The Merkle tree of section 2.1 of RFC 6962, as `translog.go` computes it. */
module MerkleTree {
  import opened Hashing

  // ----- the split point ---------------------------------------------------------------------

  predicate IsPowerOfTwo(k: nat) {
    k == 1 || (k > 1 && k % 2 == 0 && IsPowerOfTwo(k / 2))
  }

  /** The largest power of two strictly below n. */
  function Split(n: nat): (k: nat)
    requires n > 1
    ensures 0 < k < n <= 2 * k
  {
    DoubleWhileBelow(1, n)
  }

  function DoubleWhileBelow(k: nat, n: nat): (r: nat)
    requires 0 < k < n
    ensures 0 < r < n <= 2 * r
    decreases n - k
  {
    if 2 * k < n then DoubleWhileBelow(2 * k, n) else k
  }

  lemma {:induction false} DoublingKeepsPowers(k: nat, n: nat)
    requires 0 < k < n && IsPowerOfTwo(k)
    ensures IsPowerOfTwo(DoubleWhileBelow(k, n))
    decreases n - k
  {
    if 2 * k < n {
      assert 2 * k / 2 == k;
      DoublingKeepsPowers(2 * k, n);
    }
  }

  lemma {:induction false} PowersDouble(k: nat, p: nat)
    requires IsPowerOfTwo(k) && IsPowerOfTwo(p) && k < p
    ensures 2 * k <= p
  {
    if k > 1 {
      PowersDouble(k / 2, p / 2);
    }
  }

  /** `Split(n)` is the only power of two k with k < n <= 2k, and the largest one below n. */
  lemma SplitIsTheLargestPower(n: nat)
    requires n > 1
    ensures IsPowerOfTwo(Split(n))
    ensures forall p: nat :: IsPowerOfTwo(p) && p < n ==> p <= Split(n)
    ensures forall p: nat :: IsPowerOfTwo(p) && p < n <= 2 * p ==> p == Split(n)
  {
    var k := Split(n);
    DoublingKeepsPowers(1, n);
    forall p: nat | IsPowerOfTwo(p) && p < n
      ensures p <= k && (n <= 2 * p ==> p == k)
    {
      if k < p {
        PowersDouble(k, p);
      } else if p < k {
        PowersDouble(p, k);
      }
    }
  }

  method LargestPowerOfTwoBelow(n: nat) returns (k: nat)
    requires n > 1
    ensures IsPowerOfTwo(k) && k < n
    ensures forall p: nat :: IsPowerOfTwo(p) && p < n ==> p <= k
    ensures k == Split(n)
  {
    k := 1;
    while 2 * k < n
      invariant 0 < k < n && DoubleWhileBelow(k, n) == Split(n)
    {
      k := 2 * k;
    }
    SplitIsTheLargestPower(n);
  }

  function CeilLog2(n: nat): nat {
    if n <= 1 then 0 else 1 + CeilLog2((n + 1) / 2)
  }

  lemma {:induction false} CeilLog2Monotone(m: nat, n: nat)
    requires m <= n
    ensures CeilLog2(m) <= CeilLog2(n)
  {
    if m > 1 {
      CeilLog2Monotone((m + 1) / 2, (n + 1) / 2);
    }
  }

  lemma {:induction false} CeilLog2OfSplit(n: nat)
    requires n > 1
    ensures CeilLog2(n) == 1 + CeilLog2(Split(n))
    ensures CeilLog2(n - Split(n)) <= CeilLog2(Split(n))
  {
    var k := Split(n);
    CeilLog2Monotone(n - k, k);
    if n == 2 {
      assert CeilLog2(2) == 1 + CeilLog2(1);
    } else {
      var h := (n + 1) / 2;
      CeilLog2OfSplit(h);
      SplitIsTheLargestPower(n);
      SplitIsTheLargestPower(h);
      assert IsPowerOfTwo(k / 2);
      assert k == 2 * Split(h);
      assert (k + 1) / 2 == Split(h);
      assert CeilLog2(k) == 1 + CeilLog2(Split(h));
      assert CeilLog2(n) == 1 + CeilLog2(h);
    }
  }

  // ----- roots and audit paths ---------------------------------------------------------------
  //
  // A subtree is a view of the leaf list, as a Go slice is: it starts at `lo` and holds n leaves.

  function Root(h: Hash, hs: seq<Digest>, lo: nat, n: nat): Digest
    requires lo + n <= |hs|
    decreases n, hs
  {
    if n == 0 then h(Nothing)
    else if n == 1 then hs[lo]
    else
      var k := Split(n);
      HashNode(h, Root(h, hs, lo, k), Root(h, hs, lo + k, n - k))
  }

  /** The audit path of section 2.1.1 of RFC 6962, ordered from the leaf to the root. */
  function Inclusion(h: Hash, hs: seq<Digest>, lo: nat, n: nat, index: nat): (path: seq<Digest>)
    requires lo + n <= |hs| && index < n
    decreases n, hs
  {
    if n <= 1 then []
    else
      var k := Split(n);
      if index < k then Inclusion(h, hs, lo, k, index) + [Root(h, hs, lo + k, n - k)]
      else Inclusion(h, hs, lo + k, n - k, index - k) + [Root(h, hs, lo, k)]
  }

  /** The root of a view does not depend on the leaves outside it, so it survives every append. */
  lemma {:induction false} RootOfView(h: Hash, hs: seq<Digest>, hs': seq<Digest>, lo: nat, n: nat)
    requires lo + n <= |hs| && lo + n <= |hs'|
    requires forall i :: lo <= i < lo + n ==> hs[i] == hs'[i]
    ensures Root(h, hs, lo, n) == Root(h, hs', lo, n)
    decreases n
  {
    if n > 1 {
      var k := Split(n);
      RootOfView(h, hs, hs', lo, k);
      RootOfView(h, hs, hs', lo + k, n - k);
    }
  }

  /** A prefix that reaches past the split point of its view has the same split point. */
  lemma RootOfLongPrefix(h: Hash, hs: seq<Digest>, lo: nat, n: nat, m: nat)
    requires lo + n <= |hs| && n > 1 && Split(n) < m <= n
    ensures Root(h, hs, lo, m) == HashNode(h, Root(h, hs, lo, Split(n)), Root(h, hs, lo + Split(n), m - Split(n)))
  {
    SplitIsTheLargestPower(n);
    SplitIsTheLargestPower(m);
  }

  function Leaves(h: Hash, data: seq<Bytes>): (hs: seq<Digest>)
    ensures |hs| == |data|
  {
    seq(|data|, i requires 0 <= i < |data| => HashLeaf(h, data[i]))
  }

  /** The tree hash of a whole log. */
  function LogRoot(h: Hash, data: seq<Bytes>): Digest {
    Root(h, Leaves(h, data), 0, |data|)
  }

  lemma {:induction false} RootOfShifted(h: Hash, hs: seq<Digest>, from: nat, lo: nat, n: nat)
    requires from + lo + n <= |hs|
    ensures Root(h, hs[from..], lo, n) == Root(h, hs, from + lo, n)
    decreases n
  {
    if n > 1 {
      var k := Split(n);
      RootOfShifted(h, hs, from, lo, k);
      RootOfShifted(h, hs, from, lo + k, n - k);
    }
  }

  lemma LogRootSplits(h: Hash, data: seq<Bytes>, k: nat)
    requires IsPowerOfTwo(k) && k < |data| <= 2 * k
    ensures LogRoot(h, data) == HashNode(h, LogRoot(h, data[..k]), LogRoot(h, data[k..]))
  {
    hide Split, IsPowerOfTwo, Root, Leaves;
    var hs, n := Leaves(h, data), |data|;
    PowersArePositive(k);
    SplitIsTheLargestPower(n);
    LeavesOfParts(h, data, k);
    RootOfMany(h, hs, n);
    RootOfView(h, hs, hs[..k], 0, k);
    RootOfShifted(h, hs, k, 0, n - k);
  }

  lemma LeavesOfParts(h: Hash, data: seq<Bytes>, k: nat)
    requires k <= |data|
    ensures Leaves(h, data[..k]) == Leaves(h, data)[..k] && Leaves(h, data[k..]) == Leaves(h, data)[k..]
  {
  }

  lemma RootOfMany(h: Hash, hs: seq<Digest>, n: nat)
    requires 1 < n <= |hs|
    ensures Root(h, hs, 0, n) == HashNode(h, Root(h, hs, 0, Split(n)), Root(h, hs, Split(n), n - Split(n)))
  {
    hide Split;
  }

  lemma PowersArePositive(k: nat)
    ensures IsPowerOfTwo(k) ==> k > 0
  {
  }

  lemma LogRootOfFew(h: Hash, data: seq<Bytes>)
    ensures |data| == 0 ==> LogRoot(h, data) == h(Nothing)
    ensures |data| == 1 ==> LogRoot(h, data) == h(Leaf(data[0]))
  {
  }

  /** The tree hash as section 2.1 of RFC 6962 defines it, on byte strings: of nothing, of one entry, and of
      more, cut at the largest power of two below their number. */
  lemma LogRootSpelledOut(sha: Bytes -> Digest, data: seq<Bytes>, k: nat)
    ensures |data| == 0 ==> LogRoot(HashWith(sha), data) == sha([])
    ensures |data| == 1 ==> LogRoot(HashWith(sha), data) == sha([0] + data[0])
    ensures IsPowerOfTwo(k) && k < |data| <= 2 * k ==>
              LogRoot(HashWith(sha), data)
              == sha([1] + LogRoot(HashWith(sha), data[..k]).bytes + LogRoot(HashWith(sha), data[k..]).bytes)
  {
    hide Encode, LogRoot, IsPowerOfTwo;
    var h := HashWith(sha);
    LogRootOfFew(h, data);
    if |data| > 1 && IsPowerOfTwo(k) && k < |data| <= 2 * k {
      LogRootSplits(h, data, k);
      EncodesAs([], LogRoot(h, data[..k]), LogRoot(h, data[k..]));
    } else {
      EncodesAs(if |data| == 1 then data[0] else [], h(Nothing), h(Nothing));
    }
  }

  // ----- a root determines the whole log -----------------------------------------------------

  // What was hashed to obtain the root of a view.
  function InputOf(h: Hash, data: seq<Bytes>, lo: nat, n: nat): Input
    requires lo + n <= |data|
  {
    if n == 0 then Nothing
    else if n == 1 then Leaf(data[lo])
    else NodeOf(h, Leaves(h, data), lo, n)
  }

  function NodeOf(h: Hash, hs: seq<Digest>, lo: nat, n: nat): Input
    requires lo + n <= |hs| && n > 1
  {
    var k := Split(n);
    Node(Root(h, hs, lo, k), Root(h, hs, lo + k, n - k))
  }

  /** Evidence that the hash function was broken: an input of full width that is not the one hashed for
      the view (lo, n) of the true log and yet has its digest. */
  datatype Forgery = Forgery(lo: nat, n: nat, claimed: Input)

  predicate ForgesView(h: Hash, data: seq<Bytes>, f: Forgery) {
    && f.lo + f.n <= |data| && IsInput(f.claimed)
    && f.claimed != InputOf(h, data, f.lo, f.n) && h(f.claimed) == h(InputOf(h, data, f.lo, f.n))
  }

  predicate ForgesNode(h: Hash, hs: seq<Digest>, f: Forgery) {
    && f.lo + f.n <= |hs| && f.n > 1 && IsInput(f.claimed)
    && f.claimed != NodeOf(h, hs, f.lo, f.n) && h(f.claimed) == h(NodeOf(h, hs, f.lo, f.n))
  }

  lemma LeavesAreWide(h: Hash, data: seq<Bytes>)
    requires IsWide(h)
    ensures AllDigests(Leaves(h, data))
  {
  }

  lemma RootIsWide(h: Hash, hs: seq<Digest>, lo: nat, n: nat)
    requires IsWide(h) && AllDigests(hs) && lo + n <= |hs|
    ensures IsDigest(Root(h, hs, lo, n))
  {
    hide Split;
  }

  lemma InputIsWide(h: Hash, data: seq<Bytes>, lo: nat, n: nat)
    requires IsWide(h) && lo + n <= |data|
    ensures IsInput(InputOf(h, data, lo, n))
  {
    hide Split;
    if n > 1 {
      LeavesAreWide(h, data);
      RootIsWide(h, Leaves(h, data), lo, Split(n));
      RootIsWide(h, Leaves(h, data), lo + Split(n), n - Split(n));
    }
  }

  // The same evidence on byte strings: two different ones with one SHA-256 value.

  predicate BreaksView(sha: Bytes -> Digest, data: seq<Bytes>, f: Forgery) {
    && f.lo + f.n <= |data|
    && var truth := Encode(InputOf(HashWith(sha), data, f.lo, f.n));
    Encode(f.claimed) != truth && sha(Encode(f.claimed)) == sha(truth)
  }

  predicate BreaksNode(sha: Bytes -> Digest, hs: seq<Digest>, f: Forgery) {
    && f.lo + f.n <= |hs| && f.n > 1
    && var truth := Encode(NodeOf(HashWith(sha), hs, f.lo, f.n));
    Encode(f.claimed) != truth && sha(Encode(f.claimed)) == sha(truth)
  }

  lemma ForgedViewOnBytes(sha: Bytes -> Digest, data: seq<Bytes>, f: Forgery)
    requires IsWideSha(sha) && ForgesView(HashWith(sha), data, f)
    ensures BreaksView(sha, data, f)
  {
    hide InputOf;
    WideShaHashesWide(sha);
    InputIsWide(HashWith(sha), data, f.lo, f.n);
    CollisionOnBytes(sha, f.claimed, InputOf(HashWith(sha), data, f.lo, f.n));
  }

  lemma ForgedNodeOnBytes(sha: Bytes -> Digest, hs: seq<Digest>, f: Forgery)
    requires IsWideSha(sha) && AllDigests(hs) && ForgesNode(HashWith(sha), hs, f)
    ensures BreaksNode(sha, hs, f)
  {
    hide Root, Split;
    WideShaHashesWide(sha);
    RootIsWide(HashWith(sha), hs, f.lo, Split(f.n));
    RootIsWide(HashWith(sha), hs, f.lo + Split(f.n), f.n - Split(f.n));
    CollisionOnBytes(sha, f.claimed, NodeOf(HashWith(sha), hs, f.lo, f.n));
  }

  lemma JoinViews(a: seq<Bytes>, lo: nat, k: nat, n: nat)
    requires k <= n && lo + n <= |a|
    ensures a[lo..lo + n] == a[lo..lo + k] + a[lo + k..lo + k + (n - k)]
  {
  }

  lemma RootHashesItsInput(h: Hash, data: seq<Bytes>, lo: nat, n: nat)
    requires lo + n <= |data|
    ensures Root(h, Leaves(h, data), lo, n) == h(InputOf(h, data, lo, n))
  {
    hide Split;
  }

  /** One input means one shape: both views are empty, or the same single entry, or both are split and
      their halves have the same roots. */
  lemma EqualInputs(h: Hash, a: seq<Bytes>, lo: nat, n: nat, b: seq<Bytes>, lo': nat, n': nat)
    requires lo + n <= |a| && lo' + n' <= |b| && InputOf(h, a, lo, n) == InputOf(h, b, lo', n')
    ensures n <= 1 ==> a[lo..lo + n] == b[lo'..lo' + n']
    ensures n > 1 ==>
              && n' > 1
              && Root(h, Leaves(h, a), lo, Split(n)) == Root(h, Leaves(h, b), lo', Split(n'))
              && Root(h, Leaves(h, a), lo + Split(n), n - Split(n)) == Root(h, Leaves(h, b), lo' + Split(n'), n' - Split(n'))
  {
    hide Split, Root;
  }

  lemma {:induction false} RootBindsView(h: Hash, a: seq<Bytes>, lo: nat, n: nat, b: seq<Bytes>, lo': nat, n': nat)
    returns (f: Forgery)
    requires IsWide(h) && lo + n <= |a| && lo' + n' <= |b|
    requires Root(h, Leaves(h, a), lo, n) == Root(h, Leaves(h, b), lo', n')
    ensures a[lo..lo + n] == b[lo'..lo' + n'] || ForgesView(h, b, f)
    decreases n
  {
    hide Split, Root, InputOf, Leaves;
    f := Forgery(lo', n', InputOf(h, a, lo, n));
    RootHashesItsInput(h, a, lo, n);
    RootHashesItsInput(h, b, lo', n');
    InputIsWide(h, a, lo, n);
    if InputOf(h, a, lo, n) == InputOf(h, b, lo', n') {
      EqualInputs(h, a, lo, n, b, lo', n');
      if n > 1 {
        var k, k' := Split(n), Split(n');
        JoinViews(a, lo, k, n);
        JoinViews(b, lo', k', n');
        f := RootBindsView(h, a, lo, k, b, lo', k');
        if a[lo..lo + k] == b[lo'..lo' + k'] {
          f := RootBindsView(h, a, lo + k, n - k, b, lo' + k', n' - k');
        }
      }
    }
  }

  /** Two logs with the same root hold the same entries, and the same number of them, or a view of
      the second one is forged. The sizes are not compared first: it is the separation of the leaf
      and node domains that keeps logs of different sizes apart. */
  lemma RootBindsLog(sha: Bytes -> Digest, a: seq<Bytes>, b: seq<Bytes>) returns (f: Forgery)
    requires IsWideSha(sha) && LogRoot(HashWith(sha), a) == LogRoot(HashWith(sha), b)
    ensures a == b || BreaksView(sha, b, f)
  {
    WideShaHashesWide(sha);
    f := RootBindsView(HashWith(sha), a, 0, |a|, b, 0, |b|);
    if a != b {
      ForgedViewOnBytes(sha, b, f);
    }
  }
}
