/** SHA-256 as the rest of the project sees it: one uninterpreted function from byte strings to
    32-byte digests. Nothing here assumes that it is injective. Every binding result therefore has
    the form "the fact holds, or this input is a second preimage of that node of the true log". */
module Hashing {
  import opened Outcomes

  newtype byte = b: int | 0 <= b < 256

  type Bytes = seq<byte>

  const DIGEST_BYTES := 32

  // A hash as a byte string. Its width is a fact to be checked: the verifiers take any byte strings.
  datatype Digest = Digest(bytes: Bytes)

  predicate IsDigest(d: Digest) {
    |d.bytes| == DIGEST_BYTES
  }

  /** The three kinds of input that the log of RFC 6962 hashes. */
  datatype Input = Nothing | Leaf(data: Bytes) | Node(left: Digest, right: Digest)

  type Hash = Input -> Digest

  // RFC 6962 section 2.1: leaves and interior nodes are hashed in separate domains.
  const LEAF_PREFIX: byte := 0
  const NODE_PREFIX: byte := 1

  function Encode(input: Input): Bytes {
    match input
    case Nothing => []
    case Leaf(data) => [LEAF_PREFIX] + data
    case Node(left, right) => [NODE_PREFIX] + left.bytes + right.bytes
  }

  /** The bytes that RFC 6962 section 2.1 hashes. */
  lemma EncodesAs(data: Bytes, left: Digest, right: Digest)
    ensures Encode(Nothing) == []
    ensures Encode(Leaf(data)) == [0] + data
    ensures Encode(Node(left, right)) == [1] + left.bytes + right.bytes
  {
  }

  function HashWith(sha: Bytes -> Digest): Hash {
    input => sha(Encode(input))
  }

  function HashLeaf(h: Hash, data: Bytes): Digest {
    h(Leaf(data))
  }

  function HashNode(h: Hash, left: Digest, right: Digest): Digest {
    h(Node(left, right))
  }

  // Every digest among the inputs has its full width.
  predicate IsInput(input: Input) {
    input.Node? ==> IsDigest(input.left) && IsDigest(input.right)
  }

  /** The prefix bytes and the fixed width of digests make the encoding readable: no leaf can be
      passed off as a node, and no node splits in two ways. */
  lemma EncodeInjective(p: Input, q: Input)
    requires IsInput(p) && IsInput(q) && Encode(p) == Encode(q)
    ensures p == q
  {
    var (x, y) := (Encode(p), Encode(q));
    if p.Leaf? || q.Leaf? {
      assert x[0] == y[0] == LEAF_PREFIX;
      assert p.data == x[1..] && q.data == y[1..];
    } else if p.Node? || q.Node? {
      assert x[0] == y[0] == NODE_PREFIX;
      assert p.left.bytes == x[1..33] && q.left.bytes == y[1..33];
      assert p.right.bytes == x[33..] && q.right.bytes == y[33..];
    }
  }

  /** Two inputs with one digest are a collision of SHA-256 itself, on two different byte strings. */
  lemma CollisionOnBytes(sha: Bytes -> Digest, x: Input, y: Input)
    requires IsInput(x) && IsInput(y) && x != y && HashWith(sha)(x) == HashWith(sha)(y)
    ensures Encode(x) != Encode(y) && sha(Encode(x)) == sha(Encode(y))
  {
    if Encode(x) == Encode(y) {
      EncodeInjective(x, y);
    }
  }

  // ----- widths --------------------------------------------------------------------------------

  ghost predicate IsWideSha(sha: Bytes -> Digest) {
    forall b :: IsDigest(sha(b))
  }

  ghost predicate IsWide(h: Hash) {
    forall input :: IsDigest(h(input))
  }

  predicate AllDigests(ds: seq<Digest>) {
    forall i :: 0 <= i < |ds| ==> IsDigest(ds[i])
  }

  lemma SomeWideSha()
    ensures IsWideSha(data => Digest(seq(32, _ => 0)))
  {
  }

  lemma WideShaHashesWide(sha: Bytes -> Digest)
    requires IsWideSha(sha)
    ensures IsWide(HashWith(sha))
  {
    forall input
      ensures IsDigest(HashWith(sha)(input))
    {
      assert HashWith(sha)(input) == sha(Encode(input));
    }
  }

  /** Two digests can be split in another place without a change in the bytes that are hashed: the
      encoding is only readable at full width. */
  lemma UnevenSplit(a: Digest, b: Digest) returns (left: Digest, right: Digest)
    requires IsDigest(a) && IsDigest(b)
    ensures !IsDigest(left) && !IsDigest(right) && Encode(Node(left, right)) == Encode(Node(a, b))
  {
    left, right := Digest(a.bytes[..31]), Digest([a.bytes[31]] + b.bytes);
    assert a.bytes == a.bytes[..31] + [a.bytes[31]];
    assert Encode(Node(left, right)) == [NODE_PREFIX] + (a.bytes + b.bytes) == Encode(Node(a, b));
  }

  datatype DecodeError = NotHex(i: nat) | WrongWidth(i: nat, width: nat)

  /** Proof hashes from outside, once read as hexadecimal: refused at the first one that is no
      hexadecimal or not 32 bytes long, and otherwise all of full width. */
  method DecodeHashes(given: seq<Option<Bytes>>) returns (r: Result<seq<Digest>, DecodeError>)
    ensures r.Ok? <==> forall i :: 0 <= i < |given| ==> given[i].Some? && |given[i].value| == DIGEST_BYTES
    ensures r.Ok? ==> AllDigests(r.value) && |r.value| == |given|
                      && forall i :: 0 <= i < |given| ==> given[i] == Some(r.value[i].bytes)
    ensures r.Err? ==> r.error.i < |given|
                       && (forall j :: 0 <= j < r.error.i ==> given[j].Some? && |given[j].value| == DIGEST_BYTES)
                       && (r.error.NotHex? <==> given[r.error.i].None?)
                       && (r.error.WrongWidth? ==> |given[r.error.i].value| == r.error.width != DIGEST_BYTES)
  {
    var out: seq<Digest> := [];
    for i := 0 to |given|
      invariant |out| == i && AllDigests(out)
      invariant forall j :: 0 <= j < i ==> given[j] == Some(out[j].bytes) && |given[j].value| == DIGEST_BYTES
    {
      if given[i].None? {
        return Err(NotHex(i));
      }
      if |given[i].value| != DIGEST_BYTES {
        return Err(WrongWidth(i, |given[i].value|));
      }
      out := out + [Digest(given[i].value)];
    }
    return Ok(out);
  }
}
