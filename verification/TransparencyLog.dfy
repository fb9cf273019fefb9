/** The append-only log object of `translog.go`. */
module TransparencyLog {
  import opened Outcomes
  import opened Hashing
  import opened MerkleTree
  import I = InclusionProofs
  import C = ConsistencyProofs

  datatype Head = Head(size: nat, root: Digest)

  datatype RangeError = SizeOutsideLog | IndexOutsideTree | NotAPrefix

  class Log {
    const h: Hash
    var leaves: seq<Digest>
    ghost var entries: seq<Bytes>

    ghost predicate Valid()
      reads this
    {
      leaves == Leaves(h, entries)
    }

    constructor (h: Hash)
      ensures Valid() && entries == [] && this.h == h
    {
      this.h := h;
      leaves, entries := [], [];
    }

    method Append(data: Bytes) returns (index: nat)
      requires Valid()
      modifies this
      ensures Valid() && entries == old(entries) + [data]
      ensures index == |old(entries)| && leaves == old(leaves) + [HashLeaf(h, data)]
    {
      leaves := leaves + [HashLeaf(h, data)];
      entries := entries + [data];
      return |leaves| - 1;
    }

    /** The head at size n is the head of the log that held only the first n entries, however much
        was appended since. */
    method HeadAt(n: int) returns (head: Result<Head, RangeError>)
      requires Valid()
      ensures head == if n < 0 || n > |entries| then Err(SizeOutsideLog)
                      else Ok(Head(n, LogRoot(h, entries[..n])))
    {
      if n < 0 || n > |leaves| {
        return Err(SizeOutsideLog);
      }
      RootOfPrefix(h, entries, n);
      return Ok(Head(n, Root(h, leaves, 0, n)));
    }

    /** Refuses exactly the sizes and indices outside the log; otherwise the receipt it hands out is
        accepted, without the log, for the entry at that index and the head of that size. */
    method InclusionProof(index: int, n: int) returns (proof: Result<seq<Digest>, RangeError>)
      requires Valid()
      ensures n < 0 || n > |entries| <==> proof == Err(SizeOutsideLog)
      ensures 0 <= n <= |entries| && (index < 0 || index >= n) <==> proof == Err(IndexOutsideTree)
      ensures proof.Ok? ==>
                I.InclusionVerdict(h, HashLeaf(h, entries[index]), index, n, proof.value, LogRoot(h, entries[..n])) == I.Accepted
    {
      if n < 0 || n > |leaves| {
        return Err(SizeOutsideLog);
      }
      if index < 0 || index >= n {
        return Err(IndexOutsideTree);
      }
      I.InclusionComplete(h, leaves, n, index);
      RootOfPrefix(h, entries, n);
      return Ok(Inclusion(h, leaves, 0, n, index));
    }

    /** Refuses exactly the size pairs that are no prefixes in this log; otherwise the proof it hands
        out is accepted for the two heads. */
    method ConsistencyProof(m: int, n: int) returns (proof: Result<seq<Digest>, RangeError>)
      requires Valid()
      ensures m < 0 || n > |entries| || m > n <==> proof.Err?
      ensures proof.Ok? ==>
                C.VerifyConsistency(h, m, n, proof.value, LogRoot(h, entries[..m]), LogRoot(h, entries[..n])) == C.Accepted
    {
      if m < 0 || n > |leaves| || m > n {
        return Err(NotAPrefix);
      }
      C.ConsistencyComplete(h, leaves, m, n);
      RootOfPrefix(h, entries, m);
      RootOfPrefix(h, entries, n);
      return Ok(C.ConsistencyProof(h, leaves, m, n));
    }
  }

  lemma RootOfPrefix(h: Hash, entries: seq<Bytes>, n: nat)
    requires n <= |entries|
    ensures LogRoot(h, entries[..n]) == Root(h, Leaves(h, entries), 0, n)
  {
    RootOfView(h, Leaves(h, entries), Leaves(h, entries[..n]), 0, n);
  }
}
