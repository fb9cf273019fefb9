/** The five reversal postures, ordered by how much recoverability they carry. */
module Postures {
  datatype Posture = Unknown | Irreversible | Compensable | Reversible | Idempotent

  function Rank(p: Posture): nat {
    match p
    case Unknown => 0
    case Irreversible => 1
    case Compensable => 2
    case Reversible => 3
    case Idempotent => 4
  }

  // The wire form of a posture.
  function Name(p: Posture): string {
    match p
    case Unknown => "unknown"
    case Irreversible => "irreversible"
    case Compensable => "compensable"
    case Reversible => "reversible"
    case Idempotent => "idempotent"
  }

  /** Each posture is worth more than the one before, and each has its own name. */
  lemma PosturesAreOrdered()
    ensures Rank(Unknown) < Rank(Irreversible) < Rank(Compensable) < Rank(Reversible) < Rank(Idempotent)
    ensures [Name(Unknown), Name(Irreversible), Name(Compensable), Name(Reversible), Name(Idempotent)]
         == ["unknown", "irreversible", "compensable", "reversible", "idempotent"]
  {
  }

  lemma NameIsInjective(p: Posture, q: Posture)
    ensures Name(p) == Name(q) <==> p == q
  {
    assert Name(p)[0] == Name(q)[0] && |Name(p)| == |Name(q)| ==> p == q;
  }

  predicate IsOneWayName(name: string) {
    name == "irreversible" || name == "unknown"
  }
}
