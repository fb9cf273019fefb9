/** The registry of inverses, `reversal/registry.py`: the static posture of a tool. */
module InverseRegistry {
  import opened Outcomes
  import opened Postures
  import opened Glob

  datatype Spec = Spec(tool: string, kind: Posture)

  // `exact` is a dictionary keyed by tool, in insertion order.
  datatype Registry = Registry(exact: seq<Spec>, globs: seq<Spec>)

  ghost predicate Distinct(specs: seq<Spec>) {
    |specs| > 0 ==> (forall x :: x in specs[1..] ==> x.tool != specs[0].tool) && Distinct(specs[1..])
  }

  // A dictionary assignment: an existing key keeps its place.
  function Put(specs: seq<Spec>, s: Spec): (r: seq<Spec>)
    ensures s in r && forall x :: x in r ==> x == s || x in specs
    ensures forall x :: x in specs && x.tool != s.tool ==> x in r
    ensures Distinct(specs) ==> Distinct(r)
  {
    if |specs| == 0 then [s]
    else if specs[0].tool == s.tool then [s] + specs[1..]
    else [specs[0]] + Put(specs[1..], s)
  }

  function Without(specs: seq<Spec>, tool: string): (r: seq<Spec>)
    ensures forall x :: x in r <==> x in specs && x.tool != tool
  {
    if |specs| == 0 then []
    else if specs[0].tool == tool then Without(specs[1..], tool)
    else [specs[0]] + Without(specs[1..], tool)
  }

  function Register(reg: Registry, s: Spec): Registry {
    if IsLiteral(s.tool) then reg.(exact := Put(reg.exact, s))
    else reg.(globs := Without(reg.globs, s.tool) + [s])
  }

  function Registered(specs: seq<Spec>): Registry {
    if |specs| == 0 then Registry([], [])
    else Register(Registered(specs[..|specs| - 1]), specs[|specs| - 1])
  }

  function Lookup(exact: seq<Spec>, tool: string): (kind: Option<Posture>)
    ensures kind.Some? ==> Spec(tool, kind.value) in exact
    ensures kind.None? ==> forall x :: x in exact ==> x.tool != tool
  {
    if |exact| == 0 then None
    else if exact[0].tool == tool then Some(exact[0].kind)
    else Lookup(exact[1..], tool)
  }

  function KindByGlob(globs: seq<Spec>, tool: string): Option<Posture> {
    if |globs| == 0 then None
    else if FnMatchCase(tool, globs[0].tool) then Some(globs[0].kind)
    else KindByGlob(globs[1..], tool)
  }

  function Classified(reg: Registry, tool: string): Posture {
    match Lookup(reg.exact, tool)
    case Some(kind) => kind
    case None =>
      match KindByGlob(reg.globs, tool)
      case Some(kind) => kind
      case None => Unknown
  }

  function All(reg: Registry): seq<Spec> {
    reg.exact + reg.globs
  }

  // ----- what registration keeps ---------------------------------------------------------------

  ghost predicate WellFormed(reg: Registry) {
    && Distinct(reg.exact)
    && (forall x :: x in reg.exact ==> IsLiteral(x.tool))
    && (forall x :: x in reg.globs ==> !IsLiteral(x.tool))
  }

  /** Whatever is registered, exact names stay unique and stay apart from the globs. */
  lemma {:induction false} RegisteredIsWellFormed(specs: seq<Spec>)
    ensures WellFormed(Registered(specs))
  {
    hide IsLiteral;
    if |specs| > 0 {
      RegisteredIsWellFormed(specs[..|specs| - 1]);
    }
  }

  lemma {:induction false} LookupFinds(exact: seq<Spec>, x: Spec)
    requires Distinct(exact) && x in exact
    ensures Lookup(exact, x.tool) == Some(x.kind)
  {
    if exact[0] != x {
      LookupFinds(exact[1..], x);
    }
  }
}
