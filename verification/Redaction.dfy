/** Masking of dotted argument paths, as `redact_arguments` and `_resolve` of `gate/engine.py` do it
    over decoded JSON arguments. */
module Redaction {
  import opened Outcomes

  datatype Json =
    | Null | Bool(b: bool) | Number(n: real) | Text(s: string)
    | Array(items: seq<Json>)
    | Object(fields: map<string, Json>)

  type Path = p: seq<string> | |p| > 0 witness [""]

  const REDACTED := Text("[REDACTED]")

  /** `str.split(".")`: never empty, and joined with dots it is the path again. */
  function SplitDots(path: string): (parts: Path)
    ensures JoinDots(parts) == path
    ensures forall i :: 0 <= i < |parts| ==> '.' !in parts[i]
  {
    if |path| == 0 then [""]
    else if path[0] == '.' then [""] + SplitDots(path[1..])
    else
      var rest := SplitDots(path[1..]);
      [[path[0]] + rest[0]] + rest[1..]
  }

  function JoinDots(parts: Path): string {
    if |parts| == 1 then parts[0] else parts[0] + "." + JoinDots(parts[1..])
  }

  /** `_resolve`: follow the path through objects only. */
  function Resolve(v: Json, path: seq<string>): Option<Json>
    decreases |path|
  {
    if |path| == 0 then Some(v)
    else if v.Object? && path[0] in v.fields then Resolve(v.fields[path[0]], path[1..])
    else None
  }

  function Mask(v: Json, path: Path): Json
    decreases |path|
  {
    if !v.Object? || path[0] !in v.fields then v
    else if |path| == 1 then Object(v.fields[path[0] := REDACTED])
    else Object(v.fields[path[0] := Mask(v.fields[path[0]], path[1..])])
  }

  function MaskAll(v: Json, paths: seq<Path>): Json
    decreases |paths|
  {
    if |paths| == 0 then v else MaskAll(Mask(v, paths[0]), paths[1..])
  }

  function Parsed(fields: seq<string>): (paths: seq<Path>)
    ensures |paths| == |fields|
  {
    seq(|fields|, i requires 0 <= i < |fields| => SplitDots(fields[i]))
  }

  /** The source's loop over the field list. */
  method RedactArguments(args: Json, fields: seq<string>) returns (out: Json)
    ensures out == MaskAll(args, Parsed(fields))
  {
    out := args;
    ghost var paths := Parsed(fields);
    for i := 0 to |fields|
      invariant MaskAll(out, paths[i..]) == MaskAll(args, paths)
    {
      out := Mask(out, SplitDots(fields[i]));
      assert paths[i..][1..] == paths[i + 1..];
    }
  }

  // ----- order does not matter ---------------------------------------------------------------

  lemma {:induction false} MasksCommute(v: Json, p: Path, q: Path)
    ensures Mask(Mask(v, p), q) == Mask(Mask(v, q), p)
    decreases |p|
  {
    if v.Object? && p[0] in v.fields && q[0] in v.fields {
      if p[0] == q[0] {
        if |p| > 1 && |q| > 1 {
          MasksCommute(v.fields[p[0]], p[1..], q[1..]);
        }
        assert Mask(Mask(v, p), q).fields == Mask(Mask(v, q), p).fields;
      } else {
        assert Mask(Mask(v, p), q).fields == Mask(Mask(v, q), p).fields;
      }
    }
  }

  lemma {:induction false} MaskFirst(v: Json, paths: seq<Path>, i: nat)
    requires i < |paths|
    ensures MaskAll(v, paths) == MaskAll(Mask(v, paths[i]), paths[..i] + paths[i + 1..])
    decreases i
  {
    if i == 0 {
      assert paths[..0] + paths[1..] == paths[1..];
    } else {
      var rest := paths[1..];
      MaskFirst(Mask(v, paths[0]), rest, i - 1);
      MasksCommute(v, paths[0], paths[i]);
      var others := paths[..i] + paths[i + 1..];
      assert others[0] == paths[0] && others[1..] == rest[..i - 1] + rest[i..];
    }
  }

  lemma PositionOf(a: seq<Path>, x: Path) returns (i: nat)
    requires x in multiset(a)
    ensures i < |a| && a[i] == x
  {
    i :| 0 <= i < |a| && a[i] == x;
  }

  lemma WithoutHead(a: seq<Path>, b: seq<Path>, i: nat)
    requires |b| > 0 && multiset(a) == multiset(b) && i < |a| && a[i] == b[0]
    ensures multiset(a[..i] + a[i + 1..]) == multiset(b[1..])
  {
    RemoveOne(a, i);
    assert b == [b[0]] + b[1..];
    assert multiset(b) == multiset{b[0]} + multiset(b[1..]);
  }

  lemma RemoveOne(a: seq<Path>, i: nat)
    requires i < |a|
    ensures multiset(a[..i] + a[i + 1..]) == multiset(a) - multiset{a[i]}
  {
    assert a == (a[..i] + [a[i]]) + a[i + 1..];
    assert multiset(a) == multiset(a[..i] + a[i + 1..]) + multiset{a[i]};
  }

  /** Any reordering of the field list gives the same result. */
  lemma {:induction false} OrderDoesNotMatter(v: Json, a: seq<Path>, b: seq<Path>)
    requires multiset(a) == multiset(b)
    ensures MaskAll(v, a) == MaskAll(v, b)
    decreases |b|
  {
    if |b| == 0 {
      assert |multiset(a)| == 0;
    } else {
      assert b[0] in multiset(b);
      var i := PositionOf(a, b[0]);
      WithoutHead(a, b, i);
      MaskFirst(v, a, i);
      OrderDoesNotMatter(Mask(v, b[0]), a[..i] + a[i + 1..], b[1..]);
    }
  }

  // ----- what is masked and what is left alone -------------------------------------------------

  lemma {:induction false} ExistingPathsArePrefixClosed(v: Json, q: seq<string>, p: seq<string>)
    requires q <= p && Resolve(v, p).Some?
    ensures Resolve(v, q).Some?
    decreases |q|
  {
    if |q| > 0 {
      assert q[1..] <= p[1..];
      ExistingPathsArePrefixClosed(v.fields[p[0]], q[1..], p[1..]);
    }
  }

  lemma {:induction false} MissingPathMasksNothing(v: Json, q: Path)
    requires Resolve(v, q).None?
    ensures Mask(v, q) == v
    decreases |q|
  {
    if v.Object? && q[0] in v.fields && |q| > 1 {
      MissingPathMasksNothing(v.fields[q[0]], q[1..]);
      assert v.fields[q[0] := v.fields[q[0]]] == v.fields;
    }
  }

  /** One mask, seen from any path: the masked path reads as the marker, nothing is left below it,
      paths above it go on existing, and unrelated paths keep their value. */
  lemma {:induction false} MaskSeenFrom(v: Json, q: Path, p: seq<string>)
    requires Resolve(v, q).Some?
    ensures q == p ==> Resolve(Mask(v, q), p) == Some(Text("[REDACTED]"))
    ensures q < p ==> Resolve(Mask(v, q), p) == None
    ensures p < q ==> Resolve(Mask(v, q), p).Some?
    ensures !(p <= q) && !(q <= p) ==> Resolve(Mask(v, q), p) == Resolve(v, p)
    decreases |p|
  {
    if |p| > 0 && p[0] == q[0] {
      assert p == [p[0]] + p[1..] && q == [q[0]] + q[1..];
      if |q| > 1 {
        MaskSeenFrom(v.fields[q[0]], q[1..], p[1..]);
      } else {
        assert q <= p;
        assert |p| > 1 ==> Resolve(REDACTED, p[1..]) == None;
      }
    }
  }

  // Some listed path strictly above p exists.
  ghost predicate Buried(v: Json, paths: seq<Path>, p: seq<string>) {
    exists i :: 0 <= i < |paths| && paths[i] < p && Resolve(v, paths[i]).Some?
  }

  ghost predicate Listed(paths: seq<Path>, p: seq<string>) {
    exists i :: 0 <= i < |paths| && paths[i] == p
  }

  // Every listed path that exists is unrelated to p.
  ghost predicate Unrelated(v: Json, paths: seq<Path>, p: seq<string>) {
    forall i :: 0 <= i < |paths| && Resolve(v, paths[i]).Some? ==> !(p <= paths[i]) && !(paths[i] <= p)
  }

  /** The redacted arguments read from any path p. Strictly under a listed path that existed there is
      nothing; a listed path that existed and lies under no other one reads as the marker; every other
      path exists exactly when it did; and a path unrelated to the listed ones has its old value. */
  lemma RedactionSeenFrom(v: Json, paths: seq<Path>, p: seq<string>)
    ensures Buried(v, paths, p) ==> Resolve(MaskAll(v, paths), p) == None
    ensures !Buried(v, paths, p) && Listed(paths, p) && Resolve(v, p).Some? ==>
              Resolve(MaskAll(v, paths), p) == Some(Text("[REDACTED]"))
    ensures !Buried(v, paths, p) ==> (Resolve(MaskAll(v, paths), p).Some? <==> Resolve(v, p).Some?)
    ensures Unrelated(v, paths, p) ==> Resolve(MaskAll(v, paths), p) == Resolve(v, p)
  {
    if Buried(v, paths, p) {
      var i :| 0 <= i < |paths| && paths[i] < p && Resolve(v, paths[i]).Some?;
      MaskFirst(v, paths, i);
      MaskSeenFrom(v, paths[i], p);
      MissingStaysMissing(Mask(v, paths[i]), paths[..i] + paths[i + 1..], p);
    } else if Resolve(v, p).Some? {
      NothingListedAbove(v, paths, p);
      if Listed(paths, p) {
        var i :| 0 <= i < |paths| && paths[i] == p;
        MaskFirst(v, paths, i);
        MaskSeenFrom(v, p, p);
        MarkerStays(Mask(v, p), paths[..i] + paths[i + 1..], p);
      } else {
        ExistingStays(v, paths, p);
      }
    } else {
      MissingStaysMissing(v, paths, p);
    }
    if Unrelated(v, paths, p) {
      UnrelatedKeepsValue(v, paths, p);
    }
  }

  lemma NothingListedAbove(v: Json, paths: seq<Path>, p: seq<string>)
    requires !Buried(v, paths, p) && Resolve(v, p).Some?
    ensures forall i :: 0 <= i < |paths| ==> !(paths[i] < p)
  {
    forall i | 0 <= i < |paths| && paths[i] < p
      ensures false
    {
      ExistingPathsArePrefixClosed(v, paths[i], p);
    }
  }

  lemma {:induction false} MaskCreatesNothing(v: Json, q: Path, p: seq<string>)
    requires Resolve(v, p).None?
    ensures Resolve(Mask(v, q), p).None?
  {
    if Resolve(v, q).None? {
      MissingPathMasksNothing(v, q);
    } else if p <= q {
      ExistingPathsArePrefixClosed(v, p, q);
    } else {
      MaskSeenFrom(v, q, p);
    }
  }

  lemma {:induction false} MissingStaysMissing(v: Json, paths: seq<Path>, p: seq<string>)
    requires Resolve(v, p).None?
    ensures Resolve(MaskAll(v, paths), p).None?
    decreases |paths|
  {
    if |paths| > 0 {
      MaskCreatesNothing(v, paths[0], p);
      MissingStaysMissing(Mask(v, paths[0]), paths[1..], p);
    }
  }

  lemma {:induction false} MarkerStays(v: Json, paths: seq<Path>, p: Path)
    requires Resolve(v, p) == Some(REDACTED)
    requires forall i :: 0 <= i < |paths| ==> !(paths[i] < p)
    ensures Resolve(MaskAll(v, paths), p) == Some(REDACTED)
    decreases |paths|
  {
    if |paths| > 0 {
      var q := paths[0];
      if Resolve(v, q).None? {
        MissingPathMasksNothing(v, q);
      } else {
        if p < q {
          NothingUnderTheMarker(v, p, q);
        }
        MaskSeenFrom(v, q, p);
      }
      MarkerStays(Mask(v, q), paths[1..], p);
    }
  }

  lemma {:induction false} NothingUnderTheMarker(v: Json, p: seq<string>, q: seq<string>)
    requires Resolve(v, p) == Some(REDACTED) && p < q
    ensures Resolve(v, q).None?
    decreases |p|
  {
    if |p| > 0 {
      assert p == [p[0]] + p[1..] && q == [q[0]] + q[1..];
      NothingUnderTheMarker(v.fields[p[0]], p[1..], q[1..]);
    }
  }

  lemma {:induction false} ExistingStays(v: Json, paths: seq<Path>, p: seq<string>)
    requires Resolve(v, p).Some?
    requires forall i :: 0 <= i < |paths| ==> !(paths[i] < p) && paths[i] != p
    ensures Resolve(MaskAll(v, paths), p).Some?
    decreases |paths|
  {
    if |paths| > 0 {
      var q := paths[0];
      if Resolve(v, q).None? {
        MissingPathMasksNothing(v, q);
      } else {
        MaskSeenFrom(v, q, p);
      }
      ExistingStays(Mask(v, q), paths[1..], p);
    }
  }

  lemma {:induction false} UnrelatedKeepsValue(v: Json, paths: seq<Path>, p: seq<string>)
    requires Unrelated(v, paths, p)
    ensures Resolve(MaskAll(v, paths), p) == Resolve(v, p)
    decreases |paths|
  {
    if |paths| > 0 {
      var q, rest := paths[0], paths[1..];
      if Resolve(v, q).None? {
        MissingPathMasksNothing(v, q);
      } else {
        MaskSeenFrom(v, q, p);
      }
      forall i | 0 <= i < |rest| && Resolve(Mask(v, q), rest[i]).Some?
        ensures !(p <= rest[i]) && !(rest[i] <= p)
      {
        assert rest[i] == paths[i + 1];
        if Resolve(v, rest[i]).None? {
          MaskCreatesNothing(v, q, rest[i]);
        }
      }
      UnrelatedKeepsValue(Mask(v, q), rest, p);
    }
  }
}
