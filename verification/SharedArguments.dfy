/** `redact_arguments` over dictionaries as objects. The copy it works on is a deep copy, which keeps a
    dictionary that stands in two places one dictionary; so a mask written at one place is read at the
    other. Here is exactly when the masks stay on the paths that were listed. */
module SharedArguments {
  import opened Outcomes
  import opened Redaction

  class Dict {
    var fields: map<string, Value>

    constructor (fields: map<string, Value>)
      ensures this.fields == fields
    {
      this.fields := fields;
    }
  }

  // Lists and whatever they hold are plain values: no path leads into a list.
  datatype Value = Plain(v: Json) | Nested(d: Dict)

  /** What a set of dictionaries holds at one moment. */
  type Graph = map<Dict, map<string, Value>>

  ghost function Snapshot(dicts: set<Dict>): Graph
    reads dicts
  {
    map d | d in dicts :: d.fields
  }

  ghost predicate Closed(g: Graph) {
    forall d, k :: d in g && k in g[d] && g[d][k].Nested? ==> g[d][k].d in g
  }

  // The dictionary that a path leads to.
  ghost function Follow(g: Graph, d: Dict, path: seq<string>): Option<Dict>
    decreases |path|
  {
    if |path| == 0 then Some(d)
    else if d in g && path[0] in g[d] && g[d][path[0]].Nested? then Follow(g, g[d][path[0]].d, path[1..])
    else None
  }

  ghost function Entry(g: Graph, holder: Option<Dict>, key: string): Option<Value> {
    if holder.Some? && holder.value in g && key in g[holder.value] then Some(g[holder.value][key]) else None
  }

  ghost function Read(g: Graph, d: Dict, path: seq<string>): Option<Value> {
    if |path| == 0 then Some(Nested(d)) else Entry(g, Holder(g, d, path), path[|path| - 1])
  }

  // The dictionary in which the path's last key is looked up.
  ghost function Holder(g: Graph, d: Dict, path: Path): Option<Dict> {
    Follow(g, d, path[..|path| - 1])
  }

  const MARKER := Plain(REDACTED)

  ghost function MaskIn(g: Graph, d: Dict, path: Path): Graph {
    var holder, key := Holder(g, d, path), path[|path| - 1];
    if Entry(g, holder, key).Some? then g[holder.value := g[holder.value][key := MARKER]] else g
  }

  ghost function MaskAllIn(g: Graph, d: Dict, paths: seq<Path>): Graph
    decreases |paths|
  {
    if |paths| == 0 then g else MaskAllIn(MaskIn(g, d, paths[0]), d, paths[1..])
  }

  // ----- the loop over the fields ------------------------------------------------------------------

  lemma {:induction false} FollowStep(g: Graph, d: Dict, path: seq<string>, key: string)
    ensures var next := Entry(g, Follow(g, d, path), key);
            Follow(g, d, path + [key]) == if next.Some? && next.value.Nested? then Some(next.value.d) else None
    decreases |path|
  {
    var longer := path + [key];
    if |path| > 0 {
      assert longer[0] == path[0] && longer[1..] == path[1..] + [key];
      if d in g && path[0] in g[d] && g[d][path[0]].Nested? {
        FollowStep(g, g[d][path[0]].d, path[1..], key);
      }
    } else {
      assert longer == [key] && longer[1..] == [];
    }
  }

  lemma {:induction false} FollowStays(g: Graph, d: Dict, path: seq<string>)
    requires Closed(g) && d in g
    ensures Follow(g, d, path).Some? ==> Follow(g, d, path).value in g
    decreases |path|
  {
    if |path| > 0 && path[0] in g[d] && g[d][path[0]].Nested? {
      FollowStays(g, g[d][path[0]].d, path[1..]);
    }
  }

  lemma MaskKeepsClosed(g: Graph, d: Dict, path: Path)
    requires Closed(g)
    ensures Closed(MaskIn(g, d, path)) && MaskIn(g, d, path).Keys == g.Keys
  {
    hide Holder;
    var holder, key := Holder(g, d, path), path[|path| - 1];
    if Entry(g, holder, key).Some? {
      assert MaskIn(g, d, path).Keys == g.Keys;
    }
  }

  /** One field of the list: the walk to the dictionary that holds the last key, and the mask. */
  method MaskOne(out: Dict, parts: Path, ghost dicts: set<Dict>)
    requires out in dicts && Closed(Snapshot(dicts))
    modifies dicts
    ensures Snapshot(dicts) == MaskIn(old(Snapshot(dicts)), out, parts)
  {
    ghost var g := Snapshot(dicts);
    var last := |parts| - 1;
    var cur: Option<Dict> := Some(out);
    var i := 0;
    while i < last
      invariant 0 <= i <= last
      invariant cur.Some? ==> cur.value in dicts
      invariant Snapshot(dicts) == g
      invariant cur == Follow(g, out, parts[..i])
    {
      assert parts[..i + 1] == parts[..i] + [parts[i]];
      FollowStep(g, out, parts[..i], parts[i]);
      FollowStays(g, out, parts[..i + 1]);
      if cur.Some? && parts[i] in cur.value.fields && cur.value.fields[parts[i]].Nested? {
        cur := Some(cur.value.fields[parts[i]].d);
      } else {
        cur := None;
      }
      i := i + 1;
    }
    if cur.Some? && parts[last] in cur.value.fields {
      cur.value.fields := cur.value.fields[parts[last] := MARKER];
    }
    assert Snapshot(dicts).Keys == MaskIn(g, out, parts).Keys;
  }

  /** The source's loop over the field list, on the copy. Nothing but the copy's dictionaries changes. */
  method RedactCopy(out: Dict, fields: seq<string>, ghost dicts: set<Dict>)
    requires out in dicts && Closed(Snapshot(dicts))
    modifies dicts
    ensures Snapshot(dicts) == MaskAllIn(old(Snapshot(dicts)), out, Parsed(fields))
  {
    hide MaskIn;
    ghost var g, paths := Snapshot(dicts), Parsed(fields);
    for i := 0 to |fields|
      invariant Closed(Snapshot(dicts))
      invariant MaskAllIn(Snapshot(dicts), out, paths[i..]) == MaskAllIn(g, out, paths)
    {
      MaskKeepsClosed(Snapshot(dicts), out, paths[i]);
      assert paths[i..][0] == paths[i] && paths[i..][1..] == paths[i + 1..];
      MaskOne(out, SplitDots(fields[i]), dicts);
    }
  }

  // ----- one mask, seen from any path --------------------------------------------------------------

  // At its k-th key the path looks up the very entry that q's last key names.
  ghost predicate MeetsAt(g: Graph, d: Dict, p: seq<string>, q: Path, k: int) {
    0 <= k < |p| && p[k] == q[|q| - 1] && Follow(g, d, p[..k]) == Holder(g, d, q)
  }

  ghost predicate Meets(g: Graph, d: Dict, p: seq<string>, q: Path) {
    exists k :: MeetsAt(g, d, p, q, k)
  }

  lemma {:induction false} FollowAfterMask(g: Graph, d: Dict, q: Path, p: seq<string>)
    requires Read(g, d, q).Some?
    ensures Follow(MaskIn(g, d, q), d, p) == if Meets(g, d, p, q) then None else Follow(g, d, p)
    decreases |p|
  {
    var g' := MaskIn(g, d, q);
    if |p| > 0 {
      var n := |p| - 1;
      var before, key := p[..n], p[n];
      assert p == before + [key];
      FollowAfterMask(g, d, q, before);
      FollowStep(g, d, before, key);
      FollowStep(g', d, before, key);
      MeetsOneMore(g, d, before, key, q);
    }
  }

  lemma MeetsOneMore(g: Graph, d: Dict, p: seq<string>, key: string, q: Path)
    ensures Meets(g, d, p + [key], q) <==> Meets(g, d, p, q) || (key == q[|q| - 1] && Follow(g, d, p) == Holder(g, d, q))
  {
    hide Follow, Holder;
    var longer := p + [key];
    assert longer[..|p|] == p;
    assert forall k :: 0 <= k < |p| ==> longer[..k] == p[..k];
    if Meets(g, d, p, q) {
      var k :| MeetsAt(g, d, p, q, k);
      assert MeetsAt(g, d, longer, q, k);
    }
    if Meets(g, d, longer, q) {
      var k :| MeetsAt(g, d, longer, q, k);
      assert k < |p| ==> MeetsAt(g, d, p, q, k);
    }
    assert key == q[|q| - 1] && Follow(g, d, p) == Holder(g, d, q) ==> MeetsAt(g, d, longer, q, |p|);
  }

  /** Whatever is shared, and on cyclic arguments too: a path that never looks up the masked entry reads as
      before; one that comes to it with its last key reads the marker; beyond it there is nothing. */
  lemma MaskInSeenFrom(g: Graph, d: Dict, q: Path, p: seq<string>)
    requires Read(g, d, q).Some?
    ensures !Meets(g, d, p, q) ==> Read(MaskIn(g, d, q), d, p) == Read(g, d, p)
    ensures Meets(g, d, p, q) ==>
              Read(MaskIn(g, d, q), d, p) == if Meets(g, d, p[..|p| - 1], q) then None else Some(MARKER)
  {
    hide Follow;
    if |p| > 0 {
      var before, key := p[..|p| - 1], p[|p| - 1];
      assert p == before + [key];
      FollowAfterMask(g, d, q, before);
      MeetsOneMore(g, d, before, key, q);
    }
  }

  // ----- when a mask stays on its path -------------------------------------------------------------

  /** No way around: every path to the dictionary that holds the listed entry is the listed one, or goes
      through that entry. */
  ghost predicate OneWay(g: Graph, d: Dict, q: Path) {
    forall p :: Follow(g, d, p) == Holder(g, d, q) ==> p == q[..|q| - 1] || q <= p
  }

  lemma MeetsItself(g: Graph, d: Dict, q: Path, p: seq<string>)
    requires q <= p
    ensures Meets(g, d, p, q)
  {
    hide Follow;
    var k := |q| - 1;
    assert p[..k] == q[..k] && p[k] == q[k];
    assert MeetsAt(g, d, p, q, k);
  }

  lemma OneWayMeetsBelow(g: Graph, d: Dict, q: Path, p: seq<string>)
    requires OneWay(g, d, q) && Meets(g, d, p, q)
    ensures q <= p
  {
    hide Follow;
    var k :| MeetsAt(g, d, p, q, k);
    assert q == q[..|q| - 1] + [q[|q| - 1]];
    if p[..k] == q[..|q| - 1] {
      assert p[..k + 1] == p[..k] + [p[k]];
      assert q == p[..k + 1];
    }
  }

  /** Masking an entry changes nothing outside its own path exactly when the dictionary that holds it
      cannot be reached in another way. */
  lemma MaskStaysOnItsPath(g: Graph, d: Dict, q: Path)
    requires Read(g, d, q).Some? && Read(g, d, q) != Some(MARKER)
    ensures (forall p :: !(q <= p) ==> Read(MaskIn(g, d, q), d, p) == Read(g, d, p)) <==> OneWay(g, d, q)
  {
    hide Follow, Read, MaskIn, Meets;
    if OneWay(g, d, q) {
      forall p | !(q <= p)
        ensures Read(MaskIn(g, d, q), d, p) == Read(g, d, p)
      {
        if Meets(g, d, p, q) {
          OneWayMeetsBelow(g, d, q, p);
        }
        MaskInSeenFrom(g, d, q, p);
      }
    } else {
      var p :| Follow(g, d, p) == Holder(g, d, q) && p != q[..|q| - 1] && !(q <= p);
      AnotherWayIn(g, d, q, p);
    }
  }

  lemma AnotherWayIn(g: Graph, d: Dict, q: Path, p: seq<string>)
    requires Read(g, d, q).Some? && Read(g, d, q) != Some(MARKER)
    requires Follow(g, d, p) == Holder(g, d, q) && p != q[..|q| - 1] && !(q <= p)
    ensures var other := p + [q[|q| - 1]];
            !(q <= other) && Read(MaskIn(g, d, q), d, other) != Read(g, d, other)
  {
    hide Follow, MaskIn;
    var key := q[|q| - 1];
    var other := p + [key];
    assert other[..|p|] == p;
    PrefixOfLonger(q, p, key);
    assert MeetsAt(g, d, other, q, |p|);
    MaskInSeenFrom(g, d, q, other);
  }

  lemma PrefixOfLonger(q: seq<string>, p: seq<string>, key: string)
    ensures q <= p + [key] <==> q <= p || q == p + [key]
  {
    var longer := p + [key];
    assert longer[..|p|] == p;
    if q <= longer && |q| <= |p| {
      assert q == longer[..|q|] == p[..|q|];
    }
  }

  /** Arguments that hold one dictionary under two keys: masking a key under the first masks it under the
      second, a path that is not listed and is unrelated to the one that is. */
  lemma SharedDictionaryIsMaskedTwice(args: Dict, shared: Dict, g: Graph)
    requires args != shared
    requires g == map[args := map["a" := Nested(shared), "b" := Nested(shared)],
                      shared := map["secret" := Plain(Text("x"))]]
    ensures Read(g, args, ["b", "secret"]) == Some(Plain(Text("x")))
    ensures Read(MaskIn(g, args, ["a", "secret"]), args, ["b", "secret"]) == Some(MARKER)
  {
    var q: Path, p: Path := ["a", "secret"], ["b", "secret"];
    assert q[..1] == ["a"] && p[..1] == ["b"] && ["a"][1..] == [] && ["b"][1..] == [];
    assert Holder(g, args, q) == Some(shared) == Holder(g, args, p);
  }

  // ----- the arguments as a value ------------------------------------------------------------------

  /** The dictionaries show the value: each path reads the same in both. */
  ghost predicate Shows(g: Graph, d: Dict, v: Json) {
    forall p :: Same(Read(g, d, p), Resolve(v, p))
  }

  ghost predicate Same(read: Option<Value>, resolved: Option<Json>) {
    match read
    case None => resolved.None?
    case Some(Nested(_)) => resolved.Some? && resolved.value.Object?
    case Some(Plain(x)) => resolved == Some(x) && !x.Object?
  }

  lemma {:induction false} ObjectsStayAbove(v: Json, q: Path, p: seq<string>)
    requires Resolve(v, q).Some? && p < q
    ensures Resolve(Mask(v, q), p).Some? && Resolve(Mask(v, q), p).value.Object?
    decreases |p|
  {
    if |p| > 0 {
      assert p == [p[0]] + p[1..] && q == [q[0]] + q[1..];
      ObjectsStayAbove(v.fields[q[0]], q[1..], p[1..]);
    }
  }

  /** Where there is one way in, masking the dictionaries is masking the value, from every path. */
  lemma MaskInIsMask(g: Graph, d: Dict, v: Json, q: Path)
    requires Shows(g, d, v) && OneWay(g, d, q)
    ensures Shows(MaskIn(g, d, q), d, Mask(v, q))
  {
    hide Read, MaskIn, Follow, Resolve, Mask, OneWay, Meets;
    assert Same(Read(g, d, q), Resolve(v, q));
    if Read(g, d, q).None? {
      NothingToMask(g, d, q);
      MissingPathMasksNothing(v, q);
    } else {
      forall p
        ensures Same(Read(MaskIn(g, d, q), d, p), Resolve(Mask(v, q), p))
      {
        MaskShownFrom(g, d, v, q, p);
      }
    }
  }

  lemma NothingToMask(g: Graph, d: Dict, q: Path)
    requires Read(g, d, q).None?
    ensures MaskIn(g, d, q) == g
  {
  }

  lemma MaskShownFrom(g: Graph, d: Dict, v: Json, q: Path, p: seq<string>)
    requires Shows(g, d, v) && OneWay(g, d, q) && Read(g, d, q).Some?
    ensures Same(Read(MaskIn(g, d, q), d, p), Resolve(Mask(v, q), p))
  {
    hide Read, MaskIn, Follow, Resolve, Mask, OneWay, Meets;
    assert Same(Read(g, d, q), Resolve(v, q)) && Same(Read(g, d, p), Resolve(v, p));
    MaskInSeenFrom(g, d, q, p);
    MaskSeenFrom(v, q, p);
    if Meets(g, d, p, q) {
      OneWayMeetsBelow(g, d, q, p);
      var before := p[..|p| - 1];
      if Meets(g, d, before, q) {
        OneWayMeetsBelow(g, d, q, before);
      } else if q != p {
        assert q <= before;
        MeetsItself(g, d, q, before);
      }
    } else if p < q {
      ObjectsAbove(g, d, q, p);
      ObjectsStayAbove(v, q, p);
    } else if q <= p {
      MeetsItself(g, d, q, p);
    }
  }

  lemma {:induction false} ObjectsAbove(g: Graph, d: Dict, q: Path, p: seq<string>)
    requires Read(g, d, q).Some? && p < q
    ensures Read(g, d, p).Some? && Read(g, d, p).value.Nested?
    decreases |q|
  {
    var n := |q| - 1;
    var before := q[..n];
    if |p| > 0 {
      if |before| > 0 {
        assert before == before[..n - 1] + [before[n - 1]];
        FollowStep(g, d, before[..n - 1], before[n - 1]);
        assert before[..n - 1] == q[..n - 1];
        assert Read(g, d, before).Some? && Read(g, d, before).value.Nested?;
        if |p| < n {
          assert p < before;
          ObjectsAbove(g, d, before, p);
        } else {
          assert p == before;
        }
      }
    }
  }

  /** No dictionary is reached by two paths. */
  ghost predicate Unshared(g: Graph, d: Dict) {
    forall p, q :: Follow(g, d, p).Some? && Follow(g, d, p) == Follow(g, d, q) ==> p == q
  }

  lemma UnsharedStays(g: Graph, d: Dict, q: Path)
    requires Unshared(g, d)
    ensures Unshared(MaskIn(g, d, q), d) && (Holder(g, d, q).Some? ==> OneWay(g, d, q))
  {
    hide Follow, MaskIn, Meets;
    if Read(g, d, q).None? {
      NothingToMask(g, d, q);
    } else {
      forall p, p' | Follow(MaskIn(g, d, q), d, p).Some?
                     && Follow(MaskIn(g, d, q), d, p) == Follow(MaskIn(g, d, q), d, p')
        ensures p == p'
      {
        FollowAfterMask(g, d, q, p);
        FollowAfterMask(g, d, q, p');
      }
    }
  }

  /** And so arguments in which no dictionary stands in two places are redacted as values are. */
  lemma {:induction false} RedactionByValue(g: Graph, d: Dict, v: Json, paths: seq<Path>)
    requires Shows(g, d, v) && Unshared(g, d)
    ensures Shows(MaskAllIn(g, d, paths), d, MaskAll(v, paths))
    decreases |paths|
  {
    hide Shows, Unshared, MaskIn, Mask, OneWay;
    if |paths| > 0 {
      UnsharedStays(g, d, paths[0]);
      if Read(g, d, paths[0]).None? {
        NothingToMask(g, d, paths[0]);
        ShownMissing(g, d, v, paths[0]);
      } else {
        MaskInIsMask(g, d, v, paths[0]);
      }
      RedactionByValue(MaskIn(g, d, paths[0]), d, Mask(v, paths[0]), paths[1..]);
    }
  }

  lemma ShownMissing(g: Graph, d: Dict, v: Json, q: Path)
    requires Shows(g, d, v) && Read(g, d, q).None?
    ensures Mask(v, q) == v
  {
    hide Read, Mask, Resolve;
    assert Same(Read(g, d, q), Resolve(v, q));
    MissingPathMasksNothing(v, q);
  }
}
