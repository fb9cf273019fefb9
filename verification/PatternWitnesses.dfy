/** One string for each pattern, `_glob_witnesses` in `prove.py`, and what that string stands for. */
module PatternWitnesses {
  import opened Glob
  import opened Ordering

  const FILLER := "Zq7"
  const UNMATCHED := "Zq7-unmatched-by-anything"

  // ----- simple patterns -----------------------------------------------------------------------

  predicate IsSimpleChar(c: char) {
    'A' <= c <= 'Z' || 'a' <= c <= 'z' || '0' <= c <= '9' || c == '_' || c == '.' || c == ':' || c == '/' || c == '-'
  }

  function StarPos(p: string): (k: nat)
    ensures k <= |p|
    ensures k < |p| ==> p[k] == '*'
    ensures forall i :: 0 <= i < k ==> p[i] != '*'
  {
    if |p| == 0 || p[0] == '*' then 0 else 1 + StarPos(p[1..])
  }

  predicate AllSimpleChars(s: string) {
    forall i :: 0 <= i < |s| ==> IsSimpleChar(s[i])
  }

  // The end of the expression also accepts one line feed.
  predicate IsSimpleEnd(s: string) {
    AllSimpleChars(s) || (|s| > 0 && s[|s| - 1] == '\n' && AllSimpleChars(s[..|s| - 1]))
  }

  /** Simple characters with at most one star. */
  predicate IsSimple(p: string) {
    var k := StarPos(p);
    if k == |p| then IsSimpleEnd(p) else AllSimpleChars(p[..k]) && IsSimpleEnd(p[k + 1..])
  }

  /** The regular expression of the source: characters of its class, at most one star, characters of its class
      again; and, as a dollar sign has it, perhaps a line feed. */
  lemma SimpleSpelledOut(p: string)
    ensures IsSimple(p) <==> exists head, star, tail, end: string ::
      && p == head + star + tail + end && star in {"", "*"} && end in {"", "\n"}
      && forall c :: c in head + tail ==>
           'A' <= c <= 'Z' || 'a' <= c <= 'z' || '0' <= c <= '9' || c in {'_', '.', ':', '/', '-'}
  {
    if IsSimple(p) {
      SimpleIsCut(p);
    }
    if head, star, tail, end: string :|
        && p == head + star + tail + end && star in {"", "*"} && end in {"", "\n"}
        && forall c :: c in head + tail ==>
             'A' <= c <= 'Z' || 'a' <= c <= 'z' || '0' <= c <= '9' || c in {'_', '.', ':', '/', '-'}
    {
      CutIsSimple(p, head, star, tail, end);
    }
  }

  lemma EndIsCut(s: string) returns (tail: string, end: string)
    requires IsSimpleEnd(s)
    ensures s == tail + end && end in {"", "\n"} && AllSimpleChars(tail)
  {
    if AllSimpleChars(s) {
      tail, end := s, "";
    } else {
      tail, end := s[..|s| - 1], "\n";
    }
  }

  lemma SimpleIsCut(p: string)
    requires IsSimple(p)
    ensures exists head, star, tail, end: string ::
      && p == head + star + tail + end && star in {"", "*"} && end in {"", "\n"}
      && forall c :: c in head + tail ==>
           'A' <= c <= 'Z' || 'a' <= c <= 'z' || '0' <= c <= '9' || c in {'_', '.', ':', '/', '-'}
  {
    hide StarPos;
    var k := StarPos(p);
    if k == |p| {
      var tail, end := EndIsCut(p);
      assert p == "" + "" + tail + end;
    } else {
      var tail, end := EndIsCut(p[k + 1..]);
      SplitAtStar(p, k);
      assert p == p[..k] + "*" + tail + end;
    }
  }

  // The characters of the source's class.
  predicate InClass(s: string) {
    forall c :: c in s ==> 'A' <= c <= 'Z' || 'a' <= c <= 'z' || '0' <= c <= '9' || c in {'_', '.', ':', '/', '-'}
  }

  lemma InClassIsSimple(s: string)
    ensures InClass(s) ==> AllSimpleChars(s) && '*' !in s
  {
    if InClass(s) {
      forall i | 0 <= i < |s|
        ensures IsSimpleChar(s[i]) && s[i] != '*'
      {
        assert s[i] in s;
      }
    }
  }

  lemma CutIsSimple(p: string, head: string, star: string, tail: string, end: string)
    requires p == head + star + tail + end && star in {"", "*"} && end in {"", "\n"}
    requires InClass(head + tail)
    ensures IsSimple(p)
  {
    hide StarPos, IsSimpleEnd, InClass, AllSimpleChars;
    PartsInClass(head, tail);
    InClassIsSimple(head);
    InClassIsSimple(tail);
    InClassIsSimple(head + tail);
    if star == "*" {
      assert p[|head|] == '*' && p[..|head|] == head && p[|head| + 1..] == tail + end;
      assert forall i :: 0 <= i < |head| ==> p[i] == head[i];
      StarPosIs(p, |head|);
      EndIsSimple(tail, end);
    } else {
      assert p == (head + tail) + end;
      StarPosIs(p, |p|);
      EndIsSimple(head + tail, end);
    }
  }

  lemma PartsInClass(head: string, tail: string)
    requires InClass(head + tail)
    ensures InClass(head) && InClass(tail)
  {
    assert forall c :: c in head || c in tail ==> c in head + tail;
  }

  lemma EndIsSimple(tail: string, end: string)
    requires AllSimpleChars(tail) && end in {"", "\n"}
    ensures IsSimpleEnd(tail + end)
  {
    if end == "" {
      assert tail + end == tail;
    } else {
      assert (tail + end)[..|tail + end| - 1] == tail;
    }
  }

  lemma StarPosIs(p: string, k: nat)
    requires k <= |p| && (forall i :: 0 <= i < k ==> p[i] != '*') && (k < |p| ==> p[k] == '*')
    ensures StarPos(p) == k
  {
    hide StarPos;
  }

  lemma SimpleEndIsLiteral(s: string)
    requires IsSimpleEnd(s)
    ensures IsLiteral(s)
  {
  }

  lemma SimpleCharsAreLiteral(s: string)
    requires AllSimpleChars(s)
    ensures IsLiteral(s)
  {
  }

  lemma SplitAtStar(p: string, k: nat)
    requires k < |p| && p[k] == '*'
    ensures p == p[..k] + "*" + p[k + 1..]
  {
  }

  lemma SimpleParts(p: string)
    requires IsSimple(p)
    ensures var k := StarPos(p);
            IsLiteral(p[..k]) && (k < |p| ==> IsLiteral(p[k + 1..]) && p == p[..k] + "*" + p[k + 1..])
  {
    hide StarPos, IsSimpleEnd, AllSimpleChars, IsLiteral;
    var k := StarPos(p);
    if k == |p| {
      SimpleEndIsLiteral(p);
      assert p[..k] == p;
    } else {
      SimpleCharsAreLiteral(p[..k]);
      SimpleEndIsLiteral(p[k + 1..]);
      SplitAtStar(p, k);
    }
  }

  // `p.replace("*", FILLER)`.
  function Filled(p: string): string {
    if |p| == 0 then [] else (if p[0] == '*' then FILLER else [p[0]]) + Filled(p[1..])
  }

  lemma {:induction false} FilledLiteral(p: string)
    requires IsLiteral(p)
    ensures Filled(p) == p
  {
    if |p| > 0 {
      assert !IsGlobChar(p[0]);
      FilledLiteral(p[1..]);
    }
  }

  lemma {:induction false} FilledStar(prefix: string, suffix: string)
    requires IsLiteral(prefix) && IsLiteral(suffix)
    ensures Filled(prefix + "*" + suffix) == prefix + FILLER + suffix
  {
    var p := prefix + "*" + suffix;
    if |prefix| == 0 {
      FilledLiteral(suffix);
      assert p[1..] == suffix;
    } else {
      FilledStar(prefix[1..], suffix);
      assert !IsGlobChar(prefix[0]);
      assert p[1..] == prefix[1..] + "*" + suffix;
    }
  }

  predicate Avoids(s: string, c: char) {
    forall i :: 0 <= i < |s| ==> s[i] != c
  }

  // ----- what a filled pattern stands for --------------------------------------------------------

  /** Every name that `p` matches is a name that `q` matches, read off the two patterns. */
  predicate Covers(q: string, p: string) {
    var k := StarPos(p);
    if k == |p| then FnMatchCase(p, q)
    else
      var j := StarPos(q);
      j < |q| && q[..j] <= p[..k] && EndsWith(p[k + 1..], q[j + 1..])
  }

  // What a simple pattern matches, in terms of its two ends.
  predicate Fits(p: string, s: string) {
    var k := StarPos(p);
    if k == |p| then s == p else p[..k] <= s && EndsWith(s[k..], p[k + 1..])
  }

  lemma SimpleMatches(p: string, s: string)
    requires IsSimple(p)
    ensures FnMatchCase(s, p) <==> Fits(p, s)
  {
    hide FnMatchCase, StarPos, IsSimple;
    var k := StarPos(p);
    SimpleParts(p);
    if k == |p| {
      assert p[..k] == p;
      LiteralMatchesItself(p, s);
    } else {
      OneStarMatches(p[..k], p[k + 1..], s);
    }
  }

  lemma FilledShape(p: string)
    requires IsSimple(p)
    ensures var k := StarPos(p);
            Filled(p) == if k == |p| then p else p[..k] + FILLER + p[k + 1..]
  {
    hide StarPos, IsSimple, Filled;
    var k := StarPos(p);
    SimpleParts(p);
    if k == |p| {
      assert p[..k] == p;
      FilledLiteral(p);
    } else {
      FilledStar(p[..k], p[k + 1..]);
    }
  }

  /** A filled pattern is one of the names the pattern matches. */
  lemma FilledMatches(p: string)
    requires IsSimple(p)
    ensures FnMatchCase(Filled(p), p)
  {
    hide FnMatchCase, StarPos, IsSimple, Filled;
    var k := StarPos(p);
    FilledShape(p);
    SimpleMatches(p, Filled(p));
    if k < |p| {
      var rest := Filled(p)[k..];
      assert rest == FILLER + p[k + 1..];
      assert rest[|rest| - |p[k + 1..]|..] == p[k + 1..];
    }
  }

  lemma EndsWithLonger(s: string, middle: string, tail: string)
    requires EndsWith(s, middle) && EndsWith(middle, tail)
    ensures EndsWith(s, tail)
  {
    assert s[|s| - |tail|..] == s[|s| - |middle|..][|middle| - |tail|..];
  }

  lemma EndsWithinSuffix(s: string, from: nat, tail: string)
    requires from <= |s| && EndsWith(s[from..], tail)
    ensures forall i :: 0 <= i <= from ==> EndsWith(s[i..], tail)
  {
  }

  lemma CoversIsSound(q: string, p: string, s: string)
    requires IsSimple(p) && IsSimple(q) && Covers(q, p) && FnMatchCase(s, p)
    ensures FnMatchCase(s, q)
  {
    hide FnMatchCase, StarPos, IsSimple;
    var k, j := StarPos(p), StarPos(q);
    SimpleMatches(p, s);
    SimpleMatches(q, s);
    if k < |p| {
      EndsWithLonger(s[k..], p[k + 1..], q[j + 1..]);
      EndsWithinSuffix(s, k, q[j + 1..]);
    }
  }

  // ----- the witnesses of a field --------------------------------------------------------------

  predicate AllSimple(patterns: set<string>) {
    forall p :: p in patterns ==> IsSimple(p)
  }

  /** The names tried for a field: the given literals, one filled name for each simple pattern other
      than the bare star, and one name meant for the bare star alone. */
  ghost predicate IsNameWitness(patterns: set<string>, literals: set<string>, w: string) {
    w in literals || w == UNMATCHED || exists p :: p in patterns && p != "*" && IsSimple(p) && w == Filled(p)
  }

  method GlobWitnesses(patterns: set<string>, literals: set<string>) returns (names: seq<string>, problems: set<string>)
    ensures Ascending(LessString, names)
    ensures forall w :: w in names <==> IsNameWitness(patterns, literals, w)
    ensures problems == set p | p in patterns && !IsSimple(p)
    ensures "Zq7-unmatched-by-anything" in names && forall x :: x in literals ==> x in names
  {
    hide IsSimple, Filled, LessString;
    StringsAreOrdered();
    names, problems := [], {};
    var rest := literals;
    while rest != {}
      invariant rest <= literals && Ascending(LessString, names)
      invariant forall w :: w in names <==> w in literals - rest
    {
      var x :| x in rest;
      rest := rest - {x};
      names := Insert(LessString, x, names);
    }
    rest := patterns;
    while rest != {}
      invariant rest <= patterns && Ascending(LessString, names)
      invariant forall w :: w in names <==>
                  w in literals || exists p :: p in patterns - rest && p != "*" && IsSimple(p) && w == Filled(p)
      invariant problems == set p | p in patterns - rest && !IsSimple(p)
    {
      var p :| p in rest;
      rest := rest - {p};
      if p == "*" {
        StarIsSimple();
      } else if !IsSimple(p) {
        problems := problems + {p};
      } else {
        names := Insert(LessString, Filled(p), names);
      }
    }
    names := Insert(LessString, UNMATCHED, names);
  }

  lemma StarIsSimple()
    ensures IsSimple("*")
  {
  }

  // ----- when the fillers hit nothing by accident ------------------------------------------------

  /** A pattern matches another pattern's filled name only when it covers that pattern, and only the
      bare star matches the catch-all name. */
  predicate IsFresh(patterns: set<string>) {
    && (forall p, q :: p in patterns && p != "*" && q in patterns && FnMatchCase(Filled(p), q) ==> Covers(q, p))
    && (forall q :: q in patterns && FnMatchCase(UNMATCHED, q) ==> q == "*")
  }

  /** The filled name of a pattern is the most general name it matches: whatever pattern of the field
      matches it matches every name of the pattern. */
  lemma FilledIsMostGeneral(patterns: set<string>, literals: set<string>, p: string, s: string) returns (w: string)
    requires AllSimple(patterns) && IsFresh(patterns) && p in patterns && FnMatchCase(s, p)
    ensures IsNameWitness(patterns, literals, w) && FnMatchCase(w, p)
    ensures forall q :: q in patterns && FnMatchCase(w, q) ==> FnMatchCase(s, q)
  {
    hide FnMatchCase, IsSimple, Filled, Covers;
    if p == "*" {
      w := UNMATCHED;
      StarMatchesAll(w);
      StarMatchesAll(s);
    } else {
      w := Filled(p);
      FilledMatches(p);
      forall q | q in patterns && FnMatchCase(w, q)
        ensures FnMatchCase(s, q)
      {
        CoversIsSound(q, p, s);
      }
    }
  }

  /** Reading coverage off the patterns is exact as well as sound. A character that no simple pattern
      holds tells the ends apart. */
  lemma CoversIsComplete(q: string, p: string)
    requires IsSimple(p) && IsSimple(q)
    requires forall s :: FnMatchCase(s, p) ==> FnMatchCase(s, q)
    ensures Covers(q, p)
  {
    hide FnMatchCase, StarPos, IsSimple, Filled, Fits, EndsWith;
    var k := StarPos(p);
    FilledMatches(p);
    FilledShape(p);
    if k < |p| {
      var s := p[..k] + "\0" + p[k + 1..];
      OddNameFits(p, k, s);
      SimpleMatches(p, s);
      SimpleMatches(q, s);
      SimpleMatches(q, Filled(p));
      OddNameFixesEnds(q, p[..k], p[k + 1..]);
    }
  }

  lemma OddNameFixesEnds(q: string, p0: string, p1: string)
    requires IsSimple(q) && Fits(q, p0 + "\0" + p1) && Fits(q, p0 + FILLER + p1)
    ensures StarPos(q) < |q| && q[..StarPos(q)] <= p0 && EndsWith(p1, q[StarPos(q) + 1..])
  {
    hide StarPos, IsSimple, EndsWith;
    LengthsDiffer(p0, p1);
    assert StarPos(q) < |q|;
    NoOddCharacter(q);
    OddEnds(q[..StarPos(q)], q[StarPos(q) + 1..], p0, p1);
  }

  lemma LengthsDiffer(before: string, after: string)
    ensures before + "\0" + after != before + FILLER + after
  {
    assert |before + "\0" + after| != |before + FILLER + after|;
  }

  lemma OddEnds(q0: string, q1: string, p0: string, p1: string)
    requires Avoids(q0, '\0') && Avoids(q1, '\0')
    requires q0 <= p0 + "\0" + p1 && EndsWith((p0 + "\0" + p1)[|q0|..], q1)
    ensures q0 <= p0 && EndsWith(p1, q1)
  {
    hide Avoids, EndsWith;
    var s := p0 + "\0" + p1;
    OddPrefix(q0, p0, p1);
    assert s[|q0|..] == p0[|q0|..] + "\0" + p1;
    assert s[|q0|..][|s| - |q0| - |p1| - 1..] == "\0" + p1;
    OddSuffix(s[|q0|..], q1, p1);
  }

  lemma OddPrefix(q: string, p: string, rest: string)
    requires Avoids(q, '\0') && q <= p + "\0" + rest
    ensures q <= p
  {
    var s := p + "\0" + rest;
    assert s[|p|] == '\0';
    assert forall i :: 0 <= i < |q| ==> s[i] == q[i];
    assert p == s[..|p|];
  }

  lemma OddNameFits(p: string, k: nat, s: string)
    requires k == StarPos(p) < |p| && s == p[..k] + "\0" + p[k + 1..]
    ensures Fits(p, s)
  {
  }

  lemma NoOddCharacter(q: string)
    requires IsSimple(q) && StarPos(q) < |q|
    ensures Avoids(q[..StarPos(q)], '\0') && Avoids(q[StarPos(q) + 1..], '\0')
  {
    hide StarPos, IsSimpleEnd;
    SimpleEndAvoids(q[StarPos(q) + 1..]);
  }

  lemma SimpleEndAvoids(s: string)
    requires IsSimpleEnd(s)
    ensures Avoids(s, '\0')
  {
  }

  lemma OddSuffix(s: string, q: string, p: string)
    requires Avoids(q, '\0') && EndsWith(s, q) && |s| > |p| && s[|s| - |p| - 1..] == "\0" + p
    ensures EndsWith(p, q)
  {
    assert s[|s| - |p| - 1] == ("\0" + p)[0];
    assert forall i :: |s| - |q| <= i < |s| ==> s[i] == q[i - (|s| - |q|)];
    assert p == ("\0" + p)[1..] == s[|s| - |p|..];
  }

  // A filled name is matched only by patterns that match every name of its pattern; the catch-all name
  // only by patterns that match every name.
  ghost predicate FilledNamesSpeakForAll(patterns: set<string>) {
    forall p, q, s | p in patterns && p != "*" && q in patterns ::
      FnMatchCase(Filled(p), q) && FnMatchCase(s, p) ==> FnMatchCase(s, q)
  }

  ghost predicate CatchAllSpeaksForAll(patterns: set<string>) {
    forall q, s | q in patterns :: FnMatchCase(UNMATCHED, q) ==> FnMatchCase(s, q)
  }

  /** One name stands for everything its pattern matches exactly when the fillers are fresh. */
  lemma FreshExactly(patterns: set<string>)
    requires AllSimple(patterns)
    ensures IsFresh(patterns) <==> FilledNamesSpeakForAll(patterns) && CatchAllSpeaksForAll(patterns)
  {
    hide FnMatchCase, IsSimple, Filled, Covers;
    if IsFresh(patterns) {
      forall p, q, s | p in patterns && p != "*" && q in patterns && FnMatchCase(Filled(p), q) && FnMatchCase(s, p)
        ensures FnMatchCase(s, q)
      {
        CoversIsSound(q, p, s);
      }
      forall q, s | q in patterns && FnMatchCase(UNMATCHED, q)
        ensures FnMatchCase(s, q)
      {
        StarMatchesAll(s);
      }
    }
    if FilledNamesSpeakForAll(patterns) {
      forall p, q | p in patterns && p != "*" && q in patterns && FnMatchCase(Filled(p), q)
        ensures Covers(q, p)
      {
        CoversIsComplete(q, p);
      }
    }
    if CatchAllSpeaksForAll(patterns) {
      forall q | q in patterns && FnMatchCase(UNMATCHED, q)
        ensures q == "*"
      {
        assert FnMatchCase("", q);
        MatchingNothingMatchesAll(q);
      }
    }
  }

  lemma MatchingNothingMatchesAll(q: string)
    requires IsSimple(q) && FnMatchCase("", q) && FnMatchCase(UNMATCHED, q)
    ensures q == "*"
  {
    hide FnMatchCase, StarPos, IsSimple;
    SimpleMatches(q, "");
    SimpleMatches(q, UNMATCHED);
  }

  // ----- a reading of freshness that an author can check by eye ----------------------------------

  /** Neither a `Z` nor a `7` anywhere, and no final `g` after a star. */
  predicate IsTame(p: string) {
    Avoids(p, 'Z') && Avoids(p, '7') && (StarPos(p) < |p| ==> p[|p| - 1] != 'g')
  }

  /** Fields whose simple patterns are all tame have fresh fillers. */
  lemma TamePatternsAreFresh(patterns: set<string>)
    requires AllSimple(patterns) && forall p :: p in patterns ==> IsTame(p)
    ensures IsFresh(patterns)
  {
    hide FnMatchCase, IsSimple, Filled, Covers, IsTame;
    forall p, q | p in patterns && q in patterns && FnMatchCase(Filled(p), q)
      ensures Covers(q, p)
    {
      TameFiller(p, q);
    }
    forall q | q in patterns && FnMatchCase(UNMATCHED, q)
      ensures q == "*"
    {
      TameUnmatched(q);
    }
  }

  lemma TamePrefix(q: string, p: string, rest: string)
    requires Avoids(q, 'Z') && q <= p + FILLER + rest
    ensures q <= p
  {
    var w := p + FILLER + rest;
    assert w[|p|] == 'Z';
    assert forall i :: 0 <= i < |q| ==> w[i] == q[i];
    assert p == w[..|p|];
  }

  lemma TameSuffix(q: string, p: string, s: string)
    requires Avoids(q, '7') && EndsWith(s, q) && EndsWith(s, "7" + p)
    ensures EndsWith(p, q)
  {
    assert s[|s| - |p| - 1] == ("7" + p)[0] == '7';
    assert forall i :: |s| - |q| <= i < |s| ==> s[i] == q[i - (|s| - |q|)];
    assert p == ("7" + p)[1..] == s[|s| - |p|..];
  }

  lemma TameEnds(q0: string, q1: string, p0: string, p1: string)
    requires Avoids(q0, 'Z') && Avoids(q1, '7')
    requires q0 <= p0 + FILLER + p1 && EndsWith((p0 + FILLER + p1)[|q0|..], q1)
    ensures q0 <= p0 && EndsWith(p1, q1)
  {
    TamePrefix(q0, p0, p1);
    var rest := (p0 + FILLER + p1)[|q0|..];
    assert rest == p0[|q0|..] + "Zq" + ("7" + p1);
    TameSuffix(q1, p1, rest);
  }

  lemma TameFits(q: string, p0: string, p1: string)
    requires Avoids(q, 'Z') && Avoids(q, '7') && Fits(q, p0 + FILLER + p1)
    ensures StarPos(q) < |q| && q[..StarPos(q)] <= p0 && EndsWith(p1, q[StarPos(q) + 1..])
  {
    hide StarPos, EndsWith;
    var j := StarPos(q);
    assert (p0 + FILLER + p1)[|p0|] == 'Z';
    assert j < |q|;
    TameEnds(q[..j], q[j + 1..], p0, p1);
  }

  lemma TameFiller(p: string, q: string)
    requires IsSimple(p) && IsSimple(q) && IsTame(p) && IsTame(q) && FnMatchCase(Filled(p), q)
    ensures Covers(q, p)
  {
    hide FnMatchCase, StarPos, IsSimple, Filled, Fits, EndsWith, Avoids;
    var k := StarPos(p);
    FilledShape(p);
    SimpleMatches(q, Filled(p));
    if k < |p| { TameFits(q, p[..k], p[k + 1..]); }
  }

  lemma TameUnmatched(q: string)
    requires IsSimple(q) && IsTame(q) && FnMatchCase(UNMATCHED, q)
    ensures q == "*"
  {
    hide FnMatchCase, StarPos, IsSimple;
    var j := StarPos(q);
    SimpleMatches(q, UNMATCHED);
    assert UNMATCHED[0] == 'Z';
    assert UNMATCHED[|UNMATCHED| - 1] == 'g';
    assert j >= |q| - 1;
  }
}
