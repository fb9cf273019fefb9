/** Python's `fnmatch.fnmatchcase`, read directly off the pattern. Character ranges inside a class
    are outside this model: a hyphen there would have to be a literal. */
module Glob {
  import opened Outcomes

  datatype Token = Star | AnyChar | Char(c: char) | Class(negated: bool, members: string)

  // ----- reading a pattern -------------------------------------------------------------------

  function FindClose(p: string, j: nat): (close: nat)
    requires j <= |p|
    ensures j <= close <= |p|
    ensures close < |p| ==> p[close] == ']'
    decreases |p| - j
  {
    if j == |p| || p[j] == ']' then j else FindClose(p, j + 1)
  }

  /** Where a class ends, given what follows its opening bracket. A leading `!` and a bracket right
      after it, or right at the start, belong to the class. None: the bracket is never closed. */
  function ClassEnd(p: string): (close: Option<nat>)
    ensures close.Some? ==> 0 < close.value < |p|
  {
    var afterBang := if |p| > 0 && p[0] == '!' then 1 else 0;
    var first := if afterBang < |p| && p[afterBang] == ']' then afterBang + 1 else afterBang;
    var close := FindClose(p, first);
    if close < |p| && close > 0 then Some(close) else None
  }

  // A closing bracket that is not the first member of its class.
  predicate Closes(p: string, j: nat)
    requires j < |p|
  {
    p[j] == ']' && j > 0 && !(j == 1 && p[0] == '!')
  }

  lemma {:induction false} FindCloseIsFirst(p: string, j: nat)
    requires j <= |p|
    ensures forall i :: j <= i < FindClose(p, j) ==> p[i] != ']'
    decreases |p| - j
  {
    if j < |p| && p[j] != ']' {
      FindCloseIsFirst(p, j + 1);
    }
  }

  /** A class ends at the first closing bracket that is not its first member, and is not closed if there
      is none. */
  lemma ClassEndIs(p: string)
    ensures forall k: nat :: ClassEnd(p) == Some(k)
              <==> k < |p| && Closes(p, k) && forall i: nat :: i < k ==> !Closes(p, i)
    ensures ClassEnd(p).None? <==> forall i: nat :: i < |p| ==> !Closes(p, i)
  {
    var afterBang := if |p| > 0 && p[0] == '!' then 1 else 0;
    var first := if afterBang < |p| && p[afterBang] == ']' then afterBang + 1 else afterBang;
    FindCloseIsFirst(p, first);
    assert forall i: nat :: i < first && i < |p| ==> !Closes(p, i);
    assert FindClose(p, first) < |p| ==> Closes(p, FindClose(p, first));
  }

  function ClassToken(stuff: string): Token
    requires |stuff| > 0
  {
    if stuff[0] == '!' then Class(true, stuff[1..]) else Class(false, stuff)
  }

  // How much of the pattern its first token takes up: one character, or a whole closed class.
  function Advance(p: string): (n: nat)
    requires |p| > 0
    ensures 0 < n <= |p|
  {
    if p[0] == '[' && ClassEnd(p[1..]).Some? then ClassEnd(p[1..]).value + 2 else 1
  }

  function FirstToken(p: string): Token
    requires |p| > 0
  {
    if p[0] == '*' then Star
    else if p[0] == '?' then AnyChar
    else if p[0] == '[' && ClassEnd(p[1..]).Some? then ClassToken(p[1..][..ClassEnd(p[1..]).value])
    else Char(p[0])
  }

  function Tokens(p: string): seq<Token>
    decreases |p|
  {
    if |p| == 0 then [] else [FirstToken(p)] + Tokens(p[Advance(p)..])
  }

  predicate AcceptsChar(t: Token, c: char) {
    match t
    case Star => true
    case AnyChar => true
    case Char(d) => c == d
    case Class(negated, members) => (c in members) != negated
  }

  /** Matching by backtracking over the tokens. A star runs over any character, a slash included. */
  function Matches(ts: seq<Token>, s: string): bool
    decreases |ts|, |s|
  {
    if |ts| == 0 then |s| == 0
    else if ts[0].Star? then Matches(ts[1..], s) || (|s| > 0 && Matches(ts, s[1..]))
    else |s| > 0 && AcceptsChar(ts[0], s[0]) && Matches(ts[1..], s[1..])
  }

  function FnMatchCase(name: string, pattern: string): bool {
    Matches(Tokens(pattern), name)
  }

  // ----- literal patterns and patterns with one star -------------------------------------------

  predicate IsGlobChar(c: char) {
    c == '*' || c == '?' || c == '['
  }

  predicate IsLiteral(p: string) {
    forall i :: 0 <= i < |p| ==> !IsGlobChar(p[i])
  }

  lemma LiteralSpelledOut(p: string)
    ensures IsLiteral(p) <==> '*' !in p && '?' !in p && '[' !in p
  {
  }

  lemma {:induction false} TokensAfterLiteral(lit: string, rest: string)
    requires IsLiteral(lit)
    ensures |Tokens(lit + rest)| == |lit| + |Tokens(rest)|
    ensures forall i :: 0 <= i < |lit| ==> Tokens(lit + rest)[i] == Char(lit[i])
    ensures Tokens(lit + rest)[|lit|..] == Tokens(rest)
  {
    hide ClassEnd, ClassToken;
    if |lit| == 0 {
      assert lit + rest == rest;
    } else {
      TokensAfterLiteral(lit[1..], rest);
      assert (lit + rest)[1..] == lit[1..] + rest;
      assert !IsGlobChar(lit[0]);
    }
  }

  lemma {:induction false} MatchesLiteralPrefix(ts: seq<Token>, lit: string, s: string)
    requires |ts| >= |lit| && forall i :: 0 <= i < |lit| ==> ts[i] == Char(lit[i])
    ensures Matches(ts, s) <==> lit <= s && Matches(ts[|lit|..], s[|lit|..])
    decreases |lit|
  {
    if |lit| == 0 {
      assert ts[0..] == ts && s[0..] == s;
    } else if |s| > 0 && s[0] == lit[0] {
      MatchesLiteralPrefix(ts[1..], lit[1..], s[1..]);
      assert ts[1..][|lit[1..]|..] == ts[|lit|..];
      if |lit| <= |s| {
        assert s[1..][|lit[1..]|..] == s[|lit|..];
      }
      assert lit[1..] <= s[1..] <==> lit <= s;
    }
  }

  predicate EndsWith(s: string, suffix: string) {
    |suffix| <= |s| && s[|s| - |suffix|..] == suffix
  }

  lemma EndsWithStep(s: string, suffix: string)
    requires |s| > 0
    ensures EndsWith(s, suffix) <==> s == suffix || EndsWith(s[1..], suffix)
  {
    if |suffix| < |s| {
      assert s[1..][|s[1..]| - |suffix|..] == s[|s| - |suffix|..];
    } else if |suffix| == |s| {
      assert s[0..] == s;
    }
  }

  lemma MatchesLiteral(ts: seq<Token>, lit: string, s: string)
    requires |ts| == |lit| && forall i :: 0 <= i < |lit| ==> ts[i] == Char(lit[i])
    ensures Matches(ts, s) <==> s == lit
  {
    hide Matches;
    MatchesLiteralPrefix(ts, lit, s);
    assert ts[|lit|..] == [];
    if lit <= s {
      assert s == lit + s[|lit|..];
      MatchesNothing(s[|lit|..]);
    }
  }

  lemma MatchesNothing(s: string)
    ensures Matches([], s) <==> s == []
  {
  }

  lemma MatchesStar(ts: seq<Token>, s: string)
    requires |ts| > 0 && ts[0].Star?
    ensures Matches(ts, s) <==> Matches(ts[1..], s) || (|s| > 0 && Matches(ts, s[1..]))
  {
  }

  lemma {:induction false} MatchesStarThenLiteral(ts: seq<Token>, suffix: string, s: string)
    requires |ts| == 1 + |suffix| && ts[0].Star? && forall i :: 0 <= i < |suffix| ==> ts[i + 1] == Char(suffix[i])
    ensures Matches(ts, s) <==> EndsWith(s, suffix)
    decreases |s|
  {
    hide Matches;
    MatchesStar(ts, s);
    MatchesLiteral(ts[1..], suffix, s);
    if |s| > 0 {
      MatchesStarThenLiteral(ts, suffix, s[1..]);
      EndsWithStep(s, suffix);
    }
  }

  /** A pattern without glob characters matches itself and nothing else. */
  lemma LiteralMatchesItself(p: string, s: string)
    requires IsLiteral(p)
    ensures FnMatchCase(s, p) <==> s == p
  {
    TokensAfterLiteral(p, "");
    assert p + "" == p;
    MatchesLiteralPrefix(Tokens(p), p, s);
    assert Tokens(p)[|p|..] == [];
  }

  lemma MatchesOneToken(t: Token, s: string)
    requires !t.Star?
    ensures Matches([t], s) <==> |s| == 1 && AcceptsChar(t, s[0])
  {
    hide AcceptsChar;
    assert [t][1..] == [];
    if |s| > 0 {
      MatchesNothing(s[1..]);
    }
  }

  /** A question mark matches any one character. */
  lemma QuestionMarkMatches(s: string)
    ensures FnMatchCase(s, "?") <==> |s| == 1
  {
    assert Tokens("?") == [AnyChar] by { assert "?"[1..] == ""; }
    MatchesOneToken(AnyChar, s);
  }

  /** A class matches one character: one of its members or, after an exclamation mark, none of them. */
  lemma ClassMatches(stuff: string, s: string)
    requires ClassEnd(stuff + "]") == Some(|stuff|)
    ensures FnMatchCase(s, "[" + (stuff + "]"))
       <==> |s| == 1 && if stuff[0] == '!' then s[0] !in stuff[1..] else s[0] in stuff
  {
    hide ClassEnd, FindClose;
    var p, t := "[" + (stuff + "]"), ClassToken(stuff);
    assert p[0] == '[' && p[1..] == stuff + "]" && (stuff + "]")[..|stuff|] == stuff;
    assert p[|stuff| + 2..] == "" && FirstToken(p) == t && Advance(p) == |stuff| + 2;
    assert Tokens(p) == [t];
    MatchesOneToken(t, s);
    if |s| == 1 {
      assert stuff[0] == '!' ==> t == Class(true, stuff[1..]);
    }
  }

  /** A pattern with one star matches exactly the names that start with what precedes the star and,
      without overlap, end with what follows it. */
  lemma OneStarMatches(prefix: string, suffix: string, s: string)
    requires IsLiteral(prefix) && IsLiteral(suffix)
    ensures FnMatchCase(s, prefix + "*" + suffix)
       <==> prefix <= s && EndsWith(s[|prefix|..], suffix)
  {
    var p := prefix + "*" + suffix;
    var tail := "*" + suffix;
    assert p == prefix + tail;
    TokensAfterLiteral(prefix, tail);
    MatchesLiteralPrefix(Tokens(p), prefix, s);
    assert tail[1..] == suffix;
    assert Tokens(tail) == [Star] + Tokens(suffix);
    TokensAfterLiteral(suffix, "");
    assert suffix + "" == suffix;
    if prefix <= s {
      MatchesStarThenLiteral(Tokens(tail), suffix, s[|prefix|..]);
    }
  }

  lemma StarMatchesAll(s: string)
    ensures FnMatchCase(s, "*")
  {
    OneStarMatches("", "", s);
    assert "" + "*" + "" == "*";
    assert s[0..][|s|..] == "";
  }
}
