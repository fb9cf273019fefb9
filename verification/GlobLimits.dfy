/** Where the Go matcher parts from Python's: inside a class, Go reads `[:` and a later `:]`, wherever
    the pattern puts it, as one of its named classes. */
module GlobLimits {
  import opened Outcomes
  import opened Glob
  import opened GlobRegex

  lemma {:induction false} FindCloseIs(p: string, j: nat, k: nat)
    requires j <= k < |p| && p[k] == ']' && forall i :: j <= i < k ==> p[i] != ']'
    ensures FindClose(p, j) == k
    decreases k - j
  {
    if j < k {
      FindCloseIs(p, j + 1, k);
    }
  }

  // A pattern that starts with a class, taken apart.
  lemma ClassFirst(stuff: string, tail: string)
    requires IsClassStuff(stuff)
    ensures var p := "[" + stuff + "]" + tail;
            && IsClassHere(p) && StuffHere(p) == stuff && Advance(p) == |stuff| + 2 && p[Advance(p)..] == tail
            && FirstToken(p) == ClassToken(stuff)
  {
    var p := "[" + stuff + "]" + tail;
    var q := p[1..];
    assert q == stuff + "]" + tail;
    assert forall i :: 0 <= i < |stuff| ==> q[i] == stuff[i];
    assert q[|stuff|] == ']';
    var afterBang := if q[0] == '!' then 1 else 0;
    var first := if q[afterBang] == ']' then afterBang + 1 else afterBang;
    assert first <= |stuff|;
    FindCloseIs(q, first, |stuff|);
    assert q[..|stuff|] == stuff;
  }

  lemma {:induction false} NothingDoubled(s: string)
    requires '\\' !in s
    ensures DoubleBackslashes(s) == s
  {
    if |s| > 0 {
      NothingDoubled(s[1..]);
      assert s == [s[0]] + s[1..];
    }
  }

  lemma BodyOfClassFirst(stuff: string, tail: string)
    requires IsClassStuff(stuff) && '\\' !in stuff && stuff[0] !in "!^["
    ensures Body("[" + stuff + "]" + tail) == "[" + stuff + "]" + Body(tail)
    ensures Tokens("[" + stuff + "]" + tail) == [Class(false, stuff)] + Tokens(tail)
  {
    hide ClassEnd, FirstToken, Advance, Body, Tokens;
    var p := "[" + stuff + "]" + tail;
    ClassFirst(stuff, tail);
    NothingDoubled(stuff);
    BodyAndTokensStep(p);
    PieceOfClass(p);
  }

  lemma PieceOfClass(p: string)
    requires IsClassHere(p)
    ensures Piece(p) == "[" + ClassText(StuffHere(p)) + "]"
  {
    hide ClassEnd, ClassText;
  }

  lemma BodyAndTokensStep(p: string)
    requires |p| > 0
    ensures Body(p) == Piece(p) + Body(p[Advance(p)..]) && Tokens(p) == [FirstToken(p)] + Tokens(p[Advance(p)..])
  {
    hide Piece, Advance, FirstToken;
  }

  // ----- reading what was written ------------------------------------------------------------------

  // Characters of a class that are neither special to Go nor followed by a hyphen.
  predicate IsPlainRun(s: string) {
    forall i :: 0 <= i < |s| ==> s[i] != '[' && s[i] != '\\' && s[i] != '-' && s[i] != ']'
  }

  function Prepend(parts: seq<Part>, read: Reading<PartsRead>): Reading<PartsRead> {
    match read
    case Refused => Refused
    case Beyond => Beyond
    case Read(pr) => Read(PartsRead(parts + pr.parts, pr.rest))
  }

  lemma {:induction false} ReadPlainRun(s: string, rest: string, first: bool)
    requires IsPlainRun(s) && |s| > 0 && |rest| > 0 && rest[0] != '-'
    ensures ReadParts(s + rest, first) == Prepend(Ones(s), ReadParts(rest, false))
    decreases |s|
  {
    hide ReadParts, StartsNamed;
    var more := s[1..] + rest;
    assert s + rest == [s[0]] + more;
    NoNamedStart([s[0]] + more);
    ReadOne(s[0], more, first);
    if |s| > 1 {
      ReadPlainRun(s[1..], rest, false);
      assert Ones(s) == [One(s[0])] + Ones(s[1..]);
      if ReadParts(rest, false).Read? {
        var parts := ReadParts(rest, false).value.parts;
        assert [One(s[0])] + (Ones(s[1..]) + parts) == Ones(s) + parts;
      }
    } else {
      assert more == rest;
      assert Ones(s) == [One(s[0])];
    }
  }

  // A named class, written out, with the text after it.
  lemma ReadNamed(name: string, rest: string)
    requires ':' !in name
    ensures ReadParts("[:" + name + ":]" + rest, false) ==
              match NamedPart(name) case None => Refused case Some(part) => Push(part, ReadParts(rest, false))
  {
    hide NamedPart;
    var r := "[:" + name + ":]" + rest;
    var k := |name| + 2;
    assert r[0] == '[' && r[1] == ':' && r[k] == ':' && r[k + 1] == ']';
    assert forall i :: 2 <= i < k ==> r[i] == name[i - 2];
    assert FindColonClose(r, 2) == k;
    assert r[2..k] == name && r[k + 2..] == rest;
  }

  lemma ReadBracketMember(rest: string)
    requires |rest| > 0 && rest[0] != ':' && rest[0] != '-'
    ensures ReadParts("[" + rest, false) == Push(One('['), ReadParts(rest, false))
  {
    hide ReadParts, StartsNamed;
    NamedStartsExactly(rest);
    ReadOne('[', rest, false);
  }

  lemma ReadClosing(rest: string)
    ensures ReadParts("]" + rest, false) == Read(PartsRead([], rest))
  {
    assert ("]" + rest)[1..] == rest;
  }

  lemma OneItem(text: string, item: Item)
    requires ReadClass(text) == Read((item, SUFFIX))
    ensures ReadItems("[" + text) == Read([item])
  {
    hide ReadClass;
    ReadBracketed(text);
    assert ReadItems(SUFFIX) == Read([]) && [item] + [] == [item];
  }

  lemma OneCharName(item: Item, c: char)
    requires item.OneOf?
    ensures Accepts([item], [c]) <==> TakesChar(item, c)
  {
    hide TakesChar;
    if TakesChar(item, c) {
      assert [c][..1] == [c] && [c][1..] == [];
      assert ItemAccepts(item, [c][..1]) && Accepts([item][1..], [c][1..]);
    }
  }

  /** What Go makes of a class that opens a named class with a later class to close it: one class that
      runs on into the later one. */
  lemma ReadTrapped(head: string, name: string, part: Part, more: string, rest: string)
    requires IsPlainRun(head) && IsPlainRun(more) && |head| > 0 && head[0] != '^' && (|more| > 0 ==> more[0] != ':')
    requires ':' !in name && NamedPart(name) == Some(part)
    ensures ReadClass(head + ("[:" + name + ":]" + ("[" + (more + ("]" + rest)))))
         == Read((OneOf(false, Ones(head) + ([part] + ([One('[')] + Ones(more)))), rest))
  {
    hide ReadParts, NamedPart, ReadClass;
    var end := "]" + rest;
    var third := more + end;
    var second := "[" + third;
    var first := "[:" + name + ":]" + second;
    ReadClosing(rest);
    if |more| > 0 {
      ReadPlainRun(more, end, false);
    } else {
      assert third == end && Ones(more) == [];
    }
    assert Ones(more) + [] == Ones(more);
    assert ReadParts(third, false) == Read(PartsRead(Ones(more), rest));
    ReadBracketMember(third);
    ReadNamed(name, second);
    ReadPlainRun(head, first, true);
    ReadUnnegated(head + first);
  }

  // ----- a rule that Go widens ---------------------------------------------------------------------

  const WIDENED := "[x[:alpha:][y]"

  lemma WidenedText()
    ensures Body(WIDENED) == WIDENED && Tokens(WIDENED) == [Class(false, "x[:alpha:"), Class(false, "y")]
  {
    hide ClassEnd, FirstToken, Advance, Body, Tokens;
    assert WIDENED == "[" + "x[:alpha:" + "]" + "[y]";
    assert "[y]" == "[" + "y" + "]" + "";
    BodyOfClassFirst("x[:alpha:", "[y]");
    BodyOfClassFirst("y", "");
    EmptyPattern();
  }

  lemma WidenedIsTrapped()
    ensures RangeFree(WIDENED) && !Untrapped(WIDENED)
  {
    hide ClassEnd, Advance;
    assert WIDENED == "[" + "x[:alpha:" + "]" + "[y]";
    assert "[y]" == "[" + "y" + "]" + "";
    ClassFirst("x[:alpha:", "[y]");
    ClassFirst("y", "");
    assert OpensNamed("x[:alpha:", 1);
  }

  lemma EmptyPattern()
    ensures Body("") == "" && Tokens("") == []
  {
  }

  lemma WidenedRead()
    ensures ReadItems(WIDENED + SUFFIX)
         == Read([OneOf(false, Ones("x") + ([Named(false, "alpha")] + ([One('[')] + Ones("y"))))])
  {
    hide ReadClass, ReadItems, NamedPart;
    AlphaIsKnown();
    ReadTrapped("x", "alpha", Named(false, "alpha"), "y", SUFFIX);
    var text := "x" + ("[:" + "alpha" + ":]" + ("[" + ("y" + ("]" + SUFFIX))));
    assert WIDENED + SUFFIX == "[" + text;
    OneItem(text, OneOf(false, Ones("x") + ([Named(false, "alpha")] + ([One('[')] + Ones("y")))));
  }

  lemma AlphaIsKnown()
    ensures NamedPart("alpha") == Some(Named(false, "alpha"))
  {
    assert GROUPS[1] == "alpha";
  }

  /** In `[x[:alpha:][y]` Python sees two classes of literal characters. Go sees one class with every
      ASCII letter in it, and so accepts names that Python does not. */
  lemma NamedClassWidens(go: Regexps)
    ensures RangeFree(WIDENED) && !Untrapped(WIDENED)
    ensures GoFnMatch(go, "q", WIDENED) && !FnMatchCase("q", WIDENED)
  {
    hide ReadItems, Body, RangeFree, Untrapped, Compile, Tokens;
    WidenedIsTrapped();
    WidenedText();
    WidenedRead();
    CompiledText(WIDENED);
    var item := OneOf(false, Ones("x") + ([Named(false, "alpha")] + ([One('[')] + Ones("y"))));
    assert PartHolds(item.parts[1], 'q');
    OneCharName(item, 'q');
    assert ['q'] == "q";
    assert |"q"[1..]| == 0;
  }

  // ----- a rule that Go silences -------------------------------------------------------------------

  const SILENCED := "[x[:q:]"

  /** A name that Go does not know makes it refuse the whole expression: a pattern that Python matches
      with matches nothing in Go. */
  lemma UnknownNameSilences(go: Regexps)
    ensures FnMatchCase("x", SILENCED) && forall name :: !GoFnMatch(go, name, SILENCED)
  {
    hide ReadItems, Body, Compile, Tokens, Accepts;
    assert SILENCED == "[" + "x[:q:" + "]" + "";
    BodyOfClassFirst("x[:q:", "");
    EmptyPattern();
    CompiledText(SILENCED);
    SilencedRead();
    assert "x[:q:"[0] == 'x' && Tokens(SILENCED) == [Class(false, "x[:q:")];
    assert "x"[1..] == "" && Tokens(SILENCED)[1..] == [];
  }

  lemma SilencedRead()
    ensures ReadItems(SILENCED + SUFFIX).Refused?
  {
    hide ReadParts, ReadItems, NamedPart, ReadClass;
    var first := "[:" + "q" + ":]" + SUFFIX;
    assert SILENCED + SUFFIX == "[" + ("x" + first);
    ReadNamed("q", SUFFIX);
    QIsUnknown();
    ReadPlainRun("x", first, true);
    ReadUnnegated("x" + first);
    ReadBracketed("x" + first);
  }

  lemma QIsUnknown()
    ensures NamedPart("q").None?
  {
    assert forall i :: 0 <= i < |GROUPS| ==> |GROUPS[i]| > 1;
  }

  // ----- a trap without effect ---------------------------------------------------------------------

  // What the first class of the pattern holds.
  function TrapStuff(head: string, group: string): string {
    head + ("[:" + group + ":")
  }

  function TrapPattern(head: string, group: string): string {
    "[" + TrapStuff(head, group) + "]" + "[]]"
  }

  // The characters that Go adds to the class, and those that it takes for a name, are listed before.
  ghost predicate ListsAll(head: string, group: string) {
    && IsPlainRun(head) && |head| > 0 && head[0] != '^' && head[0] != '!'
    && ':' in head
    && group in GROUPS && IsPlainRun(group) && ':' !in group
    && (forall i :: 0 <= i < |group| ==> group[i] in head)
    && (forall c :: InGroup(group, c) ==> c in head)
  }

  lemma TrapStuffShape(head: string, group: string)
    requires ListsAll(head, group)
    ensures var stuff := TrapStuff(head, group);
            && IsClassStuff(stuff) && '\\' !in stuff && stuff[0] !in "!^[" && IsRangeFree(stuff)
            && OpensNamed(stuff, |head|) && EndsInColon(stuff) && |head| + 2 < |stuff|
            && forall c :: c in stuff <==> c in head || c == '['
  {
    hide InGroup;
    var stuff := TrapStuff(head, group);
    var n := |head|;
    assert forall i :: 0 <= i < n ==> stuff[i] == head[i];
    assert stuff[n] == '[' && stuff[n + 1] == ':' && stuff[|stuff| - 1] == ':';
    assert forall i :: n + 2 <= i < |stuff| - 1 ==> stuff[i] == group[i - n - 2];
    assert forall i :: 0 <= i < |stuff| ==> stuff[i] == '[' || stuff[i] in head;
  }

  lemma TrapPatternText(head: string, group: string)
    requires ListsAll(head, group)
    ensures Body(TrapPattern(head, group)) == TrapPattern(head, group)
    ensures Tokens(TrapPattern(head, group)) == [Class(false, TrapStuff(head, group)), Class(false, "]")]
    ensures RangeFree(TrapPattern(head, group)) && !Untrapped(TrapPattern(head, group))
  {
    hide ClassEnd, FirstToken, Advance, Body, Tokens, ListsAll, TrapStuff, IsClassStuff, IsRangeFree, EndsInColon;
    var stuff := TrapStuff(head, group);
    assert "[]]" == "[" + "]" + "]" + "";
    TrapStuffShape(head, group);
    LastClassShape();
    BodyOfClassFirst(stuff, "[]]");
    BodyOfClassFirst("]", "");
    EmptyPattern();
    ClassFirst(stuff, "[]]");
    ClassFirst("]", "");
    LastClassIsRangeFree();
    assert Trapped(stuff, "[]]");
  }

  lemma LastClassShape()
    ensures IsClassStuff("]") && IsRangeFree("]") && "]"[0] !in "!^[" && '\\' !in "]"
  {
  }

  lemma LastClassIsRangeFree()
    ensures RangeFree("[]]")
  {
    assert "[]]" == "[" + "]" + "]" + "";
    LastClassShape();
    ClassFirst("]", "");
  }

  function TrapItem(head: string, group: string): Item {
    OneOf(false, Ones(head) + ([Named(false, group)] + ([One('[')] + Ones(""))))
  }

  lemma TrapPatternRead(head: string, group: string)
    requires ListsAll(head, group)
    ensures ReadItems(TrapPattern(head, group) + SUFFIX) == Read([TrapItem(head, group), Exactly(']')])
  {
    hide ReadClass, ReadItems;
    var rest := "]" + SUFFIX;
    ReadTrapped(head, group, Named(false, group), "", rest);
    var text := head + ("[:" + group + ":]" + ("[" + ("" + ("]" + rest))));
    assert TrapPattern(head, group) + SUFFIX == "[" + text;
    ReadBracketed(text);
    ReadClosingOutside();
    assert [TrapItem(head, group)] + [Exactly(']')] == [TrapItem(head, group), Exactly(']')];
  }

  lemma ReadClosingOutside()
    ensures ReadItems("]" + SUFFIX) == Read([Exactly(']')])
  {
    hide ReadClass;
    var r := "]" + SUFFIX;
    assert r[1..] == SUFFIX && ReadItems(SUFFIX) == Read([]) && [Exactly(']')] + [] == [Exactly(']')];
  }

  lemma TrapItemTakes(head: string, group: string, c: char)
    requires ListsAll(head, group)
    ensures TakesChar(TrapItem(head, group), c) <==> AcceptsChar(Class(false, TrapStuff(head, group)), c)
  {
    hide InGroup;
    TrapStuffShape(head, group);
    var parts := TrapItem(head, group).parts;
    var n := |head|;
    assert forall i :: 0 <= i < n ==> parts[i] == One(head[i]);
    assert parts[n] == Named(false, group) && parts[n + 1] == One('[') && |parts| == n + 2;
    if c == '[' {
      assert PartHolds(parts[n + 1], c);
    } else if c in head {
      var i :| 0 <= i < n && head[i] == c;
      assert PartHolds(parts[i], c);
    }
  }

  /** The trap is about what Go reads, not always about what it accepts. In this whole family Go reads
      other classes than Python and yet the same names match, because the characters it adds and those
      it takes for a name are all listed a second time. So no test that only looks for the trap can be
      exact about the names. */
  lemma TrapCanBeHarmless(go: Regexps, head: string, group: string, name: string)
    requires ListsAll(head, group)
    ensures RangeFree(TrapPattern(head, group)) && !Untrapped(TrapPattern(head, group))
    ensures GoFnMatch(go, name, TrapPattern(head, group)) <==> FnMatchCase(name, TrapPattern(head, group))
  {
    hide ReadItems, Body, RangeFree, Untrapped, Compile, Tokens, Accepts, Matches;
    hide ListsAll, TrapPattern, TrapItem, TrapStuff, TakesChar, AcceptsChar;
    TrapPatternText(head, group);
    TrapPatternRead(head, group);
    CompiledText(TrapPattern(head, group));
    TrapAccepts(head, group, name);
  }

  /** The family is not empty: `[:<tab><space>blank[:blank:][]]`. */
  lemma HarmlessTrap()
    ensures ListsAll(":\t blank", "blank")
  {
    var head := ":\t blank";
    assert GROUPS[3] == "blank";
    assert head[0] == ':' && head[1] == '\t' && head[2] == ' ';
    assert head[3] == 'b' && head[4] == 'l' && head[5] == 'a' && head[6] == 'n' && head[7] == 'k';
  }

  lemma TwoItems(first: Item, second: Item, name: string)
    requires !first.AnyRun? && !second.AnyRun?
    ensures Accepts([first, second], name) <==> |name| == 2 && TakesChar(first, name[0]) && TakesChar(second, name[1])
  {
    hide TakesChar;
    assert [first, second][1..] == [second] && [second][1..] == [];
    if |name| == 2 && TakesChar(first, name[0]) && TakesChar(second, name[1]) {
      assert name[1..][1..] == "" && name[1..][..1] == [name[1]] && name[..1] == [name[0]];
      assert ItemAccepts(second, name[1..][..1]) && Accepts([second][1..], name[1..][1..]);
      assert ItemAccepts(first, name[..1]) && Accepts([first, second][1..], name[1..]);
    }
    if Accepts([first, second], name) {
      var k :| 0 <= k <= |name| && ItemAccepts(first, name[..k]) && Accepts([second], name[k..]);
      var l :| 0 <= l <= |name[k..]| && ItemAccepts(second, name[k..][..l]) && Accepts([], name[k..][l..]);
      assert k == 1 && l == 1 && |name| == 2;
      assert name[..1][0] == name[0] && name[1..][..1][0] == name[1];
    }
  }

  lemma TwoTokens(first: Token, second: Token, name: string)
    requires !first.Star? && !second.Star?
    ensures Matches([first, second], name) <==> |name| == 2 && AcceptsChar(first, name[0]) && AcceptsChar(second, name[1])
  {
    hide AcceptsChar;
    assert [first, second][1..] == [second] && [second][1..] == [];
    if |name| > 0 {
      assert Matches([first, second], name) <==> AcceptsChar(first, name[0]) && Matches([second], name[1..]);
      if |name| > 1 {
        assert Matches([second], name[1..]) <==> AcceptsChar(second, name[1]) && Matches([], name[1..][1..]);
      }
    }
  }

  lemma TrapAccepts(head: string, group: string, name: string)
    requires ListsAll(head, group)
    ensures Accepts([TrapItem(head, group), Exactly(']')], name)
       <==> Matches([Class(false, TrapStuff(head, group)), Class(false, "]")], name)
  {
    hide Accepts, Matches, ListsAll, TrapStuff;
    TwoItems(TrapItem(head, group), Exactly(']'), name);
    TwoTokens(Class(false, TrapStuff(head, group)), Class(false, "]"), name);
    if |name| == 2 {
      TrapItemTakes(head, group, name[0]);
      assert "]"[0] == ']';
    }
  }

  // ----- when Go refuses a pattern -----------------------------------------------------------------

  ghost predicate LeavesNothing(t: Token) {
    forall c :: !AcceptsChar(t, c)
  }

  // Some class of the pattern leaves no character.
  ghost predicate IsBarren(ts: seq<Token>) {
    exists i :: 0 <= i < |ts| && LeavesNothing(ts[i])
  }

  lemma {:induction false} BarrenMatchesNothing(ts: seq<Token>, s: string)
    requires IsBarren(ts)
    ensures !Matches(ts, s)
    decreases |ts|, |s|
  {
    hide AcceptsChar;
    var i :| 0 <= i < |ts| && LeavesNothing(ts[i]);
    if i > 0 {
      assert ts[1..][i - 1] == ts[i];
      if ts[0].Star? {
        BarrenMatchesNothing(ts[1..], s);
        if |s| > 0 {
          BarrenMatchesNothing(ts, s[1..]);
        }
      } else if |s| > 0 {
        BarrenMatchesNothing(ts[1..], s[1..]);
      }
    } else {
      NoStarIsBarren(ts[0]);
    }
  }

  lemma NoStarIsBarren(t: Token)
    requires LeavesNothing(t)
    ensures !t.Star?
  {
    assert !AcceptsChar(t, 'a');
  }

  lemma {:induction false} FertileMatchesSomething(ts: seq<Token>) returns (s: string)
    requires !IsBarren(ts)
    ensures Matches(ts, s)
  {
    hide AcceptsChar;
    s := "";
    if |ts| > 0 {
      forall i | 0 <= i < |ts[1..]|
        ensures !LeavesNothing(ts[1..][i])
      {
        assert ts[1..][i] == ts[i + 1];
      }
      var rest := FertileMatchesSomething(ts[1..]);
      if ts[0].Star? {
        s := rest;
      } else {
        assert !LeavesNothing(ts[0]);
        var c :| AcceptsChar(ts[0], c);
        s := [c] + rest;
        assert s[1..] == rest;
      }
    }
  }

  /** Where Go refuses the translated text, the two matchers agree on every name exactly when the pattern
      holds a class that leaves no character: the refusal then changes nothing. */
  lemma RefusedExactly(go: Regexps, pattern: string)
    requires Compile(Translated(pattern)).Refused?
    ensures (forall name :: GoFnMatch(go, name, pattern) <==> FnMatchCase(name, pattern)) <==> IsBarren(Tokens(pattern))
  {
    hide Compile, Tokens, Matches, IsBarren;
    var ts := Tokens(pattern);
    if IsBarren(ts) {
      forall name
        ensures !FnMatchCase(name, pattern)
      {
        BarrenMatchesNothing(ts, name);
      }
    } else {
      var name := FertileMatchesSomething(ts);
      assert FnMatchCase(name, pattern) && !GoFnMatch(go, name, pattern);
    }
  }
}
