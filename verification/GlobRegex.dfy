/** The Go side of glob matching, `fnmatch.go`: a pattern is translated into the source text of a
    regular expression, and the text is handed to Go's regexp package. What that package makes of the
    texts that can arise here is the parser below, ranges and named classes included; any other text
    counts as one that does not compile. */
module GlobRegex {
  import opened Outcomes
  import opened Glob

  predicate IsMeta(c: char) {
    || c == '\\' || c == '.' || c == '+' || c == '*' || c == '?'
    || c == '(' || c == ')' || c == '|' || c == '[' || c == ']' || c == '{' || c == '}' || c == '^' || c == '$'
  }

  lemma MetaSpelledOut(c: char)
    ensures IsMeta(c) <==> c in {'\\', '.', '+', '*', '?', '(', ')', '|', '[', ']', '{', '}', '^', '$'}
  {
  }

  // `regexp.QuoteMeta` on one character.
  function QuoteMeta(c: char): string {
    if IsMeta(c) then ['\\', c] else [c]
  }

  function DoubleBackslashes(s: string): string {
    if |s| == 0 then []
    else (if s[0] == '\\' then ['\\', '\\'] else [s[0]]) + DoubleBackslashes(s[1..])
  }

  // What is written between the brackets for a class.
  function ClassText(stuff: string): string
    requires |stuff| > 0
  {
    var escaped := DoubleBackslashes(stuff);
    if escaped[0] == '!' then "^" + escaped[1..]
    else if escaped[0] == '^' || escaped[0] == '[' then "\\" + escaped
    else escaped
  }

  // What is written for the first token of a pattern.
  function Piece(p: string): string
    requires |p| > 0
  {
    if p[0] == '*' then ".*"
    else if p[0] == '?' then "."
    else if p[0] == '[' then
      match ClassEnd(p[1..])
      case None => "\\["
      case Some(j) => "[" + ClassText(p[1..][..j]) + "]"
    else QuoteMeta(p[0])
  }

  function Body(p: string): string
    decreases |p|
  {
    if |p| == 0 then [] else Piece(p) + Body(p[Advance(p)..])
  }

  const PREFIX := "(?s)\\A"
  const SUFFIX := "\\z"

  function Translated(p: string): string {
    PREFIX + Body(p) + SUFFIX
  }

  lemma Associate(a: string, b: string, c: string)
    ensures a + (b + c) == (a + b) + c
  {
  }

  lemma BodyStep(out: string, p: string)
    requires |p| > 0
    ensures out + Body(p) == (out + Piece(p)) + Body(p[Advance(p)..])
  {
    hide Piece, Advance;
    Associate(out, Piece(p), Body(p[Advance(p)..]));
  }

  // The scan for the end of a class, from index i of the pattern.
  method ScanClass(pat: string, i: nat) returns (j: nat)
    requires i <= |pat|
    ensures i <= j <= |pat|
    ensures ClassEnd(pat[i..]) == if j < |pat| then Some(j - i) else None
  {
    var n := |pat|;
    ghost var rest := pat[i..];
    j := i;
    if j < n && pat[j] == '!' {
      j := j + 1;
    }
    if j < n && pat[j] == ']' {
      j := j + 1;
    }
    ghost var first := j - i;
    while j < n && pat[j] != ']'
      invariant i + first <= j <= n
      invariant FindClose(rest, first) == FindClose(rest, j - i)
    {
      j := j + 1;
    }
  }

  /** The translator's scan, with its two indices and its string builder. */
  method Translate(pat: string) returns (out: string)
    ensures out == Translated(pat)
    ensures "(?s)\\A" <= out && |out| >= 2 && out[|out| - 2..] == "\\z"
  {
    hide ClassText, QuoteMeta, ClassEnd, Body;
    out := PREFIX;
    var n := |pat|;
    var i := 0;
    assert pat[0..] == pat;
    while i < n
      invariant 0 <= i <= n
      invariant out + Body(pat[i..]) == PREFIX + Body(pat)
      decreases n - i
    {
      var c := pat[i];
      ghost var p := pat[i..];
      assert p[0] == c && p[1..] == pat[i + 1..];
      var piece, next := "", i + 1;
      if c == '*' {
        piece := ".*";
      } else if c == '?' {
        piece := ".";
      } else if c == '[' {
        var j := ScanClass(pat, next);
        if j >= n {
          piece := "\\[";
        } else {
          assert pat[next..j] == p[1..][..j - next];
          piece := "[" + ClassText(pat[next..j]) + "]";
          next := j + 1;
        }
      } else {
        piece := QuoteMeta(c);
      }
      assert piece == Piece(p) && next == i + Advance(p);
      BodyStep(out, p);
      assert p[Advance(p)..] == pat[next..];
      out, i := out + piece, next;
    }
    BodyOfNothing(pat[n..]);
    out := out + SUFFIX;
  }

  lemma BodyOfNothing(p: string)
    requires |p| == 0
    ensures Body(p) == []
  {
  }

  // ----- what Go's regexp package reads ------------------------------------------------------

  // The classes that Go knows by name, on ASCII characters only.
  const GROUPS := ["alnum", "alpha", "ascii", "blank", "cntrl", "digit", "graph",
                   "lower", "print", "punct", "space", "upper", "word", "xdigit"]

  predicate InGroup(name: string, c: char) {
    var lower, upper, digit := 'a' <= c <= 'z', 'A' <= c <= 'Z', '0' <= c <= '9';
    if name == "alnum" then lower || upper || digit
    else if name == "alpha" then lower || upper
    else if name == "ascii" then c <= '\U{7F}'
    else if name == "blank" then c == '\t' || c == ' '
    else if name == "cntrl" then c <= '\U{1F}' || c == '\U{7F}'
    else if name == "digit" then digit
    else if name == "graph" then '!' <= c <= '~'
    else if name == "lower" then lower
    else if name == "print" then ' ' <= c <= '~'
    else if name == "punct" then '!' <= c <= '~' && !lower && !upper && !digit
    else if name == "space" then '\t' <= c <= '\r' || c == ' '
    else if name == "upper" then upper
    else if name == "word" then lower || upper || digit || c == '_'
    else if name == "xdigit" then digit || 'a' <= c <= 'f' || 'A' <= c <= 'F'
    else false
  }

  /** How Go's named classes stand to each other. */
  lemma GroupsRelate(c: char)
    ensures InGroup("digit", c) <==> c in "0123456789"
    ensures InGroup("xdigit", c) <==> c in "0123456789abcdefABCDEF"
    ensures InGroup("blank", c) <==> c in "\t "
    ensures InGroup("lower", c) <==> 'a' <= c <= 'z'
    ensures InGroup("upper", c) <==> 'A' <= c <= 'Z'
  {
    Digits(c);
  }

  lemma Digits(c: char)
    ensures c in "0123456789" <==> '0' <= c <= '9'
    ensures c in "0123456789abcdefABCDEF" <==> '0' <= c <= '9' || 'a' <= c <= 'f' || 'A' <= c <= 'F'
    ensures c in "\t " <==> c == '\t' || c == ' '
  {
    if '0' <= c <= '9' {
      var digits := "0123456789";
      assert digits[c as int - '0' as int] == c;
      assert "0123456789abcdefABCDEF"[c as int - '0' as int] == c;
    } else if 'a' <= c <= 'f' {
      assert "0123456789abcdefABCDEF"[c as int - 'a' as int + 10] == c;
    } else if 'A' <= c <= 'F' {
      assert "0123456789abcdefABCDEF"[c as int - 'A' as int + 16] == c;
    }
    assert "\t "[0] == '\t' && "\t "[1] == ' ';
  }

  lemma WordGroupsRelate(c: char)
    ensures InGroup("alpha", c) <==> InGroup("lower", c) || InGroup("upper", c)
    ensures InGroup("alnum", c) <==> InGroup("alpha", c) || InGroup("digit", c)
    ensures InGroup("word", c) <==> InGroup("alnum", c) || c == '_'
  {
  }

  lemma VisibleGroupsRelate(c: char)
    ensures InGroup("graph", c) <==> InGroup("alnum", c) || InGroup("punct", c)
    ensures InGroup("print", c) <==> InGroup("graph", c) || c == ' '
    ensures InGroup("ascii", c) <==> InGroup("print", c) || InGroup("cntrl", c)
    ensures InGroup("punct", c) ==> !InGroup("alnum", c)
    ensures InGroup("cntrl", c) ==> !InGroup("print", c)
    ensures InGroup("blank", c) ==> InGroup("space", c)
    ensures InGroup("xdigit", c) ==> InGroup("alnum", c)
  {
  }

  datatype Part = One(c: char) | Span(lo: char, hi: char) | Named(negated: bool, name: string)

  datatype Item = AnyRun | AnyOne | Exactly(c: char) | OneOf(negated: bool, parts: seq<Part>)

  predicate PartHolds(part: Part, c: char) {
    match part
    case One(d) => c == d
    case Span(lo, hi) => lo <= c <= hi
    case Named(negated, name) => InGroup(name, c) != negated
  }

  /** What comes of reading an expression: a result, a refusal, or a text beyond the part of Go's grammar
      that is modelled, about which nothing is said. */
  datatype Reading<T> = Read(value: T) | Refused | Beyond

  datatype PartsRead = PartsRead(parts: seq<Part>, rest: string)

  // One character of a class, escaped or not. Without one the class is never closed.
  function ReadChar(r: string): (read: Reading<(char, string)>)
    ensures read.Read? ==> |read.value.1| < |r|
  {
    if |r| == 0 || r == "\\" || SUFFIX <= r then Refused
    else if r[0] == '\\' then if IsMeta(r[1]) then Read((r[1], r[2..])) else Beyond
    else Read((r[0], r[1..]))
  }

  // Where the next `:]` stands, wherever in the rest of the expression that is.
  function FindColonClose(r: string, i: nat): (k: nat)
    requires i <= |r|
    ensures i <= k <= |r|
    ensures k < |r| ==> k + 1 < |r| && r[k] == ':' && r[k + 1] == ']'
    ensures forall j :: i <= j < k && j + 1 < |r| ==> !(r[j] == ':' && r[j + 1] == ']')
    decreases |r| - i
  {
    if i + 1 >= |r| then |r|
    else if r[i] == ':' && r[i + 1] == ']' then i
    else FindColonClose(r, i + 1)
  }

  // A named class is about to be read: its opening is here, and its closing anywhere later.
  predicate StartsNamed(r: string) {
    |r| > 2 && r[0] == '[' && r[1] == ':' && FindColonClose(r, 2) < |r|
  }

  function NamedPart(name: string): Option<Part> {
    if name in GROUPS then Some(Named(false, name))
    else if |name| > 0 && name[0] == '^' && name[1..] in GROUPS then Some(Named(true, name[1..]))
    else None
  }

  function Push(part: Part, read: Reading<PartsRead>): Reading<PartsRead> {
    match read
    case Refused => Refused
    case Beyond => Beyond
    case Read(pr) => Read(PartsRead([part] + pr.parts, pr.rest))
  }

  /** The members of a class, up to the bracket that closes it: a named class, a range, or one
      character. A hyphen right before the closing bracket makes no range. */
  function ReadParts(r: string, first: bool): (read: Reading<PartsRead>)
    ensures read.Read? ==> |read.value.rest| < |r|
    decreases |r|
  {
    if |r| > 0 && r[0] == ']' && !first then Read(PartsRead([], r[1..]))
    else if StartsNamed(r) then
      var close := FindColonClose(r, 2);
      match NamedPart(r[2..close])
      case None => Refused
      case Some(part) => Push(part, ReadParts(r[close + 2..], false))
    else
      match ReadChar(r)
      case Refused => Refused
      case Beyond => Beyond
      case Read((lo, t)) =>
        if |t| > 1 && t[0] == '-' && t[1] != ']' then
          match ReadChar(t[1..])
          case Refused => Refused
          case Beyond => Beyond
          case Read((hi, u)) => if hi < lo then Refused else Push(Span(lo, hi), ReadParts(u, false))
        else Push(One(lo), ReadParts(t, false))
  }

  function ToClass(negated: bool, read: Reading<PartsRead>): (item: Reading<(Item, string)>) {
    match read
    case Refused => Refused
    case Beyond => Beyond
    case Read(pr) => Read((OneOf(negated, pr.parts), pr.rest))
  }

  function ReadClass(r: string): (read: Reading<(Item, string)>)
    ensures read.Read? ==> |read.value.1| < |r|
  {
    var negated := |r| > 0 && r[0] == '^';
    ToClass(negated, ReadParts(if negated then r[1..] else r, true))
  }

  // Groups, alternatives, repetitions and anchors are beyond; an end that is not anchored is too.
  function ReadItems(r: string): Reading<seq<Item>>
    decreases |r|
  {
    if r == SUFFIX then Read([])
    else if |r| == 0 then Beyond
    else if r[0] == '.' then
      if |r| > 1 && r[1] == '*' then Follow(AnyRun, ReadItems(r[2..])) else Follow(AnyOne, ReadItems(r[1..]))
    else if r[0] == '\\' then
      if |r| > 1 && IsMeta(r[1]) then Follow(Exactly(r[1]), ReadItems(r[2..])) else Beyond
    else if r[0] == '[' then
      match ReadClass(r[1..])
      case Refused => Refused
      case Beyond => Beyond
      case Read((item, rest)) => Follow(item, ReadItems(rest))
    else if IsMeta(r[0]) && r[0] != ']' then Beyond
    else Follow(Exactly(r[0]), ReadItems(r[1..]))
  }

  function Follow(item: Item, items: Reading<seq<Item>>): Reading<seq<Item>> {
    match items
    case Refused => Refused
    case Beyond => Beyond
    case Read(rest) => Read([item] + rest)
  }

  function Compile(r: string): Reading<seq<Item>> {
    if PREFIX <= r then ReadItems(r[|PREFIX|..]) else Beyond
  }

  // What Go's regexp package answers on an expression and a name. It is asked only beyond the reader.
  type Regexps = (string, string) -> bool

  predicate TakesChar(item: Item, c: char) {
    match item
    case AnyRun => true
    case AnyOne => true
    case Exactly(d) => c == d
    case OneOf(negated, parts) => (exists k :: 0 <= k < |parts| && PartHolds(parts[k], c)) != negated
  }

  predicate ItemAccepts(item: Item, s: string) {
    if item.AnyRun? then true else |s| == 1 && TakesChar(item, s[0])
  }

  /** The language of the anchored expression: some way of cutting the name into one piece per item. */
  predicate Accepts(items: seq<Item>, s: string)
    decreases |items|
  {
    if |items| == 0 then |s| == 0
    else exists k :: 0 <= k <= |s| && ItemAccepts(items[0], s[..k]) && Accepts(items[1..], s[k..])
  }

  predicate GoFnMatch(go: Regexps, name: string, pattern: string) {
    match Compile(Translated(pattern))
    case Refused => false
    case Beyond => go(Translated(pattern), name)
    case Read(items) => Accepts(items, name)
  }

  // ----- what a pattern must avoid -----------------------------------------------------------------

  // A hyphen is a literal at either end of a class, after a leading `!`; anywhere else it is a range.
  predicate IsRangeFree(stuff: string) {
    var body := if |stuff| > 0 && stuff[0] == '!' then stuff[1..] else stuff;
    forall i :: 0 <= i < |body| && body[i] == '-' ==> i == 0 || i == |body| - 1
  }

  predicate RangeFree(p: string)
    decreases |p|
  {
    |p| > 0 ==>
      && (p[0] == '[' && ClassEnd(p[1..]).Some? ==> IsRangeFree(p[1..][..ClassEnd(p[1..]).value]))
      && RangeFree(p[Advance(p)..])
  }

  // The opening of a named class, `[:`, anywhere in a class but at its very start, where the bracket
  // is escaped.
  predicate OpensNamed(stuff: string, i: nat) {
    1 <= i && i + 1 < |stuff| && stuff[i] == '[' && stuff[i + 1] == ':'
  }

  // A class that ends in a colon closes a named class, `:]`, that was opened before.
  predicate EndsInColon(stuff: string) {
    |stuff| > 0 && stuff[|stuff| - 1] == ':'
  }

  predicate ClosesNamed(p: string)
    decreases |p|
  {
    && |p| > 0
    && ((p[0] == '[' && ClassEnd(p[1..]).Some? && EndsInColon(p[1..][..ClassEnd(p[1..]).value]))
        || ClosesNamed(p[Advance(p)..]))
  }

  predicate Trapped(stuff: string, tail: string) {
    exists i :: 0 <= i < |stuff| && OpensNamed(stuff, i) && ((i + 2 < |stuff| && EndsInColon(stuff)) || ClosesNamed(tail))
  }

  /** No class opens what Go takes for a named class: a `[:` inside a class, with a class ending in a
      colon, the same or a later one, to close it. */
  predicate Untrapped(p: string)
    decreases |p|
  {
    |p| > 0 ==>
      var tail := p[Advance(p)..];
      && (p[0] == '[' && ClassEnd(p[1..]).Some? ==> !Trapped(p[1..][..ClassEnd(p[1..]).value], tail))
      && Untrapped(tail)
  }

  // ----- translation preserves meaning ---------------------------------------------------------

  function Ones(members: string): (parts: seq<Part>)
    ensures |parts| == |members| && forall i :: 0 <= i < |parts| ==> parts[i] == One(members[i])
  {
    seq(|members|, i requires 0 <= i < |members| => One(members[i]))
  }

  // A token of the glob, as an item of the regular expression.
  function Image(t: Token): Item {
    match t
    case Star => AnyRun
    case AnyChar => AnyOne
    case Char(c) => Exactly(c)
    case Class(negated, members) => OneOf(negated, Ones(members))
  }

  function Images(ts: seq<Token>): (items: seq<Item>)
    ensures |items| == |ts| && forall i :: 0 <= i < |items| ==> items[i] == Image(ts[i])
  {
    seq(|ts|, i requires 0 <= i < |ts| => Image(ts[i]))
  }

  lemma ImageTakes(t: Token, c: char)
    ensures TakesChar(Image(t), c) <==> AcceptsChar(t, c)
  {
    if t.Class? {
      var parts := Ones(t.members);
      if c in t.members {
        var i :| 0 <= i < |t.members| && t.members[i] == c;
        assert PartHolds(parts[i], c);
      }
    }
  }

  lemma ImagesTail(ts: seq<Token>)
    requires |ts| > 0
    ensures Images(ts)[1..] == Images(ts[1..])
  {
  }

  /** Backtracking and cutting into pieces decide the same language. */
  lemma {:induction false} AcceptsIsMatches(ts: seq<Token>, s: string)
    ensures Accepts(Images(ts), s) <==> Matches(ts, s)
    decreases |ts|, |s|
  {
    hide TakesChar, AcceptsChar, Images;
    var items := Images(ts);
    if |ts| > 0 {
      ImagesTail(ts);
      if ts[0].Star? {
        AcceptsIsMatches(ts[1..], s);
        assert s[0..] == s;
        if |s| > 0 {
          AcceptsIsMatches(ts, s[1..]);
          StarCutsMove(items, s);
        }
      } else if |s| > 0 {
        AcceptsIsMatches(ts[1..], s[1..]);
        ImageTakes(ts[0], s[0]);
        assert s[..1][0] == s[0];
        if Matches(ts, s) {
          assert ItemAccepts(items[0], s[..1]) && Accepts(items[1..], s[1..]);
        }
      }
    }
  }

  lemma StarCutsMove(items: seq<Item>, s: string)
    requires |items| > 0 && items[0].AnyRun? && |s| > 0
    ensures Accepts(items, s) <==> Accepts(items[1..], s) || Accepts(items, s[1..])
  {
    if Accepts(items, s) {
      var k :| 0 <= k <= |s| && ItemAccepts(items[0], s[..k]) && Accepts(items[1..], s[k..]);
      if k == 0 {
        assert s[0..] == s;
      } else {
        assert s[1..][k - 1..] == s[k..];
        assert ItemAccepts(items[0], s[1..][..k - 1]);
      }
    }
    if Accepts(items[1..], s) {
      assert s[0..] == s && ItemAccepts(items[0], s[..0]);
    }
    if Accepts(items, s[1..]) {
      var k :| 0 <= k <= |s[1..]| && ItemAccepts(items[0], s[1..][..k]) && Accepts(items[1..], s[1..][k..]);
      assert s[1..][k..] == s[k + 1..] && ItemAccepts(items[0], s[..k + 1]);
    }
  }

  // What each written piece is read as.

  // How one member of a class is written.
  function MemberText(c: char): string {
    if c == '\\' then ['\\', '\\'] else [c]
  }

  // What follows the opening bracket of a class from one of its members on.
  function Remaining(stuff: string, after: string): string {
    DoubleBackslashes(stuff) + "]" + after
  }

  lemma RemainingStep(stuff: string, after: string)
    requires |stuff| > 0
    ensures Remaining(stuff, after) == MemberText(stuff[0]) + Remaining(stuff[1..], after)
  {
    var head := MemberText(stuff[0]);
    Associate(head, DoubleBackslashes(stuff[1..]), "]");
    Associate(head, DoubleBackslashes(stuff[1..]) + "]", after);
  }

  lemma RemainingEnd(after: string)
    ensures Remaining([], after) == "]" + after && Remaining([], after)[1..] == after
  {
  }

  lemma RemainingStart(stuff: string, after: string)
    ensures |Remaining(stuff, after)| > 0
    ensures Remaining(stuff, after)[0] == if |stuff| > 0 then stuff[0] else ']'
  {
  }

  // A member followed by no range is read as itself.
  lemma ReadOne(c: char, rest: string, first: bool)
    requires |rest| > 0 && (rest[0] == '-' ==> |rest| > 1 && rest[1] == ']')
    requires c == ']' ==> first
    requires !StartsNamed([c] + rest)
    ensures ReadParts(MemberText(c) + rest, first) == Push(One(c), ReadParts(rest, false))
  {
    hide StartsNamed, NamedPart, FindColonClose;
    var r := MemberText(c) + rest;
    if c == '\\' {
      assert r[0] == '\\' && r[1] == '\\' && r[2..] == rest;
      NoNamedStart(r);
    } else {
      assert r[0] == c && r[1..] == rest;
    }
  }

  lemma NoNamedStart(r: string)
    requires |r| > 0 && r[0] != '['
    ensures !StartsNamed(r)
  {
  }

  // Whether `:]` occurs in a text.
  predicate HasColonClose(r: string) {
    exists k :: 0 <= k && k + 1 < |r| && r[k] == ':' && r[k + 1] == ']'
  }

  lemma NamedStartsExactly(rest: string)
    ensures StartsNamed("[" + rest) <==> |rest| > 1 && rest[0] == ':' && HasColonClose(rest[1..])
  {
    var r := "[" + rest;
    if |rest| > 1 && HasColonClose(rest[1..]) {
      var k :| 0 <= k && k + 1 < |rest[1..]| && rest[1..][k] == ':' && rest[1..][k + 1] == ']';
      assert r[k + 2] == ':' && r[k + 3] == ']';
    }
    if StartsNamed(r) {
      var k := FindColonClose(r, 2);
      assert rest[1..][k - 2] == ':' && rest[1..][k - 1] == ']';
    }
  }

  // Where `:]` can occur in what is left of a class: at its end, or in what comes after it.
  lemma {:induction false} ColonCloseRemains(stuff: string, after: string)
    requires ']' !in stuff && (|after| > 0 ==> after[0] != ']')
    ensures HasColonClose(Remaining(stuff, after)) <==> EndsInColon(stuff) || HasColonClose(after)
    decreases |stuff|
  {
    hide HasColonClose, Remaining;
    if |stuff| == 0 {
      RemainingEnd(after);
      ColonCloseSkips("]", after);
    } else {
      ColonCloseRemains(stuff[1..], after);
      RemainingStep(stuff, after);
      RemainingStart(stuff[1..], after);
      NoColonCloseInOne(stuff[0]);
      ColonCloseJoins(MemberText(stuff[0]), Remaining(stuff[1..], after));
      if |stuff| > 1 {
        assert stuff[1..][0] != ']';
      }
    }
  }

  lemma NoColonCloseInOne(c: char)
    ensures !HasColonClose(MemberText(c))
  {
  }

  lemma ColonCloseJoins(a: string, b: string)
    requires 0 < |a| <= 2 && !HasColonClose(a) && |b| > 0
    ensures HasColonClose(a + b) <==> (a[|a| - 1] == ':' && b[0] == ']') || HasColonClose(b)
  {
    var r := a + b;
    if HasColonClose(b) {
      var k :| 0 <= k && k + 1 < |b| && b[k] == ':' && b[k + 1] == ']';
      assert r[|a| + k] == ':' && r[|a| + k + 1] == ']';
    }
    if a[|a| - 1] == ':' && b[0] == ']' {
      assert r[|a| - 1] == ':' && r[|a| - 1 + 1] == ']';
    }
    if HasColonClose(r) {
      var k :| 0 <= k && k + 1 < |r| && r[k] == ':' && r[k + 1] == ']';
      if k >= |a| {
        assert b[k - |a|] == ':' && b[k - |a| + 1] == ']';
      }
    }
  }

  lemma ColonCloseSkips(a: string, b: string)
    requires |a| == 1 && a[0] != ':'
    ensures HasColonClose(a + b) <==> HasColonClose(b)
  {
    if |b| > 0 {
      ColonCloseJoins(a, b);
    }
  }

  // ----- reading a class back ----------------------------------------------------------------------

  predicate HyphensAtEdges(s: string, lead: bool) {
    forall i :: 0 <= i < |s| && s[i] == '-' ==> (lead && i == 0) || i == |s| - 1
  }

  predicate OneLeadingBracket(s: string, lead: bool) {
    forall i :: 0 <= i < |s| && s[i] == ']' ==> lead && i == 0
  }

  // A named class is opened among the members s, and closed somewhere after that.
  predicate TrapIn(s: string, after: string) {
    exists i :: 0 <= i && i + 1 < |s| && s[i] == '[' && s[i + 1] == ':' && HasColonClose(Remaining(s[i + 2..], after))
  }

  predicate HasNamed(parts: seq<Part>) {
    exists k :: 0 <= k < |parts| && parts[k].Named?
  }

  lemma TrapShifts(s: string, after: string)
    requires |s| > 0
    ensures TrapIn(s, after) <==>
              || TrapIn(s[1..], after)
              || (s[0] == '[' && |s| > 1 && s[1] == ':' && HasColonClose(Remaining(s[2..], after)))
  {
    hide HasColonClose, Remaining;
    if TrapIn(s[1..], after) {
      var i :| 0 <= i && i + 1 < |s[1..]| && s[1..][i] == '[' && s[1..][i + 1] == ':'
               && HasColonClose(Remaining(s[1..][i + 2..], after));
      assert s[1..][i + 2..] == s[i + 1 + 2..];
      assert s[i + 1] == '[' && s[i + 1 + 1] == ':';
    }
    if TrapIn(s, after) {
      var i :| 0 <= i && i + 1 < |s| && s[i] == '[' && s[i + 1] == ':' && HasColonClose(Remaining(s[i + 2..], after));
      if i > 0 {
        assert s[1..][i - 1 + 2..] == s[i + 2..];
        assert s[1..][i - 1] == '[' && s[1..][i - 1 + 1] == ':';
      }
    }
  }

  // The first member of a class opens a named class exactly when it is trapped itself.
  lemma FirstMemberOpens(s: string, after: string)
    requires |s| > 0
    ensures StartsNamed([s[0]] + Remaining(s[1..], after)) <==>
              s[0] == '[' && |s| > 1 && s[1] == ':' && HasColonClose(Remaining(s[2..], after))
  {
    hide HasColonClose, StartsNamed, Remaining;
    var rest := Remaining(s[1..], after);
    if s[0] == '[' {
      NamedStartsExactly(rest);
      RemainingStart(s[1..], after);
      if |s| > 1 && s[1] == ':' {
        RemainingStep(s[1..], after);
        assert s[1..][1..] == s[2..];
        assert rest == ":" + Remaining(s[2..], after);
        RemainingStart(s[2..], after);
        assert rest[1..] == Remaining(s[2..], after);
      }
    } else {
      NoNamedStart([s[0]] + rest);
    }
  }

  lemma FirstMemberReads(s: string, after: string, first: bool)
    requires |s| > 0 && HyphensAtEdges(s, first) && OneLeadingBracket(s, first)
    requires !StartsNamed([s[0]] + Remaining(s[1..], after))
    ensures ReadParts(Remaining(s, after), first) == Push(One(s[0]), ReadParts(Remaining(s[1..], after), false))
  {
    hide StartsNamed, ReadParts, Remaining;
    var rest := Remaining(s[1..], after);
    RemainingStep(s, after);
    RemainingStart(s[1..], after);
    if rest[0] == '-' {
      assert |s| == 2;
      assert s[1..][1..] == [];
      RemainingStep(s[1..], after);
      RemainingStart([], after);
      assert rest == "-" + Remaining([], after) && rest[1] == Remaining([], after)[0];
    }
    ReadOne(s[0], rest, first);
  }

  /** Members that open no named class are read back one by one, up to the closing bracket. */
  lemma {:induction false} MembersReadBack(s: string, after: string, first: bool)
    requires HyphensAtEdges(s, first) && OneLeadingBracket(s, first) && (|s| == 0 ==> !first)
    requires !TrapIn(s, after)
    ensures ReadParts(Remaining(s, after), first) == Read(PartsRead(Ones(s), after))
    decreases |s|
  {
    hide ReadParts, Remaining, TrapIn, StartsNamed;
    if |s| == 0 {
      MembersEnd(after);
    } else {
      TrapShifts(s, after);
      MembersReadBack(s[1..], after, false);
      FirstMemberOpens(s, after);
      FirstMemberReads(s, after, first);
      assert [One(s[0])] + Ones(s[1..]) == Ones(s);
    }
  }

  lemma MembersEnd(after: string)
    ensures ReadParts(Remaining([], after), false) == Read(PartsRead(Ones([]), after))
  {
    RemainingEnd(after);
  }

  /** Members that do open one are read, if at all, with a named class among them. */
  lemma {:induction false} MembersTrapped(s: string, after: string, first: bool)
    requires HyphensAtEdges(s, first) && OneLeadingBracket(s, first)
    requires TrapIn(s, after)
    ensures var read := ReadParts(Remaining(s, after), first); read.Read? ==> HasNamed(read.value.parts)
    decreases |s|
  {
    assert |s| > 1;
    hide ReadParts, Remaining, TrapIn, StartsNamed;
    TrapShifts(s, after);
    FirstMemberOpens(s, after);
    if StartsNamed([s[0]] + Remaining(s[1..], after)) {
      RemainingStep(s, after);
      NamedIsRead(Remaining(s, after), first);
    } else {
      MembersTrapped(s[1..], after, false);
      FirstMemberReads(s, after, first);
      var read := ReadParts(Remaining(s[1..], after), false);
      if read.Read? {
        PushKeepsNamed(One(s[0]), read.value);
      }
    }
  }

  lemma NamedIsRead(r: string, first: bool)
    requires StartsNamed(r)
    ensures var read := ReadParts(r, first); read.Read? ==> HasNamed(read.value.parts)
  {
    hide FindColonClose;
    var read := ReadParts(r, first);
    if read.Read? {
      assert read.value.parts[0].Named?;
    }
  }

  lemma PushKeepsNamed(part: Part, read: PartsRead)
    requires HasNamed(read.parts)
    ensures HasNamed([part] + read.parts)
  {
    var k :| 0 <= k < |read.parts| && read.parts[k].Named?;
    assert ([part] + read.parts)[k + 1].Named?;
  }

  // The trap, in terms of the class as the pattern states it.
  predicate TrapText(stuff: string, after: string) {
    exists i :: 0 <= i < |stuff| && OpensNamed(stuff, i)
                && ((i + 2 < |stuff| && EndsInColon(stuff)) || HasColonClose(after))
  }

  predicate IsClassStuff(stuff: string) {
    && |stuff| > 0
    && (stuff[0] == '!' ==> |stuff| > 1)
    && forall i :: 0 <= i < |stuff| && stuff[i] == ']' ==> i == 0 || (i == 1 && stuff[0] == '!')
  }

  lemma OpeningIsTrapped(stuff: string, after: string, i: nat)
    requires IsClassStuff(stuff) && OpensNamed(stuff, i) && (|after| > 0 ==> after[0] != ']')
    ensures HasColonClose(Remaining(stuff[i + 2..], after))
       <==> (i + 2 < |stuff| && EndsInColon(stuff)) || HasColonClose(after)
  {
    hide HasColonClose, Remaining;
    ColonCloseRemains(stuff[i + 2..], after);
  }

  lemma TrapIsStated(stuff: string, k: nat, after: string)
    requires IsClassStuff(stuff) && (|after| > 0 ==> after[0] != ']')
    requires k == 1 || (k == 0 && stuff[0] != '[')
    requires TrapIn(stuff[k..], after)
    ensures TrapText(stuff, after)
  {
    hide HasColonClose, Remaining, EndsInColon;
    var s := stuff[k..];
    var i :| 0 <= i && i + 1 < |s| && s[i] == '[' && s[i + 1] == ':' && HasColonClose(Remaining(s[i + 2..], after));
    assert s[i + 2..] == stuff[i + k + 2..] && OpensNamed(stuff, i + k);
    OpeningIsTrapped(stuff, after, i + k);
  }

  lemma StatedIsTrap(stuff: string, k: nat, after: string)
    requires IsClassStuff(stuff) && (|after| > 0 ==> after[0] != ']')
    requires k <= 1 && TrapText(stuff, after)
    ensures TrapIn(stuff[k..], after)
  {
    hide HasColonClose, Remaining, EndsInColon;
    var s := stuff[k..];
    var i :| 0 <= i < |stuff| && OpensNamed(stuff, i)
             && ((i + 2 < |stuff| && EndsInColon(stuff)) || HasColonClose(after));
    OpeningIsTrapped(stuff, after, i);
    assert s[i - k + 2..] == stuff[i + 2..];
    assert s[i - k] == '[' && s[i - k + 1] == ':';
  }

  lemma TrapIsVisible(stuff: string, k: nat, after: string)
    requires IsClassStuff(stuff) && (|after| > 0 ==> after[0] != ']')
    requires k == 1 || (k == 0 && stuff[0] != '[')
    ensures TrapIn(stuff[k..], after) <==> TrapText(stuff, after)
  {
    hide TrapIn, TrapText;
    if TrapIn(stuff[k..], after) {
      TrapIsStated(stuff, k, after);
    }
    if TrapText(stuff, after) {
      StatedIsTrap(stuff, k, after);
    }
  }

  // What the shape of a class means for the members that are written as they stand.
  lemma ClassShape(stuff: string)
    requires IsClassStuff(stuff) && IsRangeFree(stuff)
    ensures var inner := stuff[1..];
            if stuff[0] == '!' then |inner| > 0 && HyphensAtEdges(inner, true) && OneLeadingBracket(inner, true)
            else if stuff[0] == '^' || stuff[0] == '[' then
              && HyphensAtEdges(inner, false) && OneLeadingBracket(inner, false)
              && (|inner| > 0 && inner[0] == '-' ==> |inner| == 1)
            else HyphensAtEdges(stuff, true) && OneLeadingBracket(stuff, true)
  {
  }

  lemma ReadNegated(text: string)
    ensures ReadClass("^" + text) == ToClass(true, ReadParts(text, true))
  {
    hide ReadParts;
    var r := "^" + text;
    assert r[0] == '^' && r[1..] == text;
  }

  lemma ReadUnnegated(text: string)
    requires |text| > 0 && text[0] != '^'
    ensures ReadClass(text) == ToClass(false, ReadParts(text, true))
  {
    hide ReadParts;
  }

  lemma ReadEscapedFirst(c: char, s: string, after: string)
    requires c == '^' || c == '['
    requires |s| > 0 && s[0] == '-' ==> |s| == 1
    ensures ReadParts(['\\', c] + Remaining(s, after), true) == Push(One(c), ReadParts(Remaining(s, after), false))
  {
    hide Remaining;
    var r := ['\\', c] + Remaining(s, after);
    RemainingStart(s, after);
    assert r[0] == '\\' && r[1] == c && r[2..] == Remaining(s, after);
    if |s| == 1 {
      RemainingStep(s, after);
      assert s[1..] == [];
      RemainingStart([], after);
    }
  }

  lemma WrittenNegated(stuff: string, after: string)
    requires |stuff| > 0 && stuff[0] == '!'
    ensures ClassText(stuff) + "]" + after == "^" + Remaining(stuff[1..], after)
  {
  }

  lemma WrittenEscaped(stuff: string, after: string)
    requires |stuff| > 0 && (stuff[0] == '^' || stuff[0] == '[')
    ensures ClassText(stuff) + "]" + after == ['\\', stuff[0]] + Remaining(stuff[1..], after)
  {
  }

  lemma WrittenAsIs(stuff: string, after: string)
    requires |stuff| > 0 && stuff[0] != '!' && stuff[0] != '^' && stuff[0] != '['
    ensures ClassText(stuff) + "]" + after == Remaining(stuff, after)
  {
  }

  /** A class that is not trapped reads back as the class it was written for. */
  lemma ClassReadBack(stuff: string, after: string)
    requires IsClassStuff(stuff) && IsRangeFree(stuff) && (|after| > 0 ==> after[0] != ']')
    requires !TrapText(stuff, after)
    ensures ReadClass(ClassText(stuff) + "]" + after) == Read((Image(ClassToken(stuff)), after))
  {
    hide ReadParts, ReadClass, ClassText, Remaining, TrapText, TrapIn, HyphensAtEdges, OneLeadingBracket;
    ClassShape(stuff);
    var inner := stuff[1..];
    if stuff[0] == '!' {
      TrapIsVisible(stuff, 1, after);
      MembersReadBack(inner, after, true);
      WrittenNegated(stuff, after);
      ReadNegated(Remaining(inner, after));
    } else if stuff[0] == '^' || stuff[0] == '[' {
      TrapIsVisible(stuff, 1, after);
      MembersReadBack(inner, after, false);
      WrittenEscaped(stuff, after);
      ReadEscapedFirst(stuff[0], inner, after);
      assert [One(stuff[0])] + Ones(inner) == Ones(stuff);
      ReadUnnegated(['\\', stuff[0]] + Remaining(inner, after));
    } else {
      TrapIsVisible(stuff, 0, after);
      assert stuff[0..] == stuff;
      MembersReadBack(stuff, after, true);
      WrittenAsIs(stuff, after);
      RemainingStart(stuff, after);
      ReadUnnegated(Remaining(stuff, after));
    }
  }

  /** A trapped class does not: Go reads a named class in it, or refuses the expression. */
  lemma ClassMisread(stuff: string, after: string)
    requires IsClassStuff(stuff) && IsRangeFree(stuff) && (|after| > 0 ==> after[0] != ']')
    requires TrapText(stuff, after)
    ensures var read := ReadClass(ClassText(stuff) + "]" + after);
            read.Read? ==> read.value.0.OneOf? && HasNamed(read.value.0.parts)
  {
    hide ReadParts, ReadClass, ClassText, Remaining, TrapText, TrapIn, HasNamed, HyphensAtEdges, OneLeadingBracket;
    ClassShape(stuff);
    var inner := stuff[1..];
    if stuff[0] == '!' {
      TrapIsVisible(stuff, 1, after);
      MembersTrapped(inner, after, true);
      WrittenNegated(stuff, after);
      ReadNegated(Remaining(inner, after));
    } else if stuff[0] == '^' || stuff[0] == '[' {
      TrapIsVisible(stuff, 1, after);
      MembersTrapped(inner, after, false);
      WrittenEscaped(stuff, after);
      ReadEscapedFirst(stuff[0], inner, after);
      ReadUnnegated(['\\', stuff[0]] + Remaining(inner, after));
      var read := ReadParts(Remaining(inner, after), false);
      if read.Read? {
        PushKeepsNamed(One(stuff[0]), read.value);
      }
    } else {
      TrapIsVisible(stuff, 0, after);
      assert stuff[0..] == stuff;
      MembersTrapped(stuff, after, true);
      WrittenAsIs(stuff, after);
      RemainingStart(stuff, after);
      ReadUnnegated(Remaining(stuff, after));
    }
  }

  // ----- reading a pattern back --------------------------------------------------------------------

  // The text between the brackets that `ClassEnd` finds has the shape that is read back.
  lemma ClassEndShape(p: string)
    requires ClassEnd(p).Some?
    ensures IsClassStuff(p[..ClassEnd(p).value])
  {
    var afterBang := if |p| > 0 && p[0] == '!' then 1 else 0;
    var first := if afterBang < |p| && p[afterBang] == ']' then afterBang + 1 else afterBang;
    FindCloseIsFirst(p, first);
  }

  // Where `:]` occurs in a written class: at its end, if the class ends in a colon.
  lemma ClassColonClose(stuff: string, rest: string)
    requires IsClassStuff(stuff) && |rest| > 0 && rest[0] != ']'
    ensures HasColonClose("[" + (ClassText(stuff) + "]" + rest)) <==> EndsInColon(stuff) || HasColonClose(rest)
  {
    hide HasColonClose, Remaining, ClassText;
    var text := ClassText(stuff) + "]" + rest;
    ColonCloseSkips("[", text);
    if stuff[0] == '!' {
      WrittenNegated(stuff, rest);
      ColonCloseSkips("^", Remaining(stuff[1..], rest));
      LeadingBracketRemains(stuff[1..], rest);
    } else if stuff[0] == '^' || stuff[0] == '[' {
      WrittenEscaped(stuff, rest);
      LeadingBracketRemains(stuff[1..], rest);
      EscapedIsNoColonClose(stuff[0]);
      RemainingStart(stuff[1..], rest);
      ColonCloseJoins(['\\', stuff[0]], Remaining(stuff[1..], rest));
    } else {
      WrittenAsIs(stuff, rest);
      LeadingBracketRemains(stuff, rest);
    }
  }

  lemma EscapedIsNoColonClose(c: char)
    ensures !HasColonClose(['\\', c])
  {
  }

  lemma LeadingBracketRemains(s: string, rest: string)
    requires |rest| > 0 && rest[0] != ']'
    requires forall i :: 0 <= i < |s| && s[i] == ']' ==> i == 0
    ensures HasColonClose(Remaining(s, rest)) <==> EndsInColon(s) || HasColonClose(rest)
  {
    hide HasColonClose, Remaining;
    if |s| > 0 && s[0] == ']' {
      RemainingStep(s, rest);
      ColonCloseSkips("]", Remaining(s[1..], rest));
      ColonCloseRemains(s[1..], rest);
    } else {
      ColonCloseRemains(s, rest);
    }
  }

  predicate IsClassHere(p: string) {
    |p| > 0 && p[0] == '[' && ClassEnd(p[1..]).Some?
  }

  function StuffHere(p: string): string
    requires IsClassHere(p)
  {
    p[1..][..ClassEnd(p[1..]).value]
  }

  lemma ClassPiece(p: string, rest: string)
    requires IsClassHere(p)
    ensures IsClassStuff(StuffHere(p)) && Piece(p) + rest == "[" + (ClassText(StuffHere(p)) + "]" + rest)
  {
    hide ClassEnd, ClassText, IsClassStuff;
    ClassEndShape(p[1..]);
    Associate("[", ClassText(StuffHere(p)) + "]", rest);
    Associate("[", ClassText(StuffHere(p)), "]");
  }

  // Nothing that is written starts with a bare star or a bare closing bracket.
  lemma BodyStart(p: string)
    ensures var r := Body(p) + SUFFIX; |r| > 0 && r[0] != '*' && r[0] != ']'
  {
    hide ClassText, ClassEnd;
  }

  lemma BodyUnfolds(p: string)
    requires |p| > 0
    ensures Body(p) + SUFFIX == Piece(p) + (Body(p[Advance(p)..]) + SUFFIX)
  {
    hide Piece, Advance;
    Associate(Piece(p), Body(p[Advance(p)..]), SUFFIX);
  }

  lemma OtherPieceHasNoColonClose(p: string, rest: string)
    requires |p| > 0 && !IsClassHere(p) && |rest| > 0 && rest[0] != ']'
    ensures HasColonClose(Piece(p) + rest) <==> HasColonClose(rest)
  {
    hide ClassText, ClassEnd, HasColonClose;
    ShortPiece(p);
    ColonCloseJoins(Piece(p), rest);
  }

  lemma ShortPiece(p: string)
    requires |p| > 0 && !IsClassHere(p)
    ensures 0 < |Piece(p)| <= 2 && !HasColonClose(Piece(p))
  {
    hide ClassText, ClassEnd;
  }

  /** The text of a pattern holds `:]` exactly where one of its classes ends in a colon. */
  lemma {:induction false} ClosingIsVisible(p: string)
    ensures HasColonClose(Body(p) + SUFFIX) <==> ClosesNamed(p)
    decreases |p|
  {
    hide Piece, Advance, ClassEnd, ClassText, HasColonClose, Body, IsClassStuff;
    if |p| == 0 {
      BodyOfNothing(p);
      SuffixHasNoColonClose(p);
    } else {
      var tail := p[Advance(p)..];
      ClosingIsVisible(tail);
      BodyUnfolds(p);
      BodyStart(tail);
      if IsClassHere(p) {
        ClassPiece(p, Body(tail) + SUFFIX);
        ClassColonClose(StuffHere(p), Body(tail) + SUFFIX);
      } else {
        OtherPieceHasNoColonClose(p, Body(tail) + SUFFIX);
      }
    }
  }

  lemma SuffixHasNoColonClose(p: string)
    requires |p| == 0
    ensures !HasColonClose(Body(p) + SUFFIX)
  {
    assert Body(p) + SUFFIX == SUFFIX;
  }

  lemma ReadStar(rest: string)
    ensures ReadItems(".*" + rest) == Follow(AnyRun, ReadItems(rest))
  {
    hide ReadClass;
    var r := ".*" + rest;
    assert r[0] == '.' && r[1] == '*' && r[2..] == rest;
  }

  lemma ReadDot(rest: string)
    requires |rest| > 0 && rest[0] != '*'
    ensures ReadItems("." + rest) == Follow(AnyOne, ReadItems(rest))
  {
    hide ReadClass;
    var r := "." + rest;
    assert r[0] == '.' && r[1] == rest[0] && r[1..] == rest;
  }

  lemma ReadEscaped(c: char, rest: string)
    requires IsMeta(c)
    ensures ReadItems(['\\', c] + rest) == Follow(Exactly(c), ReadItems(rest))
  {
    hide ReadClass;
    var r := ['\\', c] + rest;
    assert r[0] == '\\' && r[1] == c && r[2..] == rest;
    assert SUFFIX[1] == 'z';
  }

  lemma ReadPlainChar(c: char, rest: string)
    requires !IsMeta(c)
    ensures ReadItems([c] + rest) == Follow(Exactly(c), ReadItems(rest))
  {
    hide ReadClass;
    var r := [c] + rest;
    assert r[0] == c && r[1..] == rest;
  }

  lemma ReadBracketed(text: string)
    ensures ReadItems("[" + text) ==
              match ReadClass(text)
              case Refused => Refused
              case Beyond => Beyond
              case Read((item, rest)) => Follow(item, ReadItems(rest))
  {
    hide ReadClass;
    var r := "[" + text;
    assert r[0] == '[' && r[1..] == text;
  }

  lemma OtherPieceReadsBack(p: string, rest: string)
    requires |p| > 0 && !IsClassHere(p) && |rest| > 0 && rest[0] != '*'
    ensures ReadItems(Piece(p) + rest) == Follow(Image(FirstToken(p)), ReadItems(rest))
  {
    hide ReadItems, ClassEnd, ClassText;
    if p[0] == '*' {
      ReadStar(rest);
    } else if p[0] == '?' {
      ReadDot(rest);
    } else if IsMeta(p[0]) {
      ReadEscaped(p[0], rest);
    } else {
      ReadPlainChar(p[0], rest);
    }
  }

  /** The piece written for a class reads back as that class exactly when the class is not trapped. */
  lemma ClassPieceReads(p: string, rest: string)
    requires IsClassHere(p) && IsRangeFree(StuffHere(p)) && |rest| > 0 && rest[0] != ']'
    ensures !TrapText(StuffHere(p), rest) ==> ReadItems(Piece(p) + rest) == Follow(Image(FirstToken(p)), ReadItems(rest))
    ensures TrapText(StuffHere(p), rest) ==>
              var read := ReadItems(Piece(p) + rest);
              read.Read? ==> |read.value| > 0 && read.value[0].OneOf? && HasNamed(read.value[0].parts)
  {
    hide ReadItems, ReadClass, ClassText, ClassToken, ClassEnd, TrapText, HasNamed, IsRangeFree, IsClassStuff, Piece;
    var stuff := StuffHere(p);
    ClassPiece(p, rest);
    ReadBracketed(ClassText(stuff) + "]" + rest);
    if TrapText(stuff, rest) {
      ClassMisread(stuff, rest);
    } else {
      ClassReadBack(stuff, rest);
    }
  }

  lemma FollowImages(p: string, read: Reading<seq<Item>>)
    requires |p| > 0
    ensures Follow(Image(FirstToken(p)), read) == Read(Images(Tokens(p))) <==> read == Read(Images(Tokens(p[Advance(p)..])))
  {
    hide FirstToken, Advance, Image;
    var ts := Tokens(p);
    assert ts == [FirstToken(p)] + Tokens(p[Advance(p)..]);
    ImagesTail(ts);
    assert Images(ts) == [Image(ts[0])] + Images(ts)[1..];
    if Follow(Image(FirstToken(p)), read) == Read(Images(ts)) {
      assert read.value == ([Image(ts[0])] + read.value)[1..];
    }
  }

  lemma ImagesHaveNoNamed(t: Token)
    ensures Image(t).OneOf? ==> !HasNamed(Image(t).parts)
  {
  }

  /** For every pattern whose classes hold no ranges: what Go reads of the translated text are the
      tokens of the glob, exactly when no class opens what Go takes for a named class. */
  lemma {:induction false} ReadsBackExactly(p: string)
    requires RangeFree(p)
    ensures ReadItems(Body(p) + SUFFIX) == Read(Images(Tokens(p))) <==> Untrapped(p)
    decreases |p|
  {
    hide ReadItems, Piece, FirstToken, Advance, ClassEnd, Body, TrapText, HasNamed, Image, Images, IsRangeFree, Tokens;
    if |p| == 0 {
      NothingReadsBack(p);
    } else {
      var tail := p[Advance(p)..];
      var rest := Body(tail) + SUFFIX;
      ReadsBackExactly(tail);
      BodyUnfolds(p);
      BodyStart(tail);
      FollowImages(p, ReadItems(rest));
      if IsClassHere(p) {
        ClassPieceReads(p, rest);
        ClosingIsVisible(tail);
        TrapIsOfThePattern(StuffHere(p), tail);
        FirstImage(p);
      } else {
        OtherPieceReadsBack(p, rest);
      }
    }
  }

  lemma FirstImage(p: string)
    requires |p| > 0
    ensures |Images(Tokens(p))| > 0 && Images(Tokens(p))[0] == Image(FirstToken(p))
    ensures Image(FirstToken(p)).OneOf? ==> !HasNamed(Image(FirstToken(p)).parts)
  {
    hide FirstToken, Advance, HasNamed, Image;
    assert Tokens(p)[0] == FirstToken(p);
    ImagesHaveNoNamed(FirstToken(p));
  }

  lemma TrapIsOfThePattern(stuff: string, tail: string)
    requires HasColonClose(Body(tail) + SUFFIX) <==> ClosesNamed(tail)
    ensures TrapText(stuff, Body(tail) + SUFFIX) <==> Trapped(stuff, tail)
  {
    hide OpensNamed, EndsInColon, HasColonClose, ClosesNamed, Body;
  }

  lemma NothingReadsBack(p: string)
    requires |p| == 0
    ensures ReadItems(Body(p) + SUFFIX) == Read(Images(Tokens(p)))
  {
    assert Body(p) + SUFFIX == SUFFIX;
    assert Images(Tokens(p)) == [];
  }

  // What a pattern must be for Go to read it as Python does.
  predicate ReadsAlike(p: string) {
    RangeFree(p) && Untrapped(p)
  }

  lemma StarReadsAlike()
    ensures ReadsAlike("*")
  {
    assert "*"[1..] == "";
  }

  lemma CompiledText(pattern: string)
    ensures Compile(Translated(pattern)) == ReadItems(Body(pattern) + SUFFIX)
  {
    hide ReadItems, Body;
    var t := Translated(pattern);
    assert t == PREFIX + (Body(pattern) + SUFFIX);
    assert t[|PREFIX|..] == Body(pattern) + SUFFIX;
  }

  /** For every pattern without ranges that opens no named class, the Go matcher accepts exactly the
      names that Python's does: a star crosses slashes, a leading `!` negates, a bracket that comes
      first in a class is a member, a hyphen at either end is one, an unclosed bracket is a literal. */
  lemma TranslationPreservesMeaning(go: Regexps, name: string, pattern: string)
    requires ReadsAlike(pattern)
    ensures GoFnMatch(go, name, pattern) <==> FnMatchCase(name, pattern)
  {
    hide ReadItems, Body, Tokens, Images, Accepts, Matches, RangeFree, Untrapped, Compile;
    CompiledText(pattern);
    ReadsBackExactly(pattern);
    AcceptsIsMatches(Tokens(pattern), name);
  }

  // ----- the cache ---------------------------------------------------------------------------

  // A compiled expression knows its text.
  datatype Regexp = Regexp(source: string, reading: Reading<seq<Item>>)

  class Matcher {
    const go: Regexps
    var cache: map<string, Regexp>

    ghost predicate Valid()
      reads this
    {
      forall p :: p in cache ==> cache[p] == Regexp(Translated(p), Compile(Translated(p)))
    }

    constructor (go: Regexps)
      ensures Valid() && this.go == go
    {
      this.go := go;
      cache := map[];
    }

    /** The cache never changes an answer. */
    method FnMatch(name: string, pattern: string) returns (ok: bool)
      requires Valid()
      modifies this
      ensures Valid() && ok == GoFnMatch(go, name, pattern)
    {
      if pattern !in cache {
        var source := Translate(pattern);
        cache := cache[pattern := Regexp(source, Compile(source))];
      }
      var re := cache[pattern];
      match re.reading
      case Refused => return false;
      case Beyond => return go(re.source, name);
      case Read(items) => return Accepts(items, name);
    }

    method MatchAny(name: string, patterns: seq<string>) returns (ok: bool)
      requires Valid()
      modifies this
      ensures Valid() && (ok <==> exists i :: 0 <= i < |patterns| && GoFnMatch(go, name, patterns[i]))
    {
      hide GoFnMatch, Valid;
      for i := 0 to |patterns|
        invariant Valid()
        invariant forall k :: 0 <= k < i ==> !GoFnMatch(go, name, patterns[k])
      {
        var hit := FnMatch(name, patterns[i]);
        if hit {
          return true;
        }
      }
      return false;
    }
  }
}
