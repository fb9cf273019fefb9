/** Ascending lists: how a set of values comes out of `sorted`. */
module Ordering {
  // Strings are compared character by character, and tuples of strings in the same way.
  predicate LessString(a: string, b: string) {
    |b| > 0 && (|a| == 0 || a[0] < b[0] || (a[0] == b[0] && LessString(a[1..], b[1..])))
  }

  predicate LessTuple(a: seq<string>, b: seq<string>) {
    |b| > 0 && (|a| == 0 || LessString(a[0], b[0]) || (a[0] == b[0] && LessTuple(a[1..], b[1..])))
  }

  lemma {:induction false} StringsCompare(a: string, b: string)
    ensures a == b || LessString(a, b) || LessString(b, a)
  {
    if |a| > 0 && |b| > 0 && a[0] == b[0] {
      StringsCompare(a[1..], b[1..]);
      assert a == [a[0]] + a[1..] && b == [b[0]] + b[1..];
    }
  }

  lemma {:induction false} TuplesCompare(a: seq<string>, b: seq<string>)
    ensures a == b || LessTuple(a, b) || LessTuple(b, a)
  {
    if |a| > 0 && |b| > 0 {
      StringsCompare(a[0], b[0]);
      if a[0] == b[0] {
        TuplesCompare(a[1..], b[1..]);
        assert a == [a[0]] + a[1..] && b == [b[0]] + b[1..];
      }
    }
  }

  lemma {:induction false} StringsChain(a: string, b: string, c: string)
    requires LessString(a, b) && LessString(b, c)
    ensures LessString(a, c)
  {
    if |a| > 0 && a[0] == b[0] && b[0] == c[0] {
      StringsChain(a[1..], b[1..], c[1..]);
    }
  }

  // Any two different values are ordered one way or the other.
  ghost predicate IsTotal<T(!new)>(less: (T, T) -> bool) {
    forall a, b :: a == b || less(a, b) || less(b, a)
  }

  lemma StringsAreOrdered()
    ensures IsTotal(LessString)
  {
    forall a, b ensures a == b || LessString(a, b) || LessString(b, a) { StringsCompare(a, b); }
  }

  lemma TuplesAreOrdered()
    ensures IsTotal(LessTuple)
  {
    forall a, b ensures a == b || LessTuple(a, b) || LessTuple(b, a) { TuplesCompare(a, b); }
  }

  ghost predicate Ascending<T(!new)>(less: (T, T) -> bool, xs: seq<T>) {
    forall i :: 0 < i < |xs| ==> less(xs[i - 1], xs[i])
  }

  // No value comes before itself, and the order chains.
  ghost predicate IsStrict<T(!new)>(less: (T, T) -> bool) {
    (forall a :: !less(a, a)) && forall a, b, c :: less(a, b) && less(b, c) ==> less(a, c)
  }

  lemma {:induction false} NoStringBeforeItself(a: string)
    ensures !LessString(a, a)
  {
    if |a| > 0 {
      NoStringBeforeItself(a[1..]);
    }
  }

  lemma StringsAreStrict()
    ensures IsStrict(LessString)
  {
    hide LessString;
    forall a ensures !LessString(a, a) { NoStringBeforeItself(a); }
    forall a, b, c | LessString(a, b) && LessString(b, c) ensures LessString(a, c) { StringsChain(a, b, c); }
  }

  lemma {:induction false} TuplesAscend(a: seq<string>, b: seq<string>, c: seq<string>)
    ensures !LessTuple(a, a)
    ensures LessTuple(a, b) && LessTuple(b, c) ==> LessTuple(a, c)
  {
    hide LessString;
    StringsAreStrict();
    if |a| > 0 {
      TuplesAscend(a[1..], if |b| > 0 then b[1..] else b, if |c| > 0 then c[1..] else c);
    }
  }

  lemma TuplesAreStrict()
    ensures IsStrict(LessTuple)
  {
    hide LessTuple;
    forall a ensures !LessTuple(a, a) { TuplesAscend(a, a, a); }
    forall a, b, c | LessTuple(a, b) && LessTuple(b, c) ensures LessTuple(a, c) { TuplesAscend(a, b, c); }
  }

  lemma {:induction false} FirstIsLeast<T(!new)>(less: (T, T) -> bool, xs: seq<T>, k: nat)
    requires IsStrict(less) && Ascending(less, xs) && 0 < k < |xs|
    ensures less(xs[0], xs[k])
  {
    if k > 1 {
      FirstIsLeast(less, xs, k - 1);
    }
  }

  lemma FirstsAgree<T(!new)>(less: (T, T) -> bool, xs: seq<T>, ys: seq<T>)
    requires IsStrict(less) && Ascending(less, xs) && Ascending(less, ys)
    requires |xs| > 0 && |ys| > 0 && xs[0] in ys && ys[0] in xs
    ensures xs[0] == ys[0]
  {
    hide Ascending;
    if xs[0] != ys[0] {
      var i :| 0 <= i < |ys| && ys[i] == xs[0];
      var j :| 0 <= j < |xs| && xs[j] == ys[0];
      FirstIsLeast(less, ys, i);
      FirstIsLeast(less, xs, j);
    }
  }

  lemma RestOf<T(!new)>(less: (T, T) -> bool, xs: seq<T>)
    requires IsStrict(less) && Ascending(less, xs) && |xs| > 0
    ensures Ascending(less, xs[1..])
    ensures forall v :: v in xs[1..] <==> v in xs && v != xs[0]
  {
    forall v | v in xs[1..]
      ensures v != xs[0]
    {
      var i: nat :| i < |xs[1..]| && xs[1..][i] == v;
      FirstIsLeast(less, xs, i + 1);
    }
  }

  /** A set of values comes out of `sorted` in one way only. */
  lemma {:induction false} AscendingIsUnique<T(!new)>(less: (T, T) -> bool, xs: seq<T>, ys: seq<T>)
    requires IsStrict(less) && Ascending(less, xs) && Ascending(less, ys)
    requires forall v :: v in xs <==> v in ys
    ensures xs == ys
  {
    hide IsStrict, Ascending;
    assert |ys| > 0 ==> ys[0] in ys;
    if |xs| > 0 {
      assert xs[0] in ys;
      assert ys[0] in xs;
      FirstsAgree(less, xs, ys);
      RestOf(less, xs);
      RestOf(less, ys);
      AscendingIsUnique(less, xs[1..], ys[1..]);
      assert xs == [xs[0]] + xs[1..] && ys == [ys[0]] + ys[1..];
    }
  }

  /** Adds a value in its place, unless it is there already. */
  function Insert<T(==, !new)>(less: (T, T) -> bool, x: T, xs: seq<T>): (r: seq<T>)
    ensures forall y :: y in r <==> y == x || y in xs
    ensures |r| > 0 && (r[0] == x || (|xs| > 0 && r[0] == xs[0]))
    ensures IsTotal(less) && Ascending(less, xs) ==> Ascending(less, r)
  {
    if |xs| == 0 then [x]
    else if xs[0] == x then xs
    else if less(x, xs[0]) then [x] + xs
    else
      assert Ascending(less, xs) ==> Ascending(less, xs[1..]);
      [xs[0]] + Insert(less, x, xs[1..])
  }

  /** Adds a value in its place, beside any equal ones. */
  function InsertAgain<T(==, !new)>(less: (T, T) -> bool, x: T, xs: seq<T>): (r: seq<T>)
    ensures multiset(r) == multiset{x} + multiset(xs)
  {
    if |xs| == 0 then [x]
    else if !less(xs[0], x) then [x] + xs
    else
      assert xs == [xs[0]] + xs[1..];
      [xs[0]] + InsertAgain(less, x, xs[1..])
  }

  /** A sorted list of the same strings, repetitions kept. */
  function SortedStrings(xs: seq<string>): (r: seq<string>)
    ensures multiset(r) == multiset(xs)
  {
    if |xs| == 0 then []
    else
      assert xs == [xs[0]] + xs[1..];
      InsertAgain(LessString, xs[0], SortedStrings(xs[1..]))
  }
}
