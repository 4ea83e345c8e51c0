/** The language's stable `sorted`, and what it determines. */
module Sorting {

  ghost predicate IsTotal<T(!new)>(leq: (T, T) -> bool) {
    && (forall a, b :: leq(a, b) || leq(b, a))
    && (forall a, b, c :: leq(a, b) && leq(b, c) ==> leq(a, c))
  }

  ghost predicate Sorted<T>(xs: seq<T>, leq: (T, T) -> bool) {
    forall i, j :: 0 <= i < j < |xs| ==> leq(xs[i], xs[j])
  }

  function InsertSorted<T>(x: T, xs: seq<T>, leq: (T, T) -> bool): seq<T> {
    if xs == [] then [x]
    else if leq(x, xs[0]) then [x] + xs
    else [xs[0]] + InsertSorted(x, xs[1..], leq)
  }

  /** Insertion from the right, before equal elements: a stable sort. */
  function SortBy<T>(xs: seq<T>, leq: (T, T) -> bool): seq<T> {
    if xs == [] then [] else InsertSorted(xs[0], SortBy(xs[1..], leq), leq)
  }

  lemma {:induction false} InsertSortedElements<T>(x: T, xs: seq<T>, leq: (T, T) -> bool)
    ensures multiset(InsertSorted(x, xs, leq)) == multiset(xs) + multiset{x}
  {
    if xs != [] {
      assert xs == [xs[0]] + xs[1..];
      InsertSortedElements(x, xs[1..], leq);
    }
  }

  lemma {:induction false} InsertSortedKeepsOrder<T(!new)>(x: T, xs: seq<T>, leq: (T, T) -> bool)
    requires IsTotal(leq) && Sorted(xs, leq)
    ensures Sorted(InsertSorted(x, xs, leq), leq)
  {
    if xs != [] && !leq(x, xs[0]) {
      var rest := InsertSorted(x, xs[1..], leq);
      InsertSortedKeepsOrder(x, xs[1..], leq);
      InsertSortedElements(x, xs[1..], leq);
      forall y | y in rest
        ensures leq(xs[0], y)
      {
        assert y in multiset(rest);
        assert y == x || y in xs[1..];
      }
    }
  }

  lemma {:induction false} SortByPermutes<T>(xs: seq<T>, leq: (T, T) -> bool)
    ensures multiset(SortBy(xs, leq)) == multiset(xs)
  {
    if xs != [] {
      assert xs == [xs[0]] + xs[1..];
      SortByPermutes(xs[1..], leq);
      InsertSortedElements(xs[0], SortBy(xs[1..], leq), leq);
    }
  }

  lemma {:induction false} SortBySorts<T(!new)>(xs: seq<T>, leq: (T, T) -> bool)
    requires IsTotal(leq)
    ensures Sorted(SortBy(xs, leq), leq)
  {
    if xs != [] {
      SortBySorts(xs[1..], leq);
      InsertSortedKeepsOrder(xs[0], SortBy(xs[1..], leq), leq);
    }
  }

  function MapSeq<A, B>(f: A -> B, xs: seq<A>): seq<B> {
    seq(|xs|, k requires 0 <= k < |xs| => f(xs[k]))
  }

  lemma OneLess<A, B>(f: A -> B, b: seq<A>, k: nat)
    requires k < |b|
    ensures multiset(b) == multiset(b[..k] + b[k + 1..]) + multiset{b[k]}
    ensures multiset(MapSeq(f, b)) == multiset(MapSeq(f, b[..k] + b[k + 1..])) + multiset{f(b[k])}
  {
    assert b == b[..k] + [b[k]] + b[k + 1..];
    assert MapSeq(f, b) == MapSeq(f, b[..k]) + [f(b[k])] + MapSeq(f, b[k + 1..]);
    assert MapSeq(f, b[..k] + b[k + 1..]) == MapSeq(f, b[..k]) + MapSeq(f, b[k + 1..]);
  }

  lemma MatchingTails<T>(a: seq<T>, b: seq<T>) returns (k: nat)
    requires a != [] && multiset(a) == multiset(b)
    ensures k < |b| && b[k] == a[0]
    ensures multiset(a[1..]) == multiset(b[..k] + b[k + 1..])
  {
    assert a[0] in multiset(b);
    k :| 0 <= k < |b| && b[k] == a[0];
    assert a == [a[0]] + a[1..];
    assert b == b[..k] + [b[k]] + b[k + 1..];
    assert multiset(a[1..]) == multiset(a) - multiset{a[0]};
  }

  /** Applying a function to all elements respects permutations. */
  lemma {:induction false} MapPermutes<A, B>(f: A -> B, a: seq<A>, b: seq<A>)
    requires multiset(a) == multiset(b)
    ensures multiset(MapSeq(f, a)) == multiset(MapSeq(f, b))
    decreases |a|
  {
    if a == [] {
      assert |b| == |multiset(b)| == 0;
    } else {
      var k := MatchingTails(a, b);
      MapPermutes(f, a[1..], b[..k] + b[k + 1..]);
      OneLess(f, b, k);
      assert MapSeq(f, a) == [f(a[0])] + MapSeq(f, a[1..]);
    }
  }

  lemma SameElements<T>(a: seq<T>, b: seq<T>)
    requires multiset(a) == multiset(b)
    ensures forall x :: x in a <==> x in b
  {
    forall x
      ensures x in a <==> x in b
    {
      assert x in a <==> x in multiset(a);
      assert x in b <==> x in multiset(b);
    }
  }

  lemma FirstComesFirst<T>(xs: seq<T>, y: T, leq: (T, T) -> bool)
    requires Sorted(xs, leq) && y in multiset(xs)
    ensures xs != [] && (xs[0] == y || leq(xs[0], y))
  {
  }

  /** Among the elements of `xs`, equal in the order means identical. */
  ghost predicate Antisymmetric<T>(xs: seq<T>, leq: (T, T) -> bool) {
    forall i, j :: 0 <= i < |xs| && 0 <= j < |xs| && leq(xs[i], xs[j]) && leq(xs[j], xs[i]) ==> xs[i] == xs[j]
  }

  lemma SameFirst<T>(xs: seq<T>, ys: seq<T>, leq: (T, T) -> bool)
    requires Antisymmetric(xs, leq) && Sorted(xs, leq) && Sorted(ys, leq)
    requires multiset(xs) == multiset(ys) && xs != []
    ensures ys != [] && xs[0] == ys[0] && multiset(xs[1..]) == multiset(ys[1..])
  {
    assert xs[0] in multiset(xs);
    FirstComesFirst(ys, xs[0], leq);
    assert ys[0] in multiset(ys);
    FirstComesFirst(xs, ys[0], leq);
    assert ys[0] in xs;
    assert xs == [xs[0]] + xs[1..] && ys == [ys[0]] + ys[1..];
    assert multiset(xs[1..]) == multiset(xs) - multiset{xs[0]};
    assert multiset(ys[1..]) == multiset(ys) - multiset{ys[0]};
  }

  /** Where equal means identical, the elements alone determine the sorted list. */
  lemma {:induction false} SortedUnique<T>(xs: seq<T>, ys: seq<T>, leq: (T, T) -> bool)
    requires Antisymmetric(xs, leq) && Sorted(xs, leq) && Sorted(ys, leq)
    requires multiset(xs) == multiset(ys)
    ensures xs == ys
    decreases |xs|
  {
    if xs == [] {
      assert |ys| == |multiset(ys)| == 0;
    } else {
      SameFirst(xs, ys, leq);
      TailSorted(xs, leq);
      TailSorted(ys, leq);
      SortedUnique(xs[1..], ys[1..], leq);
      assert xs == [xs[0]] + xs[1..] && ys == [ys[0]] + ys[1..];
    }
  }

  lemma TailSorted<T>(xs: seq<T>, leq: (T, T) -> bool)
    requires Sorted(xs, leq) && xs != []
    ensures Sorted(xs[1..], leq)
  {
  }
}

/** Comparing and trimming strings. */
module Text {
  import opened Sorting

  /** Code-point order, as string comparison uses it. */
  predicate Before(a: string, b: string) {
    a == "" || (b != "" && (a[0] < b[0] || (a[0] == b[0] && Before(a[1..], b[1..]))))
  }

  lemma {:induction false} BeforeTotal(a: string, b: string)
    ensures Before(a, b) || Before(b, a)
    ensures Before(a, b) && Before(b, a) ==> a == b
  {
    if a != "" && b != "" && a[0] == b[0] {
      BeforeTotal(a[1..], b[1..]);
      assert a == [a[0]] + a[1..] && b == [b[0]] + b[1..];
    }
  }

  lemma {:induction false} BeforeTransitive(a: string, b: string, c: string)
    requires Before(a, b) && Before(b, c)
    ensures Before(a, c)
  {
    if a != "" && a[0] == b[0] == c[0] {
      BeforeTransitive(a[1..], b[1..], c[1..]);
    }
  }

  lemma BeforeIsTotalOrder()
    ensures IsTotal(Before)
    ensures forall a, b :: Before(a, b) && Before(b, a) ==> a == b
  {
    forall a, b ensures Before(a, b) || Before(b, a) { BeforeTotal(a, b); }
    forall a, b | Before(a, b) && Before(b, a) ensures a == b { BeforeTotal(a, b); }
    forall a, b, c | Before(a, b) && Before(b, c) ensures Before(a, c) { BeforeTransitive(a, b, c); }
  }

  /** The characters Python strips. */
  predicate IsSpace(c: char) {
    || c == ' ' || '\t' <= c <= '\r' || '\U{001C}' <= c <= '\U{001F}'
    || c == '\U{0085}' || c == '\U{00A0}' || c == '\U{1680}' || '\U{2000}' <= c <= '\U{200A}'
    || c == '\U{2028}' || c == '\U{2029}' || c == '\U{202F}' || c == '\U{205F}' || c == '\U{3000}'
  }

  function StripLeft(s: string): string {
    if s != "" && IsSpace(s[0]) then StripLeft(s[1..]) else s
  }

  function StripRight(s: string): string {
    if s != "" && IsSpace(s[|s| - 1]) then StripRight(s[..|s| - 1]) else s
  }

  function Strip(s: string): string {
    StripRight(StripLeft(s))
  }

  /** Stripping stops at the first and the last character that is not a space. */
  lemma {:induction false} StripKeepsCore(before: string, core: string)
    requires core != "" && !IsSpace(core[0]) && !IsSpace(core[|core| - 1])
    ensures Strip(before + core) == StripLeft(before) + core
  {
    StripLeftKeepsCore(before, core);
    var left := StripLeft(before) + core;
    assert left[|left| - 1] == core[|core| - 1];
  }

  lemma {:induction false} StripLeftKeepsCore(before: string, core: string)
    requires core != "" && !IsSpace(core[0])
    ensures StripLeft(before + core) == StripLeft(before) + core
  {
    if before == "" {
      assert before + core == core;
    } else if IsSpace(before[0]) {
      StripLeftKeepsCore(before[1..], core);
      assert (before + core)[1..] == before[1..] + core;
    }
  }
}
