/** Python's stable `sorted`, with a numeric key or on strings. */
module Sorting {
  /** Before the first item it precedes, so after the items it ties with. */
  function Insert<T>(item: T, sorted: seq<T>, before: (T, T) -> bool): seq<T> {
    if sorted == [] || before(item, sorted[0]) then [item] + sorted
    else [sorted[0]] + Insert(item, sorted[1..], before)
  }

  function Sort<T>(items: seq<T>, before: (T, T) -> bool): seq<T> {
    if items == [] then [] else Insert(items[|items| - 1], Sort(items[..|items| - 1], before), before)
  }

  ghost predicate Ordered<T>(s: seq<T>, before: (T, T) -> bool) {
    forall i, j :: 0 <= i < j < |s| ==> !before(s[j], s[i])
  }

  ghost predicate IsOrder<T(!new)>(before: (T, T) -> bool) {
    && (forall a, b :: before(a, b) ==> !before(b, a))
    && (forall a, b, c :: !before(b, a) && !before(c, b) ==> !before(c, a))
  }

  lemma {:induction false} InsertKeepsItems<T>(item: T, sorted: seq<T>, before: (T, T) -> bool)
    ensures multiset(Insert(item, sorted, before)) == multiset(sorted) + multiset{item}
  {
    if sorted == [] || before(item, sorted[0]) {
    } else {
      InsertKeepsItems(item, sorted[1..], before);
      assert sorted == [sorted[0]] + sorted[1..];
    }
  }

  lemma {:induction false} InsertKeepsOrder<T(!new)>(item: T, sorted: seq<T>, before: (T, T) -> bool)
    requires IsOrder(before) && Ordered(sorted, before)
    ensures Ordered(Insert(item, sorted, before), before)
  {
    if sorted == [] || before(item, sorted[0]) {
    } else {
      var head, tail, rest := sorted[0], sorted[1..], Insert(item, sorted[1..], before);
      InsertKeepsOrder(item, tail, before);
      InsertKeepsItems(item, tail, before);
      hide Insert;
      forall i | 0 <= i < |rest|
        ensures !before(rest[i], head)
      {
        assert rest[i] in multiset(rest);
      }
    }
  }

  function Filter<T>(s: seq<T>, p: T -> bool): seq<T> {
    if s == [] then [] else Filter(s[..|s| - 1], p) + if p(s[|s| - 1]) then [s[|s| - 1]] else []
  }

  lemma {:induction false} FilterConcat<T>(a: seq<T>, b: seq<T>, p: T -> bool)
    ensures Filter(a + b, p) == Filter(a, p) + Filter(b, p)
  {
    if b == [] {
      assert a + b == a;
    } else {
      FilterConcat(a, b[..|b| - 1], p);
      assert (a + b)[..|a + b| - 1] == a + b[..|b| - 1];
    }
  }

  lemma FilterOne<T>(x: T, p: T -> bool)
    ensures Filter([x], p) == if p(x) then [x] else []
  {
    assert [x][..0] == [];
  }

  /** Items that none of the others precedes: they tie. */
  ghost predicate Tie<T(!new)>(p: T -> bool, before: (T, T) -> bool) {
    forall a, b :: p(a) && p(b) ==> !before(a, b)
  }

  lemma PrecedesBoth<T(!new)>(item: T, first: T, other: T, before: (T, T) -> bool)
    requires IsOrder(before) && before(item, first) && (other == first || !before(other, first))
    ensures before(item, other)
  {}

  lemma {:induction false} InsertIsStable<T(!new)>(item: T, sorted: seq<T>, before: (T, T) -> bool, p: T -> bool)
    requires IsOrder(before) && Ordered(sorted, before) && Tie(p, before)
    ensures Filter(Insert(item, sorted, before), p) == Filter(sorted, p) + if p(item) then [item] else []
  {
    if sorted == [] || before(item, sorted[0]) {
      FilterConcat([item], sorted, p);
      FilterOne(item, p);
      if p(item) && sorted != [] {
        forall i | 0 <= i < |sorted|
          ensures !p(sorted[i])
        {
          PrecedesBoth(item, sorted[0], sorted[i], before);
        }
        FilterNone(sorted, p);
      }
    } else {
      var head, tail := sorted[0], sorted[1..];
      InsertIsStable(item, tail, before, p);
      assert sorted == [head] + tail;
      FilterConcat([head], tail, p);
      FilterConcat([head], Insert(item, tail, before), p);
    }
  }

  lemma {:induction false} FilterNone<T>(s: seq<T>, p: T -> bool)
    requires forall i :: 0 <= i < |s| ==> !p(s[i])
    ensures Filter(s, p) == []
  {
    if s != [] {
      FilterNone(s[..|s| - 1], p);
    }
  }

  /** Sorting is stable: items that tie stay in the order they came in. */
  lemma {:induction false} SortIsStable<T(!new)>(items: seq<T>, before: (T, T) -> bool, p: T -> bool)
    requires IsOrder(before) && Tie(p, before)
    ensures Filter(Sort(items, before), p) == Filter(items, p)
  {
    if items != [] {
      hide Insert, Ordered, IsOrder, Tie;
      var front, last := items[..|items| - 1], items[|items| - 1];
      SortIsStable(front, before, p);
      SortOrders(front, before);
      InsertIsStable(last, Sort(front, before), before, p);
    }
  }

  /** Sorting orders the items, keeps every one of them, and leaves ordered items alone. */
  lemma {:induction false} SortOrders<T(!new)>(items: seq<T>, before: (T, T) -> bool)
    requires IsOrder(before)
    ensures Ordered(Sort(items, before), before) && multiset(Sort(items, before)) == multiset(items)
    ensures Ordered(items, before) ==> Sort(items, before) == items
  {
    hide Insert, Ordered, IsOrder;
    if items == [] {
      NothingIsOrdered(before);
    } else {
      var front, last := items[..|items| - 1], items[|items| - 1];
      SortOrders(front, before);
      InsertKeepsOrder(last, Sort(front, before), before);
      InsertKeepsItems(last, Sort(front, before), before);
      assert items == front + [last];
      if Ordered(items, before) {
        OrderedFront(front, last, before);
        InsertAtEnd(last, front, before);
      }
    }
  }

  lemma NothingIsOrdered<T>(before: (T, T) -> bool)
    ensures Ordered([], before)
  {}

  lemma OrderedFront<T>(front: seq<T>, last: T, before: (T, T) -> bool)
    requires Ordered(front + [last], before)
    ensures Ordered(front, before) && forall i :: 0 <= i < |front| ==> !before(last, front[i])
  {
    var s := front + [last];
    assert forall i :: 0 <= i < |front| ==> s[i] == front[i];
    assert s[|front|] == last;
  }

  lemma {:induction false} InsertAtEnd<T>(item: T, s: seq<T>, before: (T, T) -> bool)
    requires forall i :: 0 <= i < |s| ==> !before(item, s[i])
    ensures Insert(item, s, before) == s + [item]
  {
    if s != [] {
      InsertAtEnd(item, s[1..], before);
      assert s == [s[0]] + s[1..];
    }
  }

  // ---- by key ----------------------------------------------------------------------

  function ByKey<T>(key: T -> real): (T, T) -> bool {
    (a, b) => key(a) < key(b)
  }

  function SortBy<T>(items: seq<T>, key: T -> real): seq<T> {
    Sort(items, ByKey(key))
  }

  lemma SortByOrders<T(!new)>(items: seq<T>, key: T -> real)
    ensures var s := SortBy(items, key);
            && multiset(s) == multiset(items)
            && forall i, j :: 0 <= i < j < |s| ==> key(s[i]) <= key(s[j])
    ensures (forall i, j :: 0 <= i < j < |items| ==> key(items[i]) <= key(items[j])) ==> SortBy(items, key) == items
  {
    SortOrders(items, ByKey(key));
  }

  /** Items of one key stay in the order they came in. */
  lemma SortByIsStable<T(!new)>(items: seq<T>, key: T -> real, value: real)
    ensures var same := (x: T) => key(x) == value; Filter(SortBy(items, key), same) == Filter(items, same)
  {
    SortIsStable(items, ByKey(key), (x: T) => key(x) == value);
  }

  // ---- strings -----------------------------------------------------------------------

  /** Python's order on strings: by the first character that differs, a prefix first. */
  predicate Before(a: string, b: string) {
    b != [] && (a == [] || a[0] < b[0] || (a[0] == b[0] && Before(a[1..], b[1..])))
  }

  const ALPHABETICAL := (a: string, b: string) => Before(a, b)

  lemma {:induction false} BeforeIsTotal(a: string, b: string)
    ensures Before(a, b) ==> !Before(b, a)
    ensures a == b || Before(a, b) || Before(b, a)
  {
    if a != [] && b != [] {
      BeforeIsTotal(a[1..], b[1..]);
      if a[0] == b[0] && a[1..] == b[1..] {
        assert a == [a[0]] + a[1..] == b;
      }
    }
  }

  lemma {:induction false} BeforeIsTransitive(a: string, b: string, c: string)
    requires !Before(b, a) && !Before(c, b)
    ensures !Before(c, a)
  {
    if a != [] && b != [] && c != [] && a[0] == b[0] == c[0] {
      BeforeIsTransitive(a[1..], b[1..], c[1..]);
    }
  }

  lemma AlphabeticalIsOrder()
    ensures IsOrder(ALPHABETICAL)
  {
    hide Before;
    forall a, b | Before(a, b)
      ensures !Before(b, a)
    {
      BeforeIsTotal(a, b);
    }
    forall a, b, c | !Before(b, a) && !Before(c, b)
      ensures !Before(c, a)
    {
      BeforeIsTransitive(a, b, c);
    }
  }

  /** The strings in alphabetical order. */
  function Alphabetical(names: seq<string>): seq<string> {
    Sort(names, ALPHABETICAL)
  }

  lemma AlphabeticalOrders(names: seq<string>)
    ensures multiset(Alphabetical(names)) == multiset(names)
    ensures |Alphabetical(names)| == |names| && forall name :: name in Alphabetical(names) <==> name in names
    ensures forall i, j :: 0 <= i < j < |names| ==> !Before(Alphabetical(names)[j], Alphabetical(names)[i])
  {
    AlphabeticalIsOrder();
    SortOrders(names, ALPHABETICAL);
    var s := Alphabetical(names);
    assert |s| == |multiset(s)| == |multiset(names)| == |names|;
    assert forall name :: name in s <==> name in multiset(s);
    assert forall name :: name in names <==> name in multiset(names);
  }

  lemma SameFirst(a: seq<string>, b: seq<string>)
    requires multiset(a) == multiset(b) && a != []
    requires Ordered(a, ALPHABETICAL) && Ordered(b, ALPHABETICAL)
    ensures b != [] && a[0] == b[0]
  {
    hide Before;
    assert a[0] in multiset(b);
    var i :| 0 <= i < |b| && b[i] == a[0];
    assert b[0] in multiset(a);
    var j :| 0 <= j < |a| && a[j] == b[0];
    BeforeIsTotal(a[0], b[0]);
  }

  lemma OrderedTail(s: seq<string>)
    requires s != [] && Ordered(s, ALPHABETICAL)
    ensures Ordered(s[1..], ALPHABETICAL)
    ensures multiset(s[1..]) + multiset{s[0]} == multiset(s)
  {
    hide Before;
    assert s == [s[0]] + s[1..];
  }

  /** Strings of the same multiplicities sort to the same list. */
  lemma {:induction false} OrderIsUnique(a: seq<string>, b: seq<string>)
    requires multiset(a) == multiset(b)
    requires Ordered(a, ALPHABETICAL) && Ordered(b, ALPHABETICAL)
    ensures a == b
  {
    if a == [] {
      assert |multiset(b)| == 0;
    } else {
      SameFirst(a, b);
      OrderedTail(a);
      OrderedTail(b);
      hide Ordered;
      MultisetMinus(multiset(a[1..]), multiset(b[1..]), a[0]);
      OrderIsUnique(a[1..], b[1..]);
      assert a == [a[0]] + a[1..] && b == [b[0]] + b[1..];
    }
  }

  lemma AlphabeticalIgnoresOrder(a: seq<string>, b: seq<string>)
    requires multiset(a) == multiset(b)
    ensures Alphabetical(a) == Alphabetical(b)
  {
    AlphabeticalIsOrder();
    SortOrders(a, ALPHABETICAL);
    SortOrders(b, ALPHABETICAL);
    OrderIsUnique(Alphabetical(a), Alphabetical(b));
  }

  // ---- permutations --------------------------------------------------------------------

  /** Where b holds the last item of its permutation a, and what is left of both. */
  lemma Partner<T>(a: seq<T>, b: seq<T>) returns (i: nat)
    requires a != [] && multiset(a) == multiset(b)
    ensures i < |b| && b[i] == a[|a| - 1] && b == b[..i] + [b[i]] + b[i + 1..]
    ensures multiset(a[..|a| - 1]) == multiset(b[..i] + b[i + 1..])
  {
    var n := |a| - 1;
    assert a == a[..n] + [a[n]];
    assert a[n] in multiset(b);
    i :| 0 <= i < |b| && b[i] == a[n];
    assert b == b[..i] + [b[i]] + b[i + 1..];
    var x := b[i];
    assert multiset(b) == multiset(b[..i] + b[i + 1..]) + multiset{x};
    assert multiset(a) == multiset(a[..n]) + multiset{x};
    MultisetMinus(multiset(a[..n]), multiset(b[..i] + b[i + 1..]), x);
  }

  lemma MultisetMinus<T>(a: multiset<T>, b: multiset<T>, x: T)
    requires a + multiset{x} == b + multiset{x}
    ensures a == b
  {
    assert a == a + multiset{x} - multiset{x};
    assert b == b + multiset{x} - multiset{x};
  }

  lemma FrontOfConcat<T>(a: seq<T>, b: seq<T>)
    ensures a + [] == a
    ensures b != [] ==> (a + b)[..|a + b| - 1] == a + b[..|b| - 1] && (a + b)[|a + b| - 1] == b[|b| - 1]
  {}
}
