/**
 Lists shared by the models: filtering, the stable sort behind Python's `sorted`,
 and the order of strings.
 */
module Sequences {

  datatype Option<+T> = None | Some(value: T)

  lemma ConcatAssociates<T>(xs: seq<T>, ys: seq<T>, zs: seq<T>)
    ensures xs + (ys + zs) == xs + ys + zs
  {
  }

  lemma CutInThree<T>(xs: seq<T>, i: nat, j: nat)
    requires i <= j <= |xs|
    ensures xs == xs[..i] + xs[i..j] + xs[j..]
  {
  }

  lemma HeadAndTail<T>(xs: seq<T>)
    requires xs != []
    ensures xs == [xs[0]] + xs[1..]
  {
  }

  lemma DropTwice<T>(xs: seq<T>, i: nat, j: nat)
    requires i + j <= |xs|
    ensures xs[i..][j..] == xs[i + j..]
  {
  }

  function Filter<T>(p: T -> bool, xs: seq<T>): (r: seq<T>)
    ensures forall x | x in r :: x in xs && p(x)
    ensures forall x | x in xs && p(x) :: x in r
  {
    if xs == [] then []
    else if p(xs[0]) then [xs[0]] + Filter(p, xs[1..])
    else Filter(p, xs[1..])
  }

  lemma {:induction false} FilterAppend<T>(p: T -> bool, xs: seq<T>, ys: seq<T>)
    ensures Filter(p, xs + ys) == Filter(p, xs) + Filter(p, ys)
  {
    if xs == [] {
      assert xs + ys == ys;
    } else {
      assert (xs + ys)[1..] == xs[1..] + ys;
      FilterAppend(p, xs[1..], ys);
    }
  }

  lemma FilterSnoc<T>(p: T -> bool, xs: seq<T>, i: nat)
    requires i < |xs|
    ensures Filter(p, xs[..i + 1]) == if p(xs[i]) then Filter(p, xs[..i]) + [xs[i]] else Filter(p, xs[..i])
  {
    assert xs[..i + 1] == xs[..i] + [xs[i]];
    FilterAppend(p, xs[..i], [xs[i]]);
  }

  lemma FilterPrefix<T>(p: T -> bool, xs: seq<T>, i: nat)
    requires i <= |xs|
    ensures Filter(p, xs) == Filter(p, xs[..i]) + Filter(p, xs[i..])
  {
    assert xs == xs[..i] + xs[i..];
    FilterAppend(p, xs[..i], xs[i..]);
  }

  lemma {:induction false} FilterAll<T>(p: T -> bool, xs: seq<T>)
    requires forall i | 0 <= i < |xs| :: p(xs[i])
    ensures Filter(p, xs) == xs
  {
    if xs != [] {
      FilterAll(p, xs[1..]);
      assert xs == [xs[0]] + xs[1..];
    }
  }

  lemma {:induction false} FilterNone<T>(p: T -> bool, xs: seq<T>)
    requires forall x | x in xs :: !p(x)
    ensures Filter(p, xs) == []
  {
    if xs != [] {
      FilterNone(p, xs[1..]);
    }
  }

  lemma {:induction false} FilterCount<T>(p: T -> bool, xs: seq<T>, x: T)
    ensures multiset(Filter(p, xs))[x] == if p(x) then multiset(xs)[x] else 0
  {
    if xs != [] {
      FilterCount(p, xs[1..], x);
      assert xs == [xs[0]] + xs[1..];
    }
  }

  ghost predicate Distinct<T>(xs: seq<T>) {
    forall i, j :: 0 <= i < j < |xs| ==> xs[i] != xs[j]
  }

  /** `xs` holds the members of `s`, once each. */
  ghost predicate Lists<T(!new)>(xs: seq<T>, s: set<T>) {
    Distinct(xs) && forall x :: x in xs <==> x in s
  }

  lemma ListsSnoc<T(!new)>(xs: seq<T>, s: set<T>, x: T)
    requires Lists(xs, s) && x !in s
    ensures Lists(xs + [x], s + {x})
  {
  }

  lemma DistinctOfMultiset<T>(xs: seq<T>, ys: seq<T>)
    requires multiset(xs) == multiset(ys)
    requires Distinct(xs)
    ensures Distinct(ys)
  {
    forall i, j | 0 <= i < j < |ys|
      ensures ys[i] != ys[j]
    {
      if ys[i] == ys[j] {
        assert ys == ys[..i] + [ys[i]] + ys[i + 1..j] + [ys[j]] + ys[j + 1..];
        assert multiset(ys)[ys[i]] >= 2;
        DistinctCount(xs, ys[i]);
      }
    }
  }

  lemma {:induction false} DistinctCount<T>(xs: seq<T>, x: T)
    requires Distinct(xs)
    ensures multiset(xs)[x] == if x in xs then 1 else 0
  {
    if xs != [] {
      assert xs == [xs[0]] + xs[1..];
      DistinctCount(xs[1..], x);
    }
  }

  // ------------------------------------------------------------ stable sort

  /** `le` orders the elements of `xs`: any two compare, and comparison is transitive. */
  ghost predicate Orders<T>(le: (T, T) -> bool, xs: seq<T>) {
    && (forall a, b | a in xs && b in xs :: le(a, b) || le(b, a))
    && (forall a, b, c | a in xs && b in xs && c in xs :: le(a, b) && le(b, c) ==> le(a, c))
  }

  ghost predicate SortedBy<T>(le: (T, T) -> bool, xs: seq<T>) {
    forall i, j | 0 <= i < j < |xs| :: le(xs[i], xs[j])
  }

  /** Puts `x` in front of the first element it does not come after. */
  function Insert<T>(le: (T, T) -> bool, x: T, ys: seq<T>): (r: seq<T>)
    ensures multiset(r) == multiset(ys) + multiset{x}
    ensures |r| == |ys| + 1
    ensures x in r && forall y | y in ys :: y in r
    ensures forall y | y in r :: y == x || y in ys
  {
    if ys == [] then [x]
    else if le(x, ys[0]) then [x] + ys
    else
      assert ys == [ys[0]] + ys[1..];
      [ys[0]] + Insert(le, x, ys[1..])
  }

  /** Python's `sorted`: a stable sort. */
  function Sort<T>(le: (T, T) -> bool, xs: seq<T>): (r: seq<T>)
    ensures multiset(r) == multiset(xs)
    ensures |r| == |xs|
    ensures forall x | x in xs :: x in r
    ensures forall x | x in r :: x in xs
  {
    if xs == [] then []
    else
      assert xs == [xs[0]] + xs[1..];
      Insert(le, xs[0], Sort(le, xs[1..]))
  }

  lemma {:induction false} InsertSorted<T>(le: (T, T) -> bool, x: T, ys: seq<T>)
    requires Orders(le, [x] + ys)
    requires SortedBy(le, ys)
    ensures SortedBy(le, Insert(le, x, ys))
  {
    assert x in [x] + ys && forall y :: y in ys ==> y in [x] + ys;
    if ys != [] && !le(x, ys[0]) {
      assert forall y :: y in [x] + ys[1..] ==> y in [x] + ys;
      InsertSorted(le, x, ys[1..]);
      var r := Insert(le, x, ys[1..]);
      forall j | 0 <= j < |r|
        ensures le(ys[0], r[j])
      {
        assert r[j] in multiset(r);
        assert r[j] == x || r[j] in ys[1..];
      }
    }
  }

  lemma {:induction false} SortSorted<T>(le: (T, T) -> bool, xs: seq<T>)
    requires Orders(le, xs)
    ensures SortedBy(le, Sort(le, xs))
  {
    if xs != [] {
      assert forall x :: x in xs[1..] ==> x in xs;
      SortSorted(le, xs[1..]);
      forall x | x in [xs[0]] + Sort(le, xs[1..])
        ensures x in xs
      {
        assert x == xs[0] || x in Sort(le, xs[1..]);
        assert x == xs[0] || x in xs[1..];
      }
      InsertSorted(le, xs[0], Sort(le, xs[1..]));
    }
  }

  /** A class of elements that tie with each other keeps its input order. */
  lemma {:induction false} SortStable<T>(le: (T, T) -> bool, p: T -> bool, xs: seq<T>)
    requires forall a, b | a in xs && b in xs && p(a) && p(b) :: le(a, b)
    ensures Filter(p, Sort(le, xs)) == Filter(p, xs)
  {
    if xs != [] {
      assert forall x :: x in xs[1..] ==> x in xs;
      SortStable(le, p, xs[1..]);
      InsertStable(le, p, xs[0], Sort(le, xs[1..]));
    }
  }

  lemma FilterCons<T>(p: T -> bool, x: T, ys: seq<T>)
    ensures Filter(p, [x] + ys) == if p(x) then [x] + Filter(p, ys) else Filter(p, ys)
  {
    var xs := [x] + ys;
    assert xs[0] == x && xs[1..] == ys;
  }

  /** Inserting past an element `y`, when `x` is not kept with it. */
  lemma InsertPast<T>(p: T -> bool, x: T, y: T, rest: seq<T>, inserted: seq<T>)
    requires !(p(x) && p(y))
    requires Filter(p, inserted) == if p(x) then [x] + Filter(p, rest) else Filter(p, rest)
    ensures Filter(p, [y] + inserted) == if p(x) then [x] + Filter(p, [y] + rest) else Filter(p, [y] + rest)
  {
    FilterCons(p, y, inserted);
    FilterCons(p, y, rest);
  }

  lemma {:induction false} InsertStable<T>(le: (T, T) -> bool, p: T -> bool, x: T, ys: seq<T>)
    requires forall y | y in ys && p(x) && p(y) :: le(x, y)
    ensures Filter(p, Insert(le, x, ys)) == if p(x) then [x] + Filter(p, ys) else Filter(p, ys)
  {
    if ys == [] {
      FilterCons(p, x, []);
      assert [x] + [] == [x];
    } else if le(x, ys[0]) {
      FilterCons(p, x, ys);
    } else {
      var y, rest := ys[0], ys[1..];
      assert ys == [y] + rest && y in ys;
      InsertStable(le, p, x, rest);
      InsertPast(p, x, y, rest, Insert(le, x, rest));
    }
  }

  lemma {:induction false} FilterSorted<T>(le: (T, T) -> bool, p: T -> bool, xs: seq<T>)
    requires SortedBy(le, xs) && Distinct(xs)
    ensures SortedBy(le, Filter(p, xs)) && Distinct(Filter(p, xs))
  {
    if xs != [] {
      FilterSorted(le, p, xs[1..]);
      var rest := Filter(p, xs[1..]);
      forall j | 0 <= j < |rest|
        ensures le(xs[0], rest[j]) && xs[0] != rest[j]
      {
        assert rest[j] in xs[1..];
        var i :| 0 <= i < |xs[1..]| && xs[1..][i] == rest[j];
        assert xs[i + 1] == rest[j];
      }
    }
  }

  lemma NoneLeft<T>(xs: seq<T>, ys: seq<T>)
    requires forall x | x in xs :: x in ys
    ensures ys == [] ==> xs == []
  {
    if xs != [] {
      assert xs[0] in ys;
    }
  }

  lemma HeadIsLeast<T>(le: (T, T) -> bool, xs: seq<T>, x: T)
    requires SortedBy(le, xs) && x in xs
    ensures x == xs[0] || le(xs[0], x)
  {
    var i :| 0 <= i < |xs| && xs[i] == x;
  }

  /** Two ordered listings of the same elements are equal when only equal elements tie. */
  lemma {:induction false} SortedUnique<T>(le: (T, T) -> bool, xs: seq<T>, ys: seq<T>)
    requires SortedBy(le, xs) && SortedBy(le, ys) && Distinct(xs) && Distinct(ys)
    requires (forall x | x in xs :: x in ys) && (forall y | y in ys :: y in xs)
    requires forall a, b | a in xs && b in xs && le(a, b) && le(b, a) :: a == b
    ensures xs == ys
  {
    NoneLeft(xs, ys);
    NoneLeft(ys, xs);
    if xs != [] {
      HeadIsLeast(le, xs, ys[0]);
      HeadIsLeast(le, ys, xs[0]);
      forall x | x in xs[1..]
        ensures x in ys[1..]
      {
        assert x in xs && x != xs[0];
      }
      forall y | y in ys[1..]
        ensures y in xs[1..]
      {
        assert y in ys && y != ys[0];
      }
      SortedUnique(le, xs[1..], ys[1..]);
      assert xs == [xs[0]] + xs[1..] && ys == [ys[0]] + ys[1..];
    }
  }

  // ------------------------------------------------------------ strings

  /** Python's `<=` on strings: lexicographic by code point. */
  predicate StringLe(a: string, b: string) {
    a == [] || (b != [] && (a[0] < b[0] || (a[0] == b[0] && StringLe(a[1..], b[1..]))))
  }

  lemma {:induction false} StringLeTotal(a: string, b: string)
    ensures StringLe(a, b) || StringLe(b, a)
    ensures StringLe(a, b) && StringLe(b, a) ==> a == b
  {
    if a != [] && b != [] && a[0] == b[0] {
      StringLeTotal(a[1..], b[1..]);
      assert a == [a[0]] + a[1..] && b == [b[0]] + b[1..];
    }
  }

  lemma {:induction false} StringLeTransitive(a: string, b: string, c: string)
    requires StringLe(a, b) && StringLe(b, c)
    ensures StringLe(a, c)
  {
    if a != [] && a[0] == b[0] == c[0] {
      StringLeTransitive(a[1..], b[1..], c[1..]);
    }
  }

  lemma StringLeOrders(xs: seq<string>)
    ensures Orders(StringLe, xs)
  {
    forall a, b | a in xs && b in xs
      ensures StringLe(a, b) || StringLe(b, a)
    {
      StringLeTotal(a, b);
    }
    forall a, b, c | a in xs && b in xs && c in xs && StringLe(a, b) && StringLe(b, c)
      ensures StringLe(a, c)
    {
      StringLeTransitive(a, b, c);
    }
  }

  /** `r` is `sorted(s)`: the members of `s`, once each, in increasing order. */
  ghost predicate IsSortedList(r: seq<string>, s: set<string>) {
    Lists(r, s) && SortedBy(StringLe, r)
  }

  /** Listing a duplicate-free list of names in order. */
  lemma SortNames(xs: seq<string>, s: set<string>)
    requires Lists(xs, s)
    ensures IsSortedList(Sort(StringLe, xs), s)
  {
    StringLeOrders(xs);
    SortSorted(StringLe, xs);
    DistinctOfMultiset(xs, Sort(StringLe, xs));
  }

  /** `sorted(s)` for a set of names, whatever order the set is walked in. */
  method SortedNames(s: set<string>) returns (r: seq<string>)
    ensures IsSortedList(r, s)
  {
    var todo := s;
    var names: seq<string> := [];
    while todo != {}
      invariant todo <= s && Lists(names, s - todo)
    {
      var x :| x in todo;
      ListsSnoc(names, s - todo, x);
      assert s - (todo - {x}) == s - todo + {x};
      todo := todo - {x};
      names := names + [x];
    }
    assert s - todo == s;
    SortNames(names, s);
    r := Sort(StringLe, names);
  }

  // ------------------------------------------------------------ order of first appearance

  /** Where an element first stands in a list. */
  ghost function FirstAt<T>(xs: seq<T>, x: T): (i: nat)
    ensures i <= |xs| && (i < |xs| ==> xs[i] == x) && (x in xs ==> i < |xs|)
    ensures forall j | 0 <= j < i :: xs[j] != x
  {
    if xs == [] || xs[0] == x then 0
    else
      assert forall j | 0 < j < |xs| :: xs[j] == xs[1..][j - 1];
      1 + FirstAt(xs[1..], x)
  }

  /** The elements of a list stand in the order of their first places in another. */
  ghost predicate InOrder<T>(xs: seq<T>, places: seq<T>) {
    forall i, j | 0 <= i < j < |xs| :: FirstAt(places, xs[i]) < FirstAt(places, xs[j])
  }

  lemma FirstAtFront<T>(front: seq<T>, last: T, x: T)
    ensures x in front ==> FirstAt(front + [last], x) == FirstAt(front, x)
    ensures last !in front ==> FirstAt(front + [last], last) == |front|
  {
    var i, j := FirstAt(front + [last], x), FirstAt(front, x);
    if x in front {
      assert (front + [last])[j] == x && j < |front|;
      assert i <= j;
      assert front[i] == (front + [last])[i];
    }
    var k := FirstAt(front + [last], last);
    assert (front + [last])[|front|] == last;
    assert k < |front| ==> front[k] == (front + [last])[k];
  }

  /** Reading on changes no first place. */
  lemma InOrderMore<T>(xs: seq<T>, places: seq<T>, last: T)
    requires InOrder(xs, places) && forall x | x in xs :: x in places
    ensures InOrder(xs, places + [last])
  {
    forall i, j | 0 <= i < j < |xs|
      ensures FirstAt(places + [last], xs[i]) < FirstAt(places + [last], xs[j])
    {
      assert xs[i] in xs && xs[j] in xs;
      FirstAtFront(places, last, xs[i]);
      FirstAtFront(places, last, xs[j]);
    }
  }

  /** An element met for the first time comes last. */
  lemma InOrderSnoc<T>(xs: seq<T>, places: seq<T>, last: T)
    requires InOrder(xs, places) && last !in places && forall x | x in xs :: x in places
    ensures InOrder(xs + [last], places + [last])
  {
    InOrderMore(xs, places, last);
    FirstAtFront(places, last, last);
    forall i | 0 <= i < |xs|
      ensures FirstAt(places + [last], xs[i]) < |places|
    {
      assert xs[i] in xs;
      FirstAtFront(places, last, xs[i]);
    }
  }

  lemma {:induction false} FilterInOrder<T>(p: T -> bool, xs: seq<T>, places: seq<T>)
    requires InOrder(xs, places)
    ensures InOrder(Filter(p, xs), places)
  {
    if xs != [] {
      var rest := Filter(p, xs[1..]);
      FilterInOrder(p, xs[1..], places);
      forall j | 0 <= j < |rest|
        ensures FirstAt(places, xs[0]) < FirstAt(places, rest[j])
      {
        assert rest[j] in xs[1..];
        var k :| 0 <= k < |xs[1..]| && xs[1..][k] == rest[j];
        assert xs[k + 1] == rest[j];
      }
    }
  }

  lemma InOrderTail<T>(first: seq<T>, rest: seq<T>, places: seq<T>)
    requires InOrder(first + rest, places)
    ensures InOrder(rest, places)
    ensures forall i, j | 0 <= i < |first| && 0 <= j < |rest| :: FirstAt(places, first[i]) < FirstAt(places, rest[j])
  {
    var all := first + rest;
    forall i, j | 0 <= i < j < |rest|
      ensures FirstAt(places, rest[i]) < FirstAt(places, rest[j])
    {
      assert all[|first| + i] == rest[i] && all[|first| + j] == rest[j];
    }
    forall i, j | 0 <= i < |first| && 0 <= j < |rest|
      ensures FirstAt(places, first[i]) < FirstAt(places, rest[j])
    {
      assert all[i] == first[i] && all[|first| + j] == rest[j];
    }
  }

  lemma KeptTail<T>(p: T -> bool, xs: seq<T>, places: seq<T>)
    requires xs != [] && InOrder(Filter(p, xs), places)
    ensures InOrder(Filter(p, xs[1..]), places)
    ensures p(xs[0]) ==> forall x | x in Filter(p, xs[1..]) :: FirstAt(places, xs[0]) < FirstAt(places, x)
  {
    var first := if p(xs[0]) then [xs[0]] else [];
    assert Filter(p, xs) == first + Filter(p, xs[1..]);
    InOrderTail(first, Filter(p, xs[1..]), places);
  }

  /** Two kept elements stand as their filtered list does. */
  lemma {:induction false} OrderOfKept<T>(p: T -> bool, xs: seq<T>, places: seq<T>, i: nat, j: nat)
    requires InOrder(Filter(p, xs), places) && i < j < |xs| && p(xs[i]) && p(xs[j])
    ensures FirstAt(places, xs[i]) < FirstAt(places, xs[j])
  {
    KeptTail(p, xs, places);
    var rest := xs[1..];
    assert xs[j] == rest[j - 1];
    if i == 0 {
      assert rest[j - 1] in rest;
    } else {
      assert xs[i] == rest[i - 1];
      OrderOfKept(p, rest, places, i - 1, j - 1);
    }
  }

  /** `x` stands before `y`. */
  ghost predicate Precedes<T>(xs: seq<T>, x: T, y: T) {
    exists a, b :: 0 <= a < b < |xs| && xs[a] == x && xs[b] == y
  }

  lemma OwnPlaces<T>(xs: seq<T>)
    requires Distinct(xs)
    ensures InOrder(xs, xs)
  {
    forall i | 0 <= i < |xs|
      ensures FirstAt(xs, xs[i]) == i
    {
    }
  }

  /** A stable sort leaves elements that tie in the order they came in. */
  lemma TiesStay<T>(le: (T, T) -> bool, tied: T -> bool, xs: seq<T>, i: nat, j: nat)
    requires Distinct(xs) && forall x, y | x in xs && y in xs && tied(x) && tied(y) :: le(x, y)
    requires i < j < |xs| && tied(Sort(le, xs)[i]) && tied(Sort(le, xs)[j])
    ensures Precedes(xs, Sort(le, xs)[i], Sort(le, xs)[j])
  {
    var r := Sort(le, xs);
    SortStable(le, tied, xs);
    OwnPlaces(xs);
    FilterInOrder(tied, xs, xs);
    OrderOfKept(tied, r, xs, i, j);
    assert r[i] in r && r[j] in r;
    assert xs[FirstAt(xs, r[i])] == r[i] && xs[FirstAt(xs, r[j])] == r[j];
  }
}
