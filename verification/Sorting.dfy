/** Sorting by an arbitrary total preorder, and what the element at a given rank says about counts. */
module Sorting {

  ghost predicate Total<T(!new)>(le: (T, T) -> bool) {
    && (forall a, b :: le(a, b) || le(b, a))
    && (forall a, b, c :: le(a, b) && le(b, c) ==> le(a, c))
  }

  ghost predicate Antisymmetric<T(!new)>(le: (T, T) -> bool) {
    forall a, b :: le(a, b) && le(b, a) ==> a == b
  }

  ghost predicate SortedBy<T>(le: (T, T) -> bool, s: seq<T>) {
    forall i, j :: 0 <= i < j < |s| ==> le(s[i], s[j])
  }

  function Insert<T>(le: (T, T) -> bool, x: T, s: seq<T>): (r: seq<T>)
    ensures multiset(r) == multiset{x} + multiset(s)
    ensures |r| == |s| + 1
  {
    if s == [] then [x]
    else if le(x, s[0]) then [x] + s
    else
      assert s == [s[0]] + s[1..];
      [s[0]] + Insert(le, x, s[1..])
  }

  function Sort<T>(le: (T, T) -> bool, s: seq<T>): (r: seq<T>)
    ensures multiset(r) == multiset(s)
    ensures |r| == |s|
  {
    if s == [] then []
    else
      assert s == [s[0]] + s[1..];
      Insert(le, s[0], Sort(le, s[1..]))
  }

  lemma {:induction false} InsertSorted<T(!new)>(le: (T, T) -> bool, x: T, s: seq<T>)
    requires Total(le) && SortedBy(le, s)
    ensures SortedBy(le, Insert(le, x, s))
  {
    if s == [] || le(x, s[0]) {
    } else {
      var tail := Insert(le, x, s[1..]);
      InsertSorted(le, x, s[1..]);
      forall y | y in tail ensures le(s[0], y) {
        assert y in multiset(tail);
        assert y == x || y in multiset(s[1..]);
      }
    }
  }

  lemma {:induction false} SortSorts<T(!new)>(le: (T, T) -> bool, s: seq<T>)
    requires Total(le)
    ensures SortedBy(le, Sort(le, s))
  {
    if s != [] {
      SortSorts(le, s[1..]);
      InsertSorted(le, s[0], Sort(le, s[1..]));
    }
  }

  /** The first elements of two sorted arrangements of a bag come at or before each other. */
  lemma FirstIsLeast<T(!new)>(le: (T, T) -> bool, a: seq<T>, b: seq<T>)
    requires Total(le) && SortedBy(le, a) && a != [] && b != [] && multiset(a) == multiset(b)
    ensures le(a[0], b[0])
  {
    assert b[0] in multiset(a);
  }

  lemma SameTail<T>(a: seq<T>, b: seq<T>)
    requires a != [] && b != [] && a[0] == b[0] && multiset(a) == multiset(b)
    ensures multiset(a[1..]) == multiset(b[1..])
  {
    assert a == [a[0]] + a[1..] && b == [b[0]] + b[1..];
    assert multiset(a[1..]) == multiset(a) - multiset{a[0]};
  }

  /** Under a total order there is one sorted arrangement of a bag. */
  lemma {:induction false} SortedUnique<T(!new)>(le: (T, T) -> bool, a: seq<T>, b: seq<T>)
    requires Total(le) && Antisymmetric(le)
    requires SortedBy(le, a) && SortedBy(le, b) && multiset(a) == multiset(b)
    ensures a == b
  {
    assert |multiset(a)| == |multiset(b)|;
    if a != [] {
      FirstIsLeast(le, a, b);
      FirstIsLeast(le, b, a);
      SameTail(a, b);
      SortedUnique(le, a[1..], b[1..]);
    }
  }

  lemma SortEqualIff<T(!new)>(le: (T, T) -> bool, a: seq<T>, b: seq<T>)
    requires Total(le) && Antisymmetric(le)
    ensures Sort(le, a) == Sort(le, b) <==> multiset(a) == multiset(b)
  {
    SortSorts(le, a);
    SortSorts(le, b);
    if multiset(a) == multiset(b) {
      SortedUnique(le, Sort(le, a), Sort(le, b));
    }
  }

  lemma SortIdempotent<T(!new)>(le: (T, T) -> bool, s: seq<T>)
    requires Total(le) && Antisymmetric(le)
    ensures Sort(le, Sort(le, s)) == Sort(le, s)
  {
    SortEqualIff(le, Sort(le, s), s);
  }

  /** How many elements come at or before `c`. */
  function Count<T>(le: (T, T) -> bool, s: seq<T>, c: T): (n: nat)
    ensures n <= |s|
  {
    if s == [] then 0 else (if le(s[0], c) then 1 else 0) + Count(le, s[1..], c)
  }

  lemma {:induction false} CountInsert<T>(le: (T, T) -> bool, x: T, s: seq<T>, c: T)
    ensures Count(le, Insert(le, x, s), c) == Count(le, s, c) + (if le(x, c) then 1 else 0)
  {
    if s == [] || le(x, s[0]) {
      assert ([x] + s)[1..] == s;
    } else {
      CountInsert(le, x, s[1..], c);
      var r := Insert(le, x, s);
      assert r[1..] == Insert(le, x, s[1..]);
    }
  }

  lemma {:induction false} CountSort<T>(le: (T, T) -> bool, s: seq<T>, c: T)
    ensures Count(le, Sort(le, s), c) == Count(le, s, c)
  {
    if s != [] {
      CountSort(le, s[1..], c);
      CountInsert(le, s[0], Sort(le, s[1..]), c);
    }
  }

  lemma {:induction false} CountNone<T>(le: (T, T) -> bool, s: seq<T>, c: T)
    requires forall i :: 0 <= i < |s| ==> !le(s[i], c)
    ensures Count(le, s, c) == 0
  {
    if s != [] { CountNone(le, s[1..], c); }
  }

  /** The element at rank `r` of a sorted list is at or before `c` exactly when more than `r` elements are. */
  lemma {:induction false} RankIff<T(!new)>(le: (T, T) -> bool, s: seq<T>, r: nat, c: T)
    requires Total(le) && SortedBy(le, s) && r < |s|
    ensures le(s[r], c) <==> r < Count(le, s, c)
  {
    if !le(s[0], c) {
      forall i | 0 <= i < |s| ensures !le(s[i], c) { }
      CountNone(le, s, c);
    } else if r > 0 {
      RankIff(le, s[1..], r - 1, c);
    }
  }
}
