/** Failure-carrying values and small sequence facts shared by every component. */
module Prelude {

  type U8 = n: nat | n < 256

  type U32 = n: nat | n <= 0xFFFF_FFFF

  type Bytes = seq<U8>

  datatype Option<+T> = None | Some(value: T)

  datatype Result<+T, +E> = Ok(value: T) | Err(error: E) {
    predicate IsFailure() { Err? }

    function PropagateFailure<U>(): Result<U, E>
      requires Err?
    {
      Err(error)
    }

    function Extract(): T
      requires Ok?
    {
      value
    }
  }

  ghost predicate NoDup<T>(xs: seq<T>) {
    forall i, j :: 0 <= i < j < |xs| ==> xs[i] != xs[j]
  }

  function Min(a: int, b: int): int { if a <= b then a else b }

  function Max(a: int, b: int): int { if a <= b then b else a }

  /** Unsigned saturating subtraction. */
  function Monus(a: nat, b: nat): nat { if a <= b then 0 else a - b }

  /** Decimal digits of `n`, most significant first. */
  function Decimal(n: nat): string {
    (if n < 10 then "" else Decimal(n / 10)) + [(n % 10 + 48) as char]
  }

  /** The value of a hexadecimal digit in ASCII. */
  function HexDigit(b: U8): (r: Option<nat>)
    ensures r.Some? ==> r.value < 16
  {
    if 48 <= b <= 57 then Some(b - 48)
    else if 65 <= b <= 70 then Some(b - 55)
    else if 97 <= b <= 102 then Some(b - 87)
    else None
  }

  /** Elements of `xs` that satisfy `p`, in order. Peels from the right, so that it follows a left-to-right loop. */
  function Filter<T>(xs: seq<T>, p: T -> bool): seq<T> {
    if xs == [] then []
    else
      var n := |xs| - 1;
      Filter(xs[..n], p) + (if p(xs[n]) then [xs[n]] else [])
  }

  lemma FilterStep<T>(xs: seq<T>, p: T -> bool, i: nat)
    requires i < |xs|
    ensures Filter(xs[..i + 1], p) == Filter(xs[..i], p) + (if p(xs[i]) then [xs[i]] else [])
  {
    assert xs[..i + 1][..i] == xs[..i];
  }

  lemma {:induction false} FilterIn<T>(xs: seq<T>, p: T -> bool)
    ensures forall x :: x in Filter(xs, p) <==> x in xs && p(x)
  {
    if xs != [] {
      var n := |xs| - 1;
      FilterIn(xs[..n], p);
      assert xs == xs[..n] + [xs[n]];
    }
  }

  /** The first element that satisfies `p` is the first of the filtered list. */
  lemma {:induction false} FilterFirst<T>(xs: seq<T>, p: T -> bool, i: nat)
    requires i < |xs| && p(xs[i]) && Filter(xs[..i], p) == []
    ensures Filter(xs, p) != [] && Filter(xs, p)[0] == xs[i]
  {
    var n := |xs| - 1;
    if i < n {
      assert xs[..n][..i] == xs[..i];
      FilterFirst(xs[..n], p, i);
    }
  }

  lemma {:induction false} FilterNoDup<T>(xs: seq<T>, p: T -> bool)
    requires NoDup(xs)
    ensures NoDup(Filter(xs, p))
  {
    if xs != [] {
      var n := |xs| - 1;
      FilterNoDup(xs[..n], p);
      FilterIn(xs[..n], p);
    }
  }

  lemma SameSize<T>(a: seq<T>, b: seq<T>)
    requires multiset(a) == multiset(b)
    ensures |a| == |b|
  {
    assert |multiset(a)| == |multiset(b)|;
  }

  /** A duplicate-free list has as many elements as its set. */
  lemma {:induction false} NoDupCard<T>(xs: seq<T>)
    requires NoDup(xs)
    ensures |set x | x in xs| == |xs|
  {
    if xs != [] {
      var n := |xs| - 1;
      NoDupCard(xs[..n]);
      assert (set x | x in xs) == (set x | x in xs[..n]) + {xs[n]};
      assert xs[n] !in xs[..n];
    }
  }

  lemma {:induction false} CountedOnce<T>(s: seq<T>, x: T)
    requires NoDup(s)
    ensures multiset(s)[x] <= 1
  {
    if s != [] {
      var n := |s| - 1;
      CountedOnce(s[..n], x);
      assert s == s[..n] + [s[n]];
      assert s[n] !in s[..n];
    }
  }

  lemma CountedTwice<T>(s: seq<T>, i: nat, j: nat)
    requires i < j < |s| && s[i] == s[j]
    ensures multiset(s)[s[i]] >= 2
  {
    assert s == s[..i] + [s[i]] + s[i + 1..j] + [s[j]] + s[j + 1..];
  }

  lemma SubsetCard<T>(a: set<T>, b: set<T>)
    requires a <= b
    ensures |a| <= |b|
  {
    assert b == a + (b - a);
  }

  /** Fronts of one length are equal, and so is what follows. */
  lemma SplitEqual(a: Bytes, s: Bytes, b: Bytes, t: Bytes)
    requires a + s == b + t && |a| == |b|
    ensures a == b && s == t
  {
    assert (a + s)[..|a|] == a && (b + t)[..|a|] == b;
    assert (a + s)[|a|..] == s && (b + t)[|a|..] == t;
  }

  // ---------- Results of parsers: a value and the bytes left over ----------

  /** `r`, and on success the bytes left over, are what the grammar says. */
  ghost predicate Follows<T(!new), E(!new)>(p: Result<(T, Bytes), E>, r: Result<T, E>, rest: Bytes) {
    match p
    case Ok(pair) => r == Ok(pair.0) && rest == pair.1
    case Err(e) => r == Err(e)
  }

  /** What has been read of a list, put in front of what is still to be read. */
  function Prepend<T, E>(done: seq<T>, p: Result<(seq<T>, Bytes), E>): Result<(seq<T>, Bytes), E> {
    match p
    case Ok(pair) => Ok((done + pair.0, pair.1))
    case Err(e) => Err(e)
  }

  lemma PrependNothing<T, E>(p: Result<(seq<T>, Bytes), E>)
    ensures Prepend([], p) == p
  {
    if p.Ok? { assert [] + p.value.0 == p.value.0; }
  }

  lemma PrependStep<T, E>(done: seq<T>, x: T, p: Result<(seq<T>, Bytes), E>)
    ensures Prepend(done, Prepend([x], p)) == Prepend(done + [x], p)
  {
    if p.Ok? { assert done + ([x] + p.value.0) == (done + [x]) + p.value.0; }
  }
}
