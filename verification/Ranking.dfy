/** Score lists: the best `k` of a pool, and how a pool's best compare with those of a larger one. */
module Ranking {
  import opened Prelude
  import opened Sorting

  predicate AtLeast(a: real, b: real) { a >= b }

  lemma AtLeastOrder()
    ensures Total(AtLeast) && Antisymmetric(AtLeast)
  {
  }

  function ScoresOf<T>(score: T -> real, xs: seq<T>): (r: seq<real>)
    ensures |r| == |xs| && forall i :: 0 <= i < |xs| ==> r[i] == score(xs[i])
  {
    seq(|xs|, i requires 0 <= i < |xs| => score(xs[i]))
  }

  function Ranked<T>(score: T -> real, xs: seq<T>): (r: seq<real>)
    ensures |r| == |xs|
  {
    Sort<real>(AtLeast, ScoresOf(score, xs))
  }

  /** The best `k` scores, best first (all of them if there are fewer). */
  function TopScores<T>(score: T -> real, xs: seq<T>, k: nat): (r: seq<real>)
    ensures |r| == Min(k, |xs|)
  {
    Ranked(score, xs)[..Min(k, |xs|)]
  }

  /** The elements that score at least `c`. */
  function Above<T>(score: T -> real, xs: seq<T>, c: real): set<T> { set x | x in xs && score(x) >= c }

  lemma {:induction false} CountIsCard<T>(score: T -> real, xs: seq<T>, c: real)
    requires NoDup(xs)
    ensures Count<real>(AtLeast, ScoresOf(score, xs), c) == |Above(score, xs, c)|
  {
    if xs != [] {
      var rest := xs[1..];
      CountIsCard(score, rest, c);
      assert ScoresOf(score, xs)[1..] == ScoresOf(score, rest);
      assert xs == [xs[0]] + rest;
      assert xs[0] !in rest;
      assert Above(score, xs, c) == Above(score, rest, c) + (if score(xs[0]) >= c then {xs[0]} else {});
    }
  }

  /** The score at rank `r` reaches `c` exactly when more than `r` elements do. */
  lemma RankByCount<T>(score: T -> real, xs: seq<T>, r: nat, c: real)
    requires NoDup(xs) && r < |xs|
    ensures Ranked(score, xs)[r] >= c <==> r < |Above(score, xs, c)|
  {
    AtLeastOrder();
    SortSorts<real>(AtLeast, ScoresOf(score, xs));
    CountSort<real>(AtLeast, ScoresOf(score, xs), c);
    RankIff<real>(AtLeast, Ranked(score, xs), r, c);
    CountIsCard(score, xs, c);
  }

  lemma RanksDescend<T>(score: T -> real, xs: seq<T>, i: nat, j: nat)
    requires i <= j < |xs|
    ensures Ranked(score, xs)[i] >= Ranked(score, xs)[j]
  {
    AtLeastOrder();
    SortSorts<real>(AtLeast, ScoresOf(score, xs));
  }

  ghost predicate Within<T>(pool: seq<T>, all: seq<T>) { forall x :: x in pool ==> x in all }

  lemma PoolIsSmaller<T>(pool: seq<T>, all: seq<T>)
    requires NoDup(pool) && NoDup(all) && Within(pool, all)
    ensures |pool| <= |all|
  {
    NoDupCard(pool);
    NoDupCard(all);
    SubsetCard(set x | x in pool, set x | x in all);
  }

  /** Rank by rank, a pool never beats what it was drawn from. */
  lemma PoolNeverBeats<T>(score: T -> real, all: seq<T>, pool: seq<T>, r: nat)
    requires NoDup(pool) && NoDup(all) && Within(pool, all) && r < |pool|
    ensures r < |all| && Ranked(score, pool)[r] <= Ranked(score, all)[r]
  {
    PoolIsSmaller(pool, all);
    var c := Ranked(score, pool)[r];
    RankByCount(score, pool, r, c);
    RankByCount(score, all, r, c);
    SubsetCard(Above(score, pool, c), Above(score, all, c));
  }

  /** The order of listing does not matter. */
  lemma RankedSameSet<T>(score: T -> real, xs: seq<T>, ys: seq<T>)
    requires NoDup(xs) && NoDup(ys) && Within(xs, ys) && Within(ys, xs)
    ensures Ranked(score, xs) == Ranked(score, ys)
  {
    PoolIsSmaller(xs, ys);
    PoolIsSmaller(ys, xs);
    forall r | 0 <= r < |xs| ensures Ranked(score, xs)[r] == Ranked(score, ys)[r] {
      PoolNeverBeats(score, xs, ys, r);
      PoolNeverBeats(score, ys, xs, r);
    }
  }

  /** If some best-`k` choice lies in the pool, the pool's best `k` scores are the true ones. */
  lemma PoolHoldsTopSet<T>(score: T -> real, all: seq<T>, pool: seq<T>, best: seq<T>, k: nat)
    requires NoDup(all) && NoDup(pool) && NoDup(best) && Within(pool, all) && Within(best, pool)
    requires Ranked(score, best) == TopScores(score, all, k)
    ensures TopScores(score, pool, k) == TopScores(score, all, k)
  {
    PoolIsSmaller(best, pool);
    PoolIsSmaller(pool, all);
    assert |best| == Min(k, |all|);
    forall r | 0 <= r < |best| ensures Ranked(score, pool)[r] == Ranked(score, all)[r] {
      PoolNeverBeats(score, pool, best, r);
      PoolNeverBeats(score, all, pool, r);
      assert Ranked(score, best)[r] == TopScores(score, all, k)[r];
    }
  }

  /** The pool holds everything above the last of the true top scores, and enough at that score. */
  ghost predicate Covers<T>(score: T -> real, all: seq<T>, pool: seq<T>, take: nat)
    requires 1 <= take <= |all|
  {
    var c := Ranked(score, all)[take - 1];
    && (forall x :: x in all && score(x) > c ==> x in pool)
    && |Above(score, pool, c)| >= take
  }

  /** `pool` is a duplicate-free choice of at least `take` elements of `all`. */
  ghost predicate Draw<T>(all: seq<T>, pool: seq<T>, take: nat) {
    NoDup(all) && NoDup(pool) && Within(pool, all) && 1 <= take <= |pool| <= |all|
  }

  lemma CoveredCount<T>(score: T -> real, all: seq<T>, pool: seq<T>, take: nat, e: real)
    requires Draw(all, pool, take) && Covers(score, all, pool, take) && e >= Ranked(score, all)[take - 1]
    ensures |Above(score, pool, e)| >= Min(take, |Above(score, all, e)|)
  {
    if e > Ranked(score, all)[take - 1] {
      SubsetCard(Above(score, all, e), Above(score, pool, e));
    }
  }

  lemma CoveredRank<T>(score: T -> real, all: seq<T>, pool: seq<T>, take: nat, r: nat)
    requires Draw(all, pool, take) && Covers(score, all, pool, take) && r < take
    ensures Ranked(score, pool)[r] == Ranked(score, all)[r]
  {
    var e := Ranked(score, all)[r];
    RanksDescend(score, all, r, take - 1);
    RankByCount(score, all, r, e);
    CoveredCount(score, all, pool, take, e);
    RankByCount(score, pool, r, e);
    PoolNeverBeats(score, all, pool, r);
  }

  lemma MissingBeatsRank<T>(score: T -> real, all: seq<T>, pool: seq<T>, take: nat, x: T)
    requires Draw(all, pool, take)
    requires x in all && x !in pool && score(x) > Ranked(score, all)[take - 1]
    ensures exists r: nat :: r < take && Ranked(score, pool)[r] < Ranked(score, all)[r]
  {
    var e := score(x);
    RankByCount(score, all, take - 1, e);
    var m := |Above(score, all, e)|;
    assert x in Above(score, all, e) && x !in Above(score, pool, e);
    SubsetCard(Above(score, pool, e), Above(score, all, e) - {x});
    RankByCount(score, all, m - 1, e);
    RankByCount(score, pool, m - 1, e);
  }

  lemma MatchMeansCovers<T>(score: T -> real, all: seq<T>, pool: seq<T>, take: nat)
    requires Draw(all, pool, take)
    requires forall r :: 0 <= r < take ==> Ranked(score, pool)[r] == Ranked(score, all)[r]
    ensures Covers(score, all, pool, take)
  {
    var c := Ranked(score, all)[take - 1];
    RankByCount(score, pool, take - 1, c);
    forall x | x in all && score(x) > c ensures x in pool {
      if x !in pool { MissingBeatsRank(score, all, pool, take, x); }
    }
  }

  lemma SameHead<T>(a: seq<T>, b: seq<T>, n: nat)
    requires n <= |a| && n <= |b|
    ensures a[..n] == b[..n] <==> forall r :: 0 <= r < n ==> a[r] == b[r]
  {
    if a[..n] == b[..n] {
      forall r | 0 <= r < n ensures a[r] == b[r] { assert a[..n][r] == b[..n][r]; }
    }
  }

  /** The best `take` of the pool score like the best `take` of everything exactly when the pool covers them. */
  lemma PoolMatchesIff<T>(score: T -> real, all: seq<T>, pool: seq<T>, take: nat)
    requires Draw(all, pool, take)
    ensures Ranked(score, pool)[..take] == Ranked(score, all)[..take] <==> Covers(score, all, pool, take)
  {
    SameHead(Ranked(score, pool), Ranked(score, all), take);
    if Ranked(score, pool)[..take] == Ranked(score, all)[..take] { MatchMeansCovers(score, all, pool, take); }
    if Covers(score, all, pool, take) {
      forall r | 0 <= r < take ensures Ranked(score, pool)[r] == Ranked(score, all)[r] {
        CoveredRank(score, all, pool, take, r);
      }
    }
  }

  // ---------- Selecting the best ----------

  datatype Scored<T> = Scored(score: real, item: T)

  predicate Before<T>(a: Scored<T>, b: Scored<T>) { a.score >= b.score }

  function Points<T>(s: seq<Scored<T>>): (r: seq<real>)
    ensures |r| == |s| && forall i :: 0 <= i < |s| ==> r[i] == s[i].score
  {
    seq(|s|, i requires 0 <= i < |s| => s[i].score)
  }

  function Without<T>(b: seq<T>, j: nat): (r: seq<T>)
    requires j < |b|
    ensures multiset(b) == multiset(r) + multiset{b[j]}
  {
    assert b == b[..j] + [b[j]] + b[j + 1..];
    b[..j] + b[j + 1..]
  }

  lemma PointsDrop<T>(b: seq<Scored<T>>, j: nat)
    requires j < |b|
    ensures Points(Without(b, j)) == Without(Points(b), j)
  {
  }

  lemma SwapBack<T>(a: seq<Scored<T>>, b: seq<Scored<T>>, j: nat)
    requires a != [] && j < |b| && a[0] == b[j]
    requires multiset(Points(Without(a, 0))) == multiset(Points(Without(b, j)))
    ensures multiset(Points(a)) == multiset(Points(b))
  {
    PointsDrop(a, 0);
    PointsDrop(b, j);
    assert Points(a)[0] == Points(b)[j];
  }

  lemma Find<T>(x: T, b: seq<T>) returns (j: nat)
    requires x in multiset(b)
    ensures j < |b| && b[j] == x
  {
    assert x in b;
    j :| 0 <= j < |b| && b[j] == x;
  }

  lemma {:induction false} PointsPermute<T>(a: seq<Scored<T>>, b: seq<Scored<T>>)
    requires multiset(a) == multiset(b)
    ensures multiset(Points(a)) == multiset(Points(b))
    decreases |a|
  {
    SameSize(a, b);
    if a == [] {
      assert b == a;
    } else {
      assert a[0] in multiset(a);
      var j := Find(a[0], b);
      assert multiset(Without(a, 0)) == multiset(a) - multiset{a[0]};
      assert multiset(Without(b, j)) == multiset(b) - multiset{b[j]};
      PointsPermute(Without(a, 0), Without(b, j));
      SwapBack(a, b, j);
    }
  }

  /** Standard partial selection: position `n` as if sorted, nothing before it scores less, nothing after more. */
  method SelectNthUnstable<T(!new)>(s: seq<Scored<T>>, n: nat) returns (r: seq<Scored<T>>)
    requires n < |s|
    ensures multiset(r) == multiset(s) && |r| == |s|
    ensures forall i, j :: 0 <= i <= n <= j < |r| ==> r[i].score >= r[j].score
  {
    r := Sort<Scored<T>>(Before, s);
    SortSorts<Scored<T>>(Before, s);
  }

  method SortUnstable<T(!new)>(s: seq<Scored<T>>) returns (r: seq<Scored<T>>)
    ensures multiset(r) == multiset(s) && |r| == |s|
    ensures SortedBy(Before, r)
  {
    r := Sort<Scored<T>>(Before, s);
    SortSorts<Scored<T>>(Before, s);
  }

  lemma JoinSorted<T(!new)>(top: seq<Scored<T>>, rest: seq<Scored<T>>)
    requires SortedBy(Before, top) && SortedBy(Before, rest)
    requires forall x, y :: x in top && y in rest ==> x.score >= y.score
    ensures SortedBy<real>(AtLeast, Points(top + rest))
  {
  }

  /** A best-first list that nothing left out beats is the head of the full ranking. */
  lemma TopIsHead<T(!new)>(s: seq<Scored<T>>, top: seq<Scored<T>>, rest: seq<Scored<T>>)
    requires multiset(s) == multiset(top) + multiset(rest) && SortedBy(Before, top)
    requires forall x, y :: x in top && y in rest ==> x.score >= y.score
    ensures |top| <= |s| && Points(top) == Sort<real>(AtLeast, Points(s))[..|top|]
  {
    var tail := Sort<Scored<T>>(Before, rest);
    SortSorts<Scored<T>>(Before, rest);
    forall x, y | x in top && y in tail ensures x.score >= y.score {
      assert y in multiset(tail);
    }
    JoinSorted(top, tail);
    FullRanking(s, top + tail);
    PointsHead(top, tail);
  }

  lemma PointsHead<T>(top: seq<Scored<T>>, tail: seq<Scored<T>>)
    ensures Points(top + tail)[..|top|] == Points(top)
  {
  }

  lemma FullRanking<T(!new)>(s: seq<Scored<T>>, full: seq<Scored<T>>)
    requires multiset(full) == multiset(s) && SortedBy<real>(AtLeast, Points(full))
    ensures |full| == |s| && Points(full) == Sort<real>(AtLeast, Points(s))
  {
    AtLeastOrder();
    PointsPermute(full, s);
    assert |multiset(full)| == |multiset(s)|;
    SortSorts<real>(AtLeast, Points(s));
    SortedUnique<real>(AtLeast, Points(full), Sort<real>(AtLeast, Points(s)));
  }

  /** The best `take`, best first; which of several equal scores come in is left open. */
  method TakeBest<T(!new)>(s: seq<Scored<T>>, take: nat) returns (top: seq<Scored<T>>)
    requires 1 <= take <= |s|
    ensures |top| == take && multiset(top) <= multiset(s)
    ensures Points(top) == Sort<real>(AtLeast, Points(s))[..take]
  {
    var parted := SelectNthUnstable(s, take - 1);
    top := SortUnstable(parted[..take]);
    ghost var rest := parted[take..];
    assert parted == parted[..take] + rest;
    forall x, y | x in top && y in rest ensures x.score >= y.score {
      assert x in multiset(top);
      assert x in parted[..take];
    }
    TopIsHead(s, top, rest);
  }
}
