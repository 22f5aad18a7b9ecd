/** The bucket table: each bucket lists, in order, the rows that hash to its key. */
module Buckets {
  import opened Prelude
  import opened ProbeKeys

  type Row = seq<real>

  type Table = map<Key, seq<nat>>

  function BucketOf(t: Table, k: Key): seq<nat> { if k in t then t[k] else [] }

  /** Indices below `n` of the rows that hash to `k`. */
  function RowsIn(h: Row -> Key, rows: seq<Row>, k: Key, n: nat): seq<nat>
    requires n <= |rows|
  {
    if n == 0 then []
    else RowsIn(h, rows, k, n - 1) + (if h(rows[n - 1]) == k then [n - 1] else [])
  }

  ghost predicate Bucketed(t: Table, h: Row -> Key, rows: seq<Row>, n: nat) {
    n <= |rows| && forall k :: BucketOf(t, k) == RowsIn(h, rows, k, n)
  }

  function Put(t: Table, k: Key, i: nat): Table { t[k := BucketOf(t, k) + [i]] }

  lemma BucketedNothing(h: Row -> Key, rows: seq<Row>)
    ensures Bucketed(map[], h, rows, 0)
  {
  }

  lemma BucketedPut(t: Table, h: Row -> Key, rows: seq<Row>, n: nat, key: Key)
    requires Bucketed(t, h, rows, n) && n < |rows| && h(rows[n]) == key
    ensures Bucketed(Put(t, key, n), h, rows, n + 1)
  {
    forall k ensures BucketOf(Put(t, key, n), k) == RowsIn(h, rows, k, n + 1) {
      assert BucketOf(t, k) == RowsIn(h, rows, k, n);
      if k != key { assert RowsIn(h, rows, k, n) + [] == RowsIn(h, rows, k, n); }
    }
  }

  /** A new last row goes to the end of its bucket. */
  lemma BucketedPush(t: Table, h: Row -> Key, rows: seq<Row>, v: Row)
    requires Bucketed(t, h, rows, |rows|)
    ensures Bucketed(Put(t, h(v), |rows|), h, rows + [v], |rows| + 1)
  {
    BucketedPrefix(t, h, rows, [v], |rows|);
    BucketedPut(t, h, rows + [v], |rows|, h(v));
  }

  lemma {:induction false} RowsInPrefix(h: Row -> Key, rows: seq<Row>, more: seq<Row>, k: Key, n: nat)
    requires n <= |rows|
    ensures RowsIn(h, rows + more, k, n) == RowsIn(h, rows, k, n)
  {
    if n > 0 { RowsInPrefix(h, rows, more, k, n - 1); }
  }

  lemma BucketedPrefix(t: Table, h: Row -> Key, rows: seq<Row>, more: seq<Row>, n: nat)
    requires Bucketed(t, h, rows, n)
    ensures Bucketed(t, h, rows + more, n)
  {
    forall k ensures BucketOf(t, k) == RowsIn(h, rows + more, k, n) {
      assert BucketOf(t, k) == RowsIn(h, rows, k, n);
      RowsInPrefix(h, rows, more, k, n);
    }
  }

  lemma {:induction false} RowsInIff(h: Row -> Key, rows: seq<Row>, k: Key, n: nat, i: nat)
    requires n <= |rows|
    ensures i in RowsIn(h, rows, k, n) <==> i < n && h(rows[i]) == k
  {
    if n > 0 { RowsInIff(h, rows, k, n - 1, i); }
  }

  lemma {:induction false} RowsInNoDup(h: Row -> Key, rows: seq<Row>, k: Key, n: nat)
    requires n <= |rows|
    ensures NoDup(RowsIn(h, rows, k, n))
  {
    if n > 0 {
      RowsInNoDup(h, rows, k, n - 1);
      RowsInIff(h, rows, k, n - 1, n - 1);
    }
  }

  /** Each row index sits once in the bucket of its own hash and in no other bucket, and no bucket holds anything else. */
  lemma EachRowOnce(t: Table, h: Row -> Key, rows: seq<Row>, k: Key, i: nat)
    requires Bucketed(t, h, rows, |rows|)
    ensures i in BucketOf(t, k) <==> i < |rows| && h(rows[i]) == k
    ensures NoDup(BucketOf(t, k))
  {
    assert BucketOf(t, k) == RowsIn(h, rows, k, |rows|);
    RowsInIff(h, rows, k, |rows|, i);
    RowsInNoDup(h, rows, k, |rows|);
  }
}
