/** A row-major matrix in one flat list: appending a row, and removing one by moving the last row into its place. */
module FlatMatrix {
  import opened Prelude

  /** `rows * dim`, unfolded by rows. */
  function Span(rows: nat, dim: nat): nat { if rows == 0 then 0 else Span(rows - 1, dim) + dim }

  lemma {:induction false} SpanIs(rows: nat, dim: nat)
    ensures Span(rows, dim) == rows * dim
  {
    if rows > 0 {
      SpanIs(rows - 1, dim);
      assert rows * dim == (rows - 1) * dim + dim;
    }
  }

  lemma {:induction false} SpanGrows(i: nat, j: nat, dim: nat)
    requires i <= j
    ensures Span(i, dim) <= Span(j, dim)
    ensures i < j ==> Span(i, dim) + dim <= Span(j, dim)
  {
    if i < j { SpanGrows(i, j - 1, dim); }
  }

  /** Row `i` of the flat list is `rows[i]`, for every row, and nothing else is stored. */
  ghost predicate RowMajor(values: seq<real>, dim: nat, rows: seq<seq<real>>) {
    && |values| == Span(|rows|, dim)
    && forall i :: 0 <= i < |rows| ==> |rows[i]| == dim && RowAt(values, dim, i) == Some(rows[i])
  }

  function RowAt(values: seq<real>, dim: nat, i: nat): Option<seq<real>> {
    SpanGrows(i, i + 1, dim);
    if Span(i + 1, dim) <= |values| then Some(values[Span(i, dim)..Span(i + 1, dim)]) else None
  }

  lemma Inside(rows: seq<seq<real>>, dim: nat, i: nat)
    requires i < |rows|
    ensures Span(i, dim) + dim == Span(i + 1, dim) <= Span(|rows|, dim)
  {
    SpanGrows(i + 1, |rows|, dim);
  }

  lemma HoldsPush(values: seq<real>, dim: nat, rows: seq<seq<real>>, v: seq<real>)
    requires RowMajor(values, dim, rows) && |v| == dim
    ensures RowMajor(values + v, dim, rows + [v])
  {
    forall i | 0 <= i < |rows + [v]| ensures RowAt(values + v, dim, i) == Some((rows + [v])[i]) {
      if i < |rows| {
        Inside(rows, dim, i);
        assert (values + v)[Span(i, dim)..Span(i + 1, dim)] == values[Span(i, dim)..Span(i + 1, dim)];
      } else {
        assert (values + v)[Span(i, dim)..Span(i + 1, dim)] == v;
      }
    }
  }

  function SwapRemove<T>(s: seq<T>, idx: nat): (r: seq<T>)
    requires idx < |s|
    ensures |r| == |s| - 1
    ensures forall i :: 0 <= i < |r| ==> r[i] == if i == idx then s[|s| - 1] else s[i]
  {
    s[idx := s[|s| - 1]][..|s| - 1]
  }

  /** Copy the last `dim` numbers over the ones at `start`. */
  function CopyLast(values: seq<real>, dim: nat, start: nat): (r: seq<real>)
    requires start + dim <= |values|
    ensures |r| == |values|
    ensures r[start..start + dim] == values[|values| - dim..]
    ensures forall i :: 0 <= i < |r| && !(start <= i < start + dim) ==> r[i] == values[i]
  {
    values[..start] + values[|values| - dim..] + values[start + dim..]
  }

  lemma SameSlice(a: seq<real>, b: seq<real>, lo: nat, hi: nat)
    requires lo <= hi <= |a| && hi <= |b| && forall i :: lo <= i < hi ==> a[i] == b[i]
    ensures a[lo..hi] == b[lo..hi]
  {
  }

  lemma KeptRow(values: seq<real>, dim: nat, rows: seq<seq<real>>, idx: nat, i: nat)
    requires RowMajor(values, dim, rows) && idx < |rows| && i < |rows| - 1
    requires Span(idx, dim) + dim <= |values|
    ensures var out := CopyLast(values, dim, Span(idx, dim));
      Span(i + 1, dim) <= |values| - dim
      && out[Span(i, dim)..Span(i + 1, dim)] == if i == idx then rows[|rows| - 1] else rows[i]
  {
    var n := |rows|;
    var out := CopyLast(values, dim, Span(idx, dim));
    SpanGrows(i + 1, n - 1, dim);
    SpanGrows(i, i + 1, dim);
    if i == idx {
      assert RowAt(values, dim, n - 1) == Some(rows[n - 1]);
    } else {
      assert RowAt(values, dim, i) == Some(rows[i]);
      if i < idx { SpanGrows(i, idx, dim); } else { SpanGrows(idx, i, dim); }
      SameSlice(out, values, Span(i, dim), Span(i + 1, dim));
    }
  }

  /** Moving the last row over row `idx` and dropping the tail removes exactly that row. */
  lemma HoldsSwapRemove(values: seq<real>, dim: nat, rows: seq<seq<real>>, idx: nat)
    requires RowMajor(values, dim, rows) && idx < |rows|
    ensures Span(idx, dim) + dim <= |values|
    ensures RowMajor(CopyLast(values, dim, Span(idx, dim))[..|values| - dim], dim, SwapRemove(rows, idx))
  {
    Inside(rows, dim, idx);
    var out := CopyLast(values, dim, Span(idx, dim));
    var kept := out[..|values| - dim];
    forall i | 0 <= i < |rows| - 1 ensures RowAt(kept, dim, i) == Some(SwapRemove(rows, idx)[i]) {
      KeptRow(values, dim, rows, idx, i);
      SpanGrows(i, i + 1, dim);
      SameSlice(kept, out, Span(i, dim), Span(i + 1, dim));
    }
  }
}
