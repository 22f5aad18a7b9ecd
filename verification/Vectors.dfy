/** The unrolled dot products, over the reals, against the plain sum of products. */
module Vectors {

  /** Sum of the first `i` products. */
  function DotTo(a: seq<real>, b: seq<real>, i: nat): real
    requires i <= |a| && i <= |b|
  {
    if i == 0 then 0.0 else DotTo(a, b, i - 1) + a[i - 1] * b[i - 1]
  }

  function Dot(a: seq<real>, b: seq<real>): real
    requires |a| <= |b|
  {
    DotTo(a, b, |a|)
  }

  lemma DotFour(a: seq<real>, b: seq<real>, i: nat)
    requires i + 4 <= |a| && i + 4 <= |b|
    ensures DotTo(a, b, i + 4) == DotTo(a, b, i) + a[i] * b[i] + a[i + 1] * b[i + 1] + a[i + 2] * b[i + 2] + a[i + 3] * b[i + 3]
  {
    assert DotTo(a, b, i + 1) == DotTo(a, b, i) + a[i] * b[i];
    assert DotTo(a, b, i + 2) == DotTo(a, b, i + 1) + a[i + 1] * b[i + 1];
    assert DotTo(a, b, i + 3) == DotTo(a, b, i + 2) + a[i + 2] * b[i + 2];
  }

  /** The fixed-dimension variant: four accumulators and a tail. */
  method DotConst(qv: seq<real>, row: seq<real>, d: nat) returns (r: real)
    requires d <= |qv| && d <= |row|
    ensures r == DotTo(qv, row, d)
  {
    var acc0, acc1, acc2, acc3 := 0.0, 0.0, 0.0, 0.0;
    var i := 0;
    while i + 4 <= d
      invariant i <= d
      invariant acc0 + acc1 + acc2 + acc3 == DotTo(qv, row, i)
    {
      DotFour(qv, row, i);
      var p0, p1, p2, p3 := qv[i] * row[i], qv[i + 1] * row[i + 1], qv[i + 2] * row[i + 2], qv[i + 3] * row[i + 3];
      acc0 := acc0 + p0;
      acc1 := acc1 + p1;
      acc2 := acc2 + p2;
      acc3 := acc3 + p3;
      i := i + 4;
    }
    var tail := 0.0;
    while i < d
      invariant i <= d
      invariant acc0 + acc1 + acc2 + acc3 + tail == DotTo(qv, row, i)
    {
      tail := tail + qv[i] * row[i];
      i := i + 1;
    }
    r := acc0 + acc1 + acc2 + acc3 + tail;
  }

  /** The variant on whole embeddings. */
  method DotValues(a: seq<real>, b: seq<real>) returns (r: real)
    requires |a| <= |b|
    ensures r == Dot(a, b)
  {
    r := DotConst(a, b, |a|);
  }

  method DotChunk(a: seq<real>, b: seq<real>) returns (r: real)
    requires |a| == 4 && |b| == 4
    ensures r == a[0] * b[0] + a[1] * b[1] + a[2] * b[2] + a[3] * b[3]
  {
    r := a[0] * b[0] + a[1] * b[1] + a[2] * b[2] + a[3] * b[3];
  }

  /** The chunks of four that fit. */
  method DotChunks(qv: seq<real>, row: seq<real>) returns (acc: real)
    requires |qv| <= |row|
    ensures acc == DotTo(qv, row, 4 * (|qv| / 4))
  {
    acc := 0.0;
    for c := 0 to |qv| / 4
      invariant acc == DotTo(qv, row, 4 * c)
    {
      var i := 4 * c;
      DotFour(qv, row, i);
      var sum := DotChunk(qv[i..i + 4], row[i..i + 4]);
      acc := acc + sum;
    }
  }

  /** The runtime-dimension variant: whole chunks of four, then the remainder. */
  method DotRuntime(qv: seq<real>, row: seq<real>) returns (r: real)
    requires |qv| <= |row|
    ensures r == Dot(qv, row)
  {
    var acc := DotChunks(qv, row);
    var tail := 0.0;
    var rem := |qv| % 4;
    for i := |qv| - rem to |qv|
      invariant acc + tail == DotTo(qv, row, i)
    {
      tail := tail + qv[i] * row[i];
    }
    r := acc + tail;
  }

  /** The plain accumulation used when hashing a row. */
  method DotSequential(plane: seq<real>, row: seq<real>) returns (dot: real)
    requires |plane| == |row|
    ensures dot == Dot(plane, row)
  {
    dot := 0.0;
    for i := 0 to |plane|
      invariant dot == DotTo(plane, row, i)
    {
      dot := dot + plane[i] * row[i];
    }
  }
}
