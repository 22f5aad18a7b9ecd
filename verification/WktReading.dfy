/** The WKT parser accepts exactly the grammar's texts, and gives the shape they describe. */
module WktReading {
  import opened Prelude
  import opened Geometry
  import opened Wkt
  import opened WktGrammar

  // ---------- Rings ----------

  lemma PairIsNumbers(nf: Numbers, s: Bytes, p: Position, rest: Bytes)
    ensures NumbersAt(nf, s, [p.0, p.1], rest) <==> ParsePair(nf, s) == Ok((p, rest))
  {
    var xs := [p.0, p.1];
    assert xs[1..] == [p.1] && xs[1..][1..] == [];
    var q := ParseNumber(nf, s);
    if q.Ok? {
      assert NumbersAt(nf, q.value.1, [p.1], rest) <==> NumAt(nf, q.value.1, p.1, rest) by {
        assert [p.1][1..] == [];
      }
    }
  }

  lemma GapStops(w: Bytes, b: U8, rest: Bytes)
    requires Gap(w) && (b == 44 || b == 41)
    ensures Stops(w + ([b] + rest))
  {
  }

  lemma PairReads(nf: Numbers, t: Bytes, p: Position, rest: Bytes)
    requires PairText(nf, t, p) && Stops(rest)
    ensures PairAt(nf, t + rest, p, rest)
  {
    NumbersRead(nf, t, [p.0, p.1], rest);
    PairIsNumbers(nf, t + rest, p, rest);
  }

  lemma PairTaken(nf: Numbers, s: Bytes, p: Position, rest: Bytes) returns (n: nat)
    requires PairAt(nf, s, p, rest) && Stops(rest)
    ensures n <= |s| && s[n..] == rest && PairText(nf, s[..n], p)
  {
    assert IsPair(ParsePair(nf, s), nf, s);
    PairIsNumbers(nf, s, p, rest);
    n := NumbersTaken(nf, s, [p.0, p.1], rest);
  }

  lemma RingFrom(nf: Numbers, s: Bytes, ring: seq<Position>, w: Bytes, b: U8, more: Bytes, rest: Bytes)
    requires ring != [] && Gap(w) && PairAt(nf, s, ring[0], w + ([b] + more))
    requires if |ring| == 1 then b == 41 && more == rest else b == 44 && RingAt(nf, more, ring[1..], rest)
    ensures RingAt(nf, s, ring, rest)
  {
    assert IsPair(ParsePair(nf, s), nf, s);
    GapThen(w, b, more);
    if |ring| == 1 {
      assert [ring[0]] == ring;
    } else {
      assert IsRing(ParseRing(nf, more), nf, more);
      assert [ring[0]] + ring[1..] == ring;
    }
  }

  lemma FirstPosition(nf: Numbers, t: Bytes, ring: seq<Position>) returns (i: nat, j: nat)
    requires ring != [] && PositionsText(nf, t, ring)
    ensures i <= j < |t| && PairText(nf, t[..i], ring[0]) && Gap(t[i..j]) && RingEnd(nf, t[j..], ring)
  {
    i, j :| 0 <= i <= j < |t| && RingSplit(nf, t, ring, i, j);
  }

  lemma RingEnding(nf: Numbers, t: Bytes, j: nat, ring: seq<Position>, rest: Bytes)
    requires j < |t| && ring != [] && RingEnd(nf, t[j..], ring)
    ensures if |ring| == 1 then t[j] == 41 && t[j + 1..] + rest == rest
            else t[j] == 44 && PositionsText(nf, t[j + 1..], ring[1..])
  {
    assert t[j] == t[j..][0] && t[j..][1..] == t[j + 1..];
  }

  lemma SplitAt(t: Bytes, i: nat, j: nat, rest: Bytes)
    requires i <= j < |t|
    ensures t + rest == t[..i] + (t[i..j] + ([t[j]] + (t[j + 1..] + rest)))
  {
  }

  lemma {:induction false} RingReads(nf: Numbers, t: Bytes, ring: seq<Position>, rest: Bytes)
    requires ring != [] && PositionsText(nf, t, ring)
    ensures RingAt(nf, t + rest, ring, rest)
    decreases |ring|
  {
    var i, j := FirstPosition(nf, t, ring);
    var w, more := t[i..j], t[j + 1..] + rest;
    SplitAt(t, i, j, rest);
    RingEnding(nf, t, j, ring, rest);
    GapStops(w, t[j], more);
    PairReads(nf, t[..i], ring[0], w + ([t[j]] + more));
    if |ring| > 1 { RingReads(nf, t[j + 1..], ring[1..], rest); }
    RingFrom(nf, t[..i] + (w + ([t[j]] + more)), ring, w, t[j], more, rest);
  }

  /** White space from `i`, a byte, and what is after it. */
  lemma ByteAfter(s: Bytes, i: nat, b: U8) returns (j: nat)
    requires i <= |s| && StartsWith(SkipSpace(s[i..], true), b)
    ensures i <= j < |s| && Gap(s[i..j]) && s[j] == b && s[j + 1..] == SkipSpace(s[i..], true)[1..]
  {
    SkippedGap(s[i..]);
    var m := |s| - i - |SkipSpace(s[i..], true)|;
    j := i + m;
    assert s[i..][m..] == s[j..] && s[i..][..m] == s[i..j];
    assert s[j..] == SkipSpace(s[i..], true);
  }

  lemma StopsThere(r: Bytes, b: U8)
    requires StartsWith(SkipSpace(r, true), b) && (b == 44 || b == 41)
    ensures Stops(r)
  {
    if r != [] && !IsSpace(r[0], true) { SkipNothing(r, true); }
  }

  lemma RingParts(nf: Numbers, s: Bytes, ring: seq<Position>, rest: Bytes) returns (r: Bytes)
    requires RingAt(nf, s, ring, rest)
    ensures ring != [] && PairAt(nf, s, ring[0], r)
    ensures var t := SkipSpace(r, true);
      if |ring| == 1 then StartsWith(t, 41) && t[1..] == rest
      else StartsWith(t, 44) && RingAt(nf, t[1..], ring[1..], rest)
  {
    assert IsRing(ParseRing(nf, s), nf, s);
    r := ParsePair(nf, s).value.1;
    var t := SkipSpace(r, true);
    if StartsWith(t, 44) {
      assert ring == [ring[0]] + ParseRing(nf, t[1..]).value.0;
      RingNotEmpty(nf, t[1..]);
    }
  }

  lemma RingNotEmpty(nf: Numbers, s: Bytes)
    ensures ParseRing(nf, s).Ok? ==> ParseRing(nf, s).value.0 != []
  {
  }

  lemma {:induction false} RingTaken(nf: Numbers, s: Bytes, ring: seq<Position>, rest: Bytes) returns (n: nat)
    requires RingAt(nf, s, ring, rest)
    ensures n <= |s| && s[n..] == rest && ring != [] && PositionsText(nf, s[..n], ring)
    decreases |ring|
  {
    var r := RingParts(nf, s, ring, rest);
    StopsThere(r, if |ring| == 1 then 41 else 44);
    var i := PairTaken(nf, s, ring[0], r);
    if |ring| == 1 {
      n := OnePosition(nf, s, i, ring, rest);
    } else {
      var j := ByteAfter(s, i, 44);
      var k := RingTaken(nf, s[j + 1..], ring[1..], rest);
      n := j + 1 + k;
      OtherPositions(nf, s, i, j, k, ring);
    }
  }

  lemma OnePosition(nf: Numbers, s: Bytes, i: nat, ring: seq<Position>, rest: Bytes) returns (n: nat)
    requires i <= |s| && |ring| == 1 && PairText(nf, s[..i], ring[0])
    requires var t := SkipSpace(s[i..], true); StartsWith(t, 41) && t[1..] == rest
    ensures n <= |s| && s[n..] == rest && PositionsText(nf, s[..n], ring)
  {
    var j := ByteAfter(s, i, 41);
    n := j + 1;
    RingAre(nf, s, i, j, n, ring);
  }

  lemma OtherPositions(nf: Numbers, s: Bytes, i: nat, j: nat, k: nat, ring: seq<Position>)
    requires i <= j < |s| && k <= |s[j + 1..]| && |ring| > 1 && Gap(s[i..j]) && s[j] == 44
    requires PairText(nf, s[..i], ring[0]) && PositionsText(nf, s[j + 1..][..k], ring[1..])
    ensures s[j + 1..][k..] == s[j + 1 + k..] && PositionsText(nf, s[..j + 1 + k], ring)
  {
    assert s[j + 1..][..k] == s[j + 1..j + 1 + k];
    RingAre(nf, s, i, j, j + 1 + k, ring);
  }

  lemma SubRange(s: Bytes, n: nat, i: nat, j: nat)
    requires i <= j < n <= |s|
    ensures s[..n][..i] == s[..i] && s[..n][i..j] == s[i..j] && s[..n][j..] == s[j..n]
    ensures s[j..n][1..] == s[j + 1..n] && s[j..n][0] == s[j]
  {
  }

  lemma RingAre(nf: Numbers, s: Bytes, i: nat, j: nat, n: nat, ring: seq<Position>)
    requires i <= j < n <= |s| && ring != [] && PairText(nf, s[..i], ring[0]) && Gap(s[i..j])
    requires if |ring| == 1 then n == j + 1 && s[j] == 41 else s[j] == 44 && PositionsText(nf, s[j + 1..n], ring[1..])
    ensures PositionsText(nf, s[..n], ring)
  {
    SubRange(s, n, i, j);
    if |ring| == 1 { assert s[j..n] == [41]; }
    assert RingSplit(nf, s[..n], ring, i, j);
  }

  // ---------- Bodies ----------

  /** What the text after the opening bracket gives. */
  function BodyResult(nf: Numbers, word: Keyword, body: Bytes): Result<Shape, GeoError> {
    var (g, rest) :- ParseBody(nf, word, SkipSpace(body, true));
    if SkipSpace(rest, true) != [] then Err(MalformedWkt) else Ok(g)
  }

  lemma SkipTwice(s: Bytes)
    ensures SkipSpace(SkipSpace(s, true), true) == SkipSpace(s, true)
  {
    if SkipSpace(s, true) != [] { SkipNothing(SkipSpace(s, true), true); }
  }

  lemma SameNumbers(nf: Numbers, s: Bytes, xs: seq<Coord>, rest: Bytes)
    requires xs != []
    ensures NumbersAt(nf, SkipSpace(s, true), xs, rest) <==> NumbersAt(nf, s, xs, rest)
  {
    SkipTwice(s);
    assert ParseNumber(nf, SkipSpace(s, true)) == ParseNumber(nf, s);
  }

  lemma AllGap(w: Bytes)
    ensures Gap(w) <==> SkipSpace(w, true) == []
  {
    if Gap(w) {
      SkipGap(w, []);
      assert w + [] == w;
    }
    SkippedGap(w);
    if SkipSpace(w, true) == [] { assert w[..|w|] == w; }
  }

  lemma ClosingReads(t: Bytes)
    requires Closing(t)
    ensures Expect(t, 41).Ok? && SkipSpace(Expect(t, 41).value.1, true) == [] && Stops(t)
  {
    var i :| 0 <= i < |t| && Gap(t[..i]) && t[i] == 41 && Gap(t[i + 1..]);
    GapThen(t[..i], 41, t[i + 1..]);
    GapStops(t[..i], 41, t[i + 1..]);
    AllGap(t[i + 1..]);
    assert t[..i] + ([41] + t[i + 1..]) == t;
  }

  /** The closing bracket is there and nothing but white space follows it. */
  lemma ClosingIff(t: Bytes)
    ensures Closing(t) <==> Expect(t, 41).Ok? && SkipSpace(Expect(t, 41).value.1, true) == []
    ensures Closing(t) ==> Stops(t)
  {
    if Closing(t) { ClosingReads(t); }
    if Expect(t, 41).Ok? && SkipSpace(Expect(t, 41).value.1, true) == [] {
      assert t[0..] == t;
      var i := ByteAfter(t, 0, 41);
      AllGap(t[i + 1..]);
      assert t[0..i] == t[..i];
    }
  }

  /** Some rest is closed. */
  ghost predicate NumbersClosed(nf: Numbers, t: Bytes, xs: seq<Coord>) {
    exists r :: NumbersAt(nf, t, xs, r) && Closing(r)
  }

  lemma NumbersBodyReads(nf: Numbers, body: Bytes, xs: seq<Coord>) returns (r: Bytes)
    requires xs != [] && NumbersBody(nf, body, xs)
    ensures NumbersAt(nf, body, xs, r) && Closing(r)
  {
    var i :| 0 <= i <= |body| && NumbersText(nf, body[..i], xs) && Closing(body[i..]);
    r := body[i..];
    ClosingReads(r);
    NumbersRead(nf, body[..i], xs, r);
    Halves(body, i);
  }

  lemma NumbersBodyTaken(nf: Numbers, body: Bytes, xs: seq<Coord>, r: Bytes)
    requires xs != [] && NumbersAt(nf, body, xs, r) && Closing(r)
    ensures NumbersBody(nf, body, xs)
  {
    ClosingReads(r);
    var n := NumbersTaken(nf, body, xs, r);
  }

  lemma NumbersBodyIff(nf: Numbers, body: Bytes, xs: seq<Coord>)
    requires xs != []
    ensures NumbersBody(nf, body, xs) <==> NumbersClosed(nf, SkipSpace(body, true), xs)
  {
    if NumbersBody(nf, body, xs) {
      var r := NumbersBodyReads(nf, body, xs);
      SameNumbers(nf, body, xs, r);
    }
    if NumbersClosed(nf, SkipSpace(body, true), xs) {
      var r :| NumbersAt(nf, SkipSpace(body, true), xs, r) && Closing(r);
      SameNumbers(nf, body, xs, r);
      NumbersBodyTaken(nf, body, xs, r);
    }
  }

  lemma PointBodyIff(nf: Numbers, body: Bytes, g: Shape)
    ensures BodyResult(nf, PointWord, body) == Ok(g) <==> g.Point? && NumbersBody(nf, body, [g.x, g.y])
  {
    var s := SkipSpace(body, true);
    if BodyResult(nf, PointWord, body) == Ok(g) {
      var (p, r) := ParsePair(nf, s).value;
      PairIsNumbers(nf, s, p, r);
      ClosingIff(r);
      NumbersBodyIff(nf, body, [p.0, p.1]);
    }
    if g.Point? && NumbersBody(nf, body, [g.x, g.y]) {
      NumbersBodyIff(nf, body, [g.x, g.y]);
      var r :| NumbersAt(nf, s, [g.x, g.y], r) && Closing(r);
      PairIsNumbers(nf, s, (g.x, g.y), r);
      ClosingIff(r);
    }
  }

  lemma FourNumbers(nf: Numbers, s: Bytes, low: Position, high: Position, rest: Bytes)
    ensures NumbersAt(nf, s, [low.0, low.1, high.0, high.1], rest) <==>
      var p := ParsePair(nf, s); p.Ok? && p.value.0 == low && ParsePair(nf, p.value.1) == Ok((high, rest))
  {
    var xs := [low.0, low.1, high.0, high.1];
    assert xs[1..] == [low.1, high.0, high.1] && xs[1..][1..] == [high.0, high.1];
    if ParsePair(nf, s).Ok? { PairIsNumbers(nf, ParsePair(nf, s).value.1, high, rest); }
  }

  lemma EnvelopeTaken(nf: Numbers, body: Bytes, g: Shape)
    requires BodyResult(nf, EnvelopeWord, body) == Ok(g)
    ensures g.Rect? && Proper(g) && NumbersBody(nf, body, [g.xmin, g.ymin, g.xmax, g.ymax])
  {
    var s := SkipSpace(body, true);
    var (low, r1) := ParsePair(nf, s).value;
    var (high, r) := ParsePair(nf, r1).value;
    FourNumbers(nf, s, low, high, r);
    ClosingIff(r);
    NumbersBodyIff(nf, body, [low.0, low.1, high.0, high.1]);
  }

  lemma EnvelopeReads(nf: Numbers, body: Bytes, low: Position, high: Position, r: Bytes)
    requires NumbersAt(nf, SkipSpace(body, true), [low.0, low.1, high.0, high.1], r) && Closing(r)
    ensures BodyResult(nf, EnvelopeWord, body) == CheckedRect(low.0, low.1, high.0, high.1)
  {
    FourNumbers(nf, SkipSpace(body, true), low, high, r);
    ClosingIff(r);
  }

  lemma EnvelopeBodyIff(nf: Numbers, body: Bytes, g: Shape)
    ensures BodyResult(nf, EnvelopeWord, body) == Ok(g) <==>
      g.Rect? && Proper(g) && NumbersBody(nf, body, [g.xmin, g.ymin, g.xmax, g.ymax])
  {
    if BodyResult(nf, EnvelopeWord, body) == Ok(g) { EnvelopeTaken(nf, body, g); }
    if g.Rect? && Proper(g) && NumbersBody(nf, body, [g.xmin, g.ymin, g.xmax, g.ymax]) {
      NumbersBodyIff(nf, body, [g.xmin, g.ymin, g.xmax, g.ymax]);
      var r :| NumbersAt(nf, SkipSpace(body, true), [g.xmin, g.ymin, g.xmax, g.ymax], r) && Closing(r);
      EnvelopeReads(nf, body, (g.xmin, g.ymin), (g.xmax, g.ymax), r);
    }
  }

  /** A bracket, a ring and its bracket, and then what closes the body. */
  lemma RingBodyReads(nf: Numbers, body: Bytes, ring: seq<Position>)
    requires ring != [] && RingBody(nf, body, ring)
    ensures BodyResult(nf, PolygonWord, body) == RectOfRing(ring, MalformedWkt)
  {
    var i, j :| 0 <= i < j <= |body| && RingBodySplit(nf, body, ring, i, j);
    RingReads(nf, body[i + 1..j], ring, body[j..]);
    ClosingIff(body[j..]);
    RingBodyIs(body, i, j);
    RingClosed(nf, body, body[i + 1..j] + body[j..], ring, body[j..]);
  }

  lemma RingBodyIs(t: Bytes, i: nat, j: nat)
    requires i < j <= |t| && Gap(t[..i]) && t[i] == 40
    ensures SkipSpace(t, true) == [40] + (t[i + 1..j] + t[j..])
  {
    CutAt(t, i);
    GapThen(t[..i], 40, t[i + 1..]);
    TwoParts(t, i + 1, j);
  }

  lemma CutAt(t: Bytes, i: nat)
    requires i < |t|
    ensures t == t[..i] + ([t[i]] + t[i + 1..])
  {
  }

  lemma TwoParts(t: Bytes, i: nat, j: nat)
    requires i <= j <= |t|
    ensures t[i..] == t[i..j] + t[j..]
  {
  }

  lemma RingClosed(nf: Numbers, body: Bytes, inner: Bytes, ring: seq<Position>, rest: Bytes)
    requires SkipSpace(body, true) == [40] + inner && RingAt(nf, inner, ring, rest)
    requires Expect(rest, 41).Ok? && SkipSpace(Expect(rest, 41).value.1, true) == []
    ensures BodyResult(nf, PolygonWord, body) == RectOfRing(ring, MalformedWkt)
  {
    SkipTwice(body);
    assert ([40] + inner)[1..] == inner;
    assert IsRing(ParseRing(nf, inner), nf, inner);
    RectFromRingIs(ring);
  }

  lemma RingBodyParts(nf: Numbers, body: Bytes) returns (ring: seq<Position>, rest: Bytes)
    requires BodyResult(nf, PolygonWord, body).Ok?
    ensures StartsWith(SkipSpace(body, true), 40) && RingAt(nf, SkipSpace(body, true)[1..], ring, rest) && Closing(rest)
    ensures BodyResult(nf, PolygonWord, body) == RectOfRing(ring, MalformedWkt)
  {
    SkipTwice(body);
    var inner := SkipSpace(body, true)[1..];
    ring := ParseRing(nf, inner).value.0;
    rest := ParseRing(nf, inner).value.1;
    ClosingIff(rest);
    RectFromRingIs(ring);
  }

  lemma RingBodyTaken(nf: Numbers, body: Bytes) returns (ring: seq<Position>)
    requires BodyResult(nf, PolygonWord, body).Ok?
    ensures ring != [] && RingBody(nf, body, ring)
    ensures BodyResult(nf, PolygonWord, body) == RectOfRing(ring, MalformedWkt)
  {
    var rest;
    ring, rest := RingBodyParts(nf, body);
    RingBodyFrom(nf, body, ring, rest);
  }

  lemma RingBodyFrom(nf: Numbers, body: Bytes, ring: seq<Position>, rest: Bytes)
    requires StartsWith(SkipSpace(body, true), 40) && RingAt(nf, SkipSpace(body, true)[1..], ring, rest)
    requires Closing(rest)
    ensures ring != [] && RingBody(nf, body, ring)
  {
    assert body[0..] == body;
    var i := ByteAfter(body, 0, 40);
    assert body[0..i] == body[..i];
    var n := RingTaken(nf, body[i + 1..], ring, rest);
    var j := i + 1 + n;
    assert body[i + 1..][..n] == body[i + 1..j] && body[i + 1..][n..] == body[j..];
    assert RingBodySplit(nf, body, ring, i, j);
  }

  // ---------- Keywords ----------

  ghost predicate Letters(name: Bytes) { forall i :: 0 <= i < |name| ==> 65 <= name[i] <= 90 }

  ghost predicate EndsWord(rest: Bytes) { rest == [] || !IsAlpha(rest[0]) }

  lemma {:induction false} WordEnd(word: Bytes, rest: Bytes, i: nat)
    requires i <= |word| && EndsWord(rest) && forall k :: 0 <= k < |word| ==> IsAlpha(word[k])
    ensures AlphaEnd(word + rest, i) == |word|
    decreases |word| - i
  {
    if i < |word| { WordEnd(word, rest, i + 1); }
  }

  /** A word in either case is read up to where it ends. */
  lemma WordReads(word: Bytes, name: Bytes, rest: Bytes)
    requires Letters(name) && Spells(word, name) && EndsWord(rest)
    ensures var k := KeywordOf(name);
      ParseKeyword(word + rest) == if k.Ok? then Ok((k.value, rest)) else Err(k.error)
  {
    WordEnd(word, rest, 0);
    assert (word + rest)[..|word|] == word && (word + rest)[|word|..] == rest;
    assert UpperAll(word) == name;
  }

  lemma {:induction false} AlphaRun(s: Bytes, i: nat)
    requires i <= |s|
    ensures var j := AlphaEnd(s, i); (forall k :: i <= k < j ==> IsAlpha(s[k])) && (j < |s| ==> !IsAlpha(s[j]))
    decreases |s| - i
  {
    if i < |s| && IsAlpha(s[i]) { AlphaRun(s, i + 1); }
  }

  lemma WordTaken(s: Bytes) returns (word: Bytes, name: Bytes, rest: Bytes)
    ensures s == word + rest && Letters(name) && Spells(word, name) && EndsWord(rest)
  {
    AlphaRun(s, 0);
    var n := AlphaEnd(s, 0);
    word, name, rest := s[..n], UpperAll(s[..n]), s[n..];
  }

  /** White space and a word decide together with what follows them. */
  lemma AfterWord(nf: Numbers, w: Bytes, word: Bytes, name: Bytes, rest: Bytes)
    requires Gap(w) && word != [] && Letters(name) && Spells(word, name) && EndsWord(rest)
    ensures var k := KeywordOf(name);
      ParseWkt(nf, w + (word + rest)) == if k.Ok? then ParseOpened(nf, k.value, rest) else Err(k.error)
  {
    SkipGap(w, word + rest);
    assert (word + rest)[0] == word[0] && (word[0] == name[0] || word[0] as int == name[0] as int + 32);
    SkipNothing(word + rest, true);
    WordReads(word, name, rest);
  }

  lemma OpenedIs(nf: Numbers, k: Keyword, w: Bytes, body: Bytes)
    requires Gap(w)
    ensures ParseOpened(nf, k, w + ([40] + body)) == BodyResult(nf, k, body)
  {
    GapThen(w, 40, body);
  }

  lemma HeadSplit(t: Bytes, i: nat, j: nat, k: nat)
    requires i <= j <= k < |t| && t[k] == 40
    ensures t == t[..i] + (t[i..j] + (t[j..k] + ([40] + t[k + 1..])))
  {
  }

  lemma HeadReads(nf: Numbers, t: Bytes, name: Bytes, body: Bytes, word: Keyword)
    requires Headed(t, name, body) && Letters(name) && name != [] && KeywordOf(name) == Ok(word)
    ensures ParseWkt(nf, t) == BodyResult(nf, word, body)
  {
    var i, j, k :| 0 <= i <= j <= k < |t| && Gap(t[..i]) && Spells(t[i..j], name) && Gap(t[j..k]) && t[k] == 40
      && t[k + 1..] == body;
    HeadSplit(t, i, j, k);
    AfterWord(nf, t[..i], t[i..j], name, t[j..k] + ([40] + body));
    OpenedIs(nf, word, t[j..k], body);
  }

  lemma NamesAre()
    ensures KeywordOf(Ascii("POINT")) == Ok(PointWord) && KeywordOf(Ascii("ENVELOPE")) == Ok(EnvelopeWord)
    ensures KeywordOf(Ascii("POLYGON")) == Ok(PolygonWord)
    ensures Letters(Ascii("POINT")) && Letters(Ascii("ENVELOPE")) && Letters(Ascii("POLYGON"))
    ensures forall name :: KeywordOf(name).Ok? ==>
      name == match KeywordOf(name).value
        case PointWord => Ascii("POINT") case PolygonWord => Ascii("POLYGON") case EnvelopeWord => Ascii("ENVELOPE")
  {
    assert |Ascii("POINT")| == 5 && |Ascii("POLYGON")| == 7 && |Ascii("ENVELOPE")| == 8;
  }

  lemma FirstWord(t: Bytes) returns (i: nat, j: nat, name: Bytes)
    ensures i <= j <= |t| && Gap(t[..i]) && Letters(name) && Spells(t[i..j], name) && EndsWord(t[j..])
    ensures SkipSpace(t, true) == t[i..j] + t[j..]
  {
    var s := SkipSpace(t, true);
    SkippedGap(t);
    i := |t| - |s|;
    var word, rest;
    word, name, rest := WordTaken(s);
    j := i + |word|;
    assert t[i..] == s && t[i..j] == word && t[j..] == rest;
  }

  lemma HeadTaken(nf: Numbers, t: Bytes) returns (name: Bytes, body: Bytes)
    requires !StartsWith(SkipSpace(t, true), 60) && ParseWkt(nf, t).Ok?
    ensures Headed(t, name, body) && KeywordOf(name).Ok?
    ensures ParseWkt(nf, t) == BodyResult(nf, KeywordOf(name).value, body)
  {
    var i, j;
    i, j, name := FirstWord(t);
    WordReads(t[i..j], name, t[j..]);
    OpenedStarts(nf, KeywordOf(name).value, t[j..]);
    var k := BracketAt(t, j);
    body := t[k + 1..];
    OpenedIs(nf, KeywordOf(name).value, t[j..k], body);
  }

  lemma OpenedStarts(nf: Numbers, word: Keyword, s: Bytes)
    requires ParseOpened(nf, word, s).Ok?
    ensures StartsWith(SkipSpace(s, true), 40)
  {
  }

  lemma BracketAt(t: Bytes, j: nat) returns (k: nat)
    requires j <= |t| && StartsWith(SkipSpace(t[j..], true), 40)
    ensures j <= k < |t| && Gap(t[j..k]) && t[k] == 40 && t[j..] == t[j..k] + ([40] + t[k + 1..])
  {
    k := ByteAfter(t, j, 40);
  }

  // ---------- Exactly the grammar ----------

  /** Without a reference system in front a text is accepted as a shape exactly when the grammar says so. */
  lemma AcceptedIff(nf: Numbers, t: Bytes, g: Shape)
    requires !StartsWith(SkipSpace(t, true), 60)
    ensures ParseWkt(nf, t) == Ok(g) <==> ShapeText(nf, t, g)
  {
    NamesAre();
    if ParseWkt(nf, t) == Ok(g) { AcceptedIsText(nf, t, g); }
    if ShapeText(nf, t, g) { TextIsAccepted(nf, t, g); }
  }

  lemma AcceptedIsText(nf: Numbers, t: Bytes, g: Shape)
    requires !StartsWith(SkipSpace(t, true), 60) && ParseWkt(nf, t) == Ok(g)
    ensures ShapeText(nf, t, g)
  {
    NamesAre();
    var name, body := HeadTaken(nf, t);
    match KeywordOf(name).value
    case PointWord => PointBodyIff(nf, body, g);
    case EnvelopeWord => EnvelopeBodyIff(nf, body, g);
    case PolygonWord =>
      var ring := RingBodyTaken(nf, body);
      assert PolygonShape(nf, t, ring);
  }

  lemma TextIsAccepted(nf: Numbers, t: Bytes, g: Shape)
    requires ShapeText(nf, t, g)
    ensures ParseWkt(nf, t) == Ok(g)
  {
    NamesAre();
    if g.Point? && NumbersShape(nf, t, Ascii("POINT"), [g.x, g.y]) {
      var body :| Headed(t, Ascii("POINT"), body) && NumbersBody(nf, body, [g.x, g.y]);
      HeadReads(nf, t, Ascii("POINT"), body, PointWord);
      PointBodyIff(nf, body, g);
    } else if g.Rect? && Proper(g) && NumbersShape(nf, t, Ascii("ENVELOPE"), [g.xmin, g.ymin, g.xmax, g.ymax]) {
      var body :| Headed(t, Ascii("ENVELOPE"), body) && NumbersBody(nf, body, [g.xmin, g.ymin, g.xmax, g.ymax]);
      HeadReads(nf, t, Ascii("ENVELOPE"), body, EnvelopeWord);
      EnvelopeBodyIff(nf, body, g);
    } else {
      var ring :| ring != [] && PolygonShape(nf, t, ring) && RectOfRing(ring, MalformedWkt) == Ok(g);
      PolygonIsJudged(nf, t, ring);
    }
  }

  /** The text of a polygon is judged as its ring, errors included. */
  lemma PolygonIsJudged(nf: Numbers, t: Bytes, ring: seq<Position>)
    requires ring != [] && PolygonShape(nf, t, ring)
    ensures ParseWkt(nf, t) == RectOfRing(ring, MalformedWkt)
  {
    NamesAre();
    var body :| Headed(t, Ascii("POLYGON"), body) && RingBody(nf, body, ring);
    HeadReads(nf, t, Ascii("POLYGON"), body, PolygonWord);
    RingBodyReads(nf, body, ring);
  }

  /** The shapes of WKT that are not read here. */
  ghost predicate OtherShape(name: Bytes) {
    name in {
      Ascii("LINESTRING"), Ascii("MULTIPOINT"), Ascii("MULTILINESTRING"), Ascii("MULTIPOLYGON"),
      Ascii("GEOMETRYCOLLECTION"), Ascii("CIRCULARSTRING"), Ascii("CURVE"), Ascii("SURFACE"), Ascii("TIN"),
      Ascii("POLYHEDRALSURFACE")}
  }

  /** Another first word is refused whatever follows: as unsupported when it names another shape. */
  lemma OtherWords(nf: Numbers, w: Bytes, word: Bytes, name: Bytes, rest: Bytes)
    requires Gap(w) && word != [] && Letters(name) && Spells(word, name) && EndsWord(rest)
    requires name != Ascii("POINT") && name != Ascii("POLYGON") && name != Ascii("ENVELOPE")
    ensures ParseWkt(nf, w + (word + rest)) == Err(if OtherShape(name) then UnsupportedShape else MalformedWkt)
  {
    AfterWord(nf, w, word, name, rest);
  }

  // ---------- Errors ----------

  ghost predicate Malformed<T(!new)>(r: Result<T, GeoError>) { r.Ok? || r.error == MalformedWkt }

  lemma NumberErrors(nf: Numbers, s: Bytes)
    ensures Malformed(ParseNumber(nf, s)) && Malformed(ParsePair(nf, s))
  {
  }

  lemma {:induction false} RingErrors(nf: Numbers, s: Bytes)
    ensures Malformed(ParseRing(nf, s))
    decreases |s|
  {
    NumberErrors(nf, s);
    var p := ParsePair(nf, s);
    if p.Ok? {
      var t := SkipSpace(p.value.1, true);
      if StartsWith(t, 44) { RingErrors(nf, t[1..]); }
    }
  }

  /** There is a complete ring, and it is judged unsupported. */
  ghost predicate RingIsUnsupported(nf: Numbers, s: Bytes) {
    exists ring, rest :: StartsWith(SkipSpace(s, true), 40) && RingAt(nf, SkipSpace(s, true)[1..], ring, rest)
      && RectOfRing(ring, MalformedWkt) == Err(UnsupportedShape)
  }

  lemma PolygonErrors(nf: Numbers, s: Bytes)
    requires ParseBody(nf, PolygonWord, s).Err?
    ensures ParseBody(nf, PolygonWord, s).error == MalformedWkt
      || (ParseBody(nf, PolygonWord, s).error == UnsupportedShape && RingIsUnsupported(nf, s))
  {
    if StartsWith(SkipSpace(s, true), 40) {
      var inner := SkipSpace(s, true)[1..];
      RingErrors(nf, inner);
      if ParseRing(nf, inner).Ok? {
        var (ring, rest) := ParseRing(nf, inner).value;
        assert RingAt(nf, inner, ring, rest);
        RectFromRingIs(ring);
      }
    }
  }

  /** Behind the keyword everything is malformed but a closed ring that goes round no rectangle. */
  lemma BodyErrors(nf: Numbers, word: Keyword, s: Bytes)
    requires ParseBody(nf, word, s).Err?
    ensures ParseBody(nf, word, s).error == MalformedWkt
      || (ParseBody(nf, word, s).error == UnsupportedShape && word == PolygonWord && RingIsUnsupported(nf, s))
  {
    match word
    case PointWord => NumberErrors(nf, s);
    case EnvelopeWord =>
      NumberErrors(nf, s);
      if ParsePair(nf, s).Ok? { NumberErrors(nf, ParsePair(nf, s).value.1); }
    case PolygonWord => PolygonErrors(nf, s);
  }

  lemma OpenedErrors(nf: Numbers, word: Keyword, s: Bytes)
    requires ParseOpened(nf, word, s).Err?
    ensures ParseOpened(nf, word, s).error == MalformedWkt
      || (ParseOpened(nf, word, s).error == UnsupportedShape && word == PolygonWord)
  {
    if Expect(s, 40).Ok? {
      var body := SkipSpace(Expect(s, 40).value.1, true);
      if ParseBody(nf, word, body).Err? { BodyErrors(nf, word, body); }
    }
  }

  /** A text is refused as malformed, or as unsupported, and then its first word is a polygon or another shape. */
  lemma ErrorsAre(nf: Numbers, t: Bytes) returns (i: nat, j: nat, name: Bytes)
    requires !StartsWith(SkipSpace(t, true), 60) && ParseWkt(nf, t).Err?
    ensures i <= j <= |t| && Gap(t[..i]) && Letters(name) && Spells(t[i..j], name) && EndsWord(t[j..])
    ensures ParseWkt(nf, t).error == MalformedWkt
      || (ParseWkt(nf, t).error == UnsupportedShape && (name == Ascii("POLYGON") || OtherShape(name)))
  {
    i, j, name := FirstWord(t);
    WordReads(t[i..j], name, t[j..]);
    NamesAre();
    if KeywordOf(name).Ok? { OpenedErrors(nf, KeywordOf(name).value, t[j..]); }
  }

  // ---------- Reference systems ----------

  lemma AfterGap(nf: Numbers, w: Bytes, s: Bytes)
    requires Gap(w)
    ensures ParseWkt(nf, w + s) == ParseWkt(nf, s)
  {
    SkipGap(w, s);
  }

  /** The one reference system that is accepted in front, whatever white space there is, and then changes nothing. */
  lemma Crs84Only(nf: Numbers, w: Bytes, iri: Bytes, text: Bytes)
    requires Gap(w) && 62 !in iri && !StartsWith(SkipSpace(text, true), 60)
    ensures ParseWkt(nf, w + ([60] + iri + [62] + text)) ==
      if iri == Ascii("http://www.opengis.net/def/crs/OGC/1.3/CRS84") then ParseWkt(nf, text)
      else Err(UnsupportedCrs(iri))
  {
    AfterGap(nf, w, [60] + iri + [62] + text);
    CrsPrefix(nf, iri, text);
  }

  /** A second reference system is refused, and so is one that is not closed. */
  lemma OneSystemOnly(nf: Numbers, iri: Bytes, text: Bytes)
    requires 62 !in iri
    ensures StartsWith(SkipSpace(text, true), 60) ==>
      ParseWkt(nf, [60] + iri + [62] + text) == if iri == CRS84 then Err(MalformedWkt) else Err(UnsupportedCrs(iri))
    ensures ParseWkt(nf, [60] + iri) == Err(MalformedWkt)
  {
    AngleRead(iri, text);
    NotClosed(iri, 1);
    SkipNothing([60] + iri, true);
    var s := SkipSpace(text, true);
    if StartsWith(s, 60) {
      SkipTwice(text);
      assert AlphaEnd(s, 0) == 0;
      assert UpperAll(s[..0]) == [];
      NoKeyword();
    }
  }

  lemma NoKeyword()
    ensures KeywordOf([]) == Err(MalformedWkt)
  {
    assert |Ascii("POINT")| == 5 && |Ascii("POLYGON")| == 7 && |Ascii("ENVELOPE")| == 8;
  }

  lemma {:induction false} NotClosed(iri: Bytes, i: nat)
    requires 62 !in iri && 1 <= i <= 1 + |iri|
    ensures AngleEnd([60] + iri, i) == 1 + |iri|
    decreases |iri| - i
  {
    if i < 1 + |iri| {
      assert ([60] + iri)[i] == iri[i - 1];
      NotClosed(iri, i + 1);
    }
  }
}
