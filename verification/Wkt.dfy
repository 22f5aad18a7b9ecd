/** Well-known text: what is printed and what is parsed. */
module Wkt {
  import opened Prelude
  import opened Geometry

  function Ascii(s: string): (r: Bytes)
    requires forall i :: 0 <= i < |s| ==> s[i] < 128 as char
    ensures |r| == |s| && forall i :: 0 <= i < |s| ==> r[i] == s[i] as int
  {
    seq(|s|, i requires 0 <= i < |s| => s[i] as int)
  }

  const CRS84: Bytes := Ascii("http://www.opengis.net/def/crs/OGC/1.3/CRS84")

  // ---------- Printing ----------

  function AsWkt(nf: Numbers, g: Shape): Bytes {
    match g
    case Point(x, y) => Ascii("POINT") + ([32, 40] + Pair(nf, (x, y), [41]))
    case Rect(xmin, ymin, xmax, ymax) =>
      Ascii("ENVELOPE") + ([32, 40] + Pair(nf, (xmin, ymin), [32] + Pair(nf, (xmax, ymax), [41])))
  }

  /** `x y` followed by `rest`. */
  function Pair(nf: Numbers, p: Position, rest: Bytes): Bytes {
    nf.show(p.0) + ([32] + (nf.show(p.1) + rest))
  }

  /** The positions of a ring, separated by commas, followed by `rest`. */
  function RingText(nf: Numbers, ring: seq<Position>, rest: Bytes): Bytes
    requires ring != []
  {
    Pair(nf, ring[0], if |ring| == 1 then rest else [44, 32] + RingText(nf, ring[1..], rest))
  }

  function PolygonText(nf: Numbers, ring: seq<Position>): Bytes
    requires ring != []
  {
    Ascii("POLYGON") + ([32, 40, 40] + RingText(nf, ring, [41, 41]))
  }

  // ---------- Parsing ----------

  predicate IsAlpha(b: U8) { 65 <= b <= 90 || 97 <= b <= 122 }

  function Upper(b: U8): U8 { if 97 <= b <= 122 then b - 32 else b }

  function UpperAll(s: Bytes): (r: Bytes)
    ensures |r| == |s| && forall i :: 0 <= i < |s| ==> r[i] == Upper(s[i])
  {
    seq(|s|, i requires 0 <= i < |s| => Upper(s[i]))
  }

  function AlphaEnd(s: Bytes, i: nat): (j: nat)
    ensures j >= i && (i <= |s| ==> j <= |s|)
    decreases |s| - i
  {
    if i < |s| && IsAlpha(s[i]) then AlphaEnd(s, i + 1) else i
  }

  datatype Keyword = PointWord | PolygonWord | EnvelopeWord

  function KeywordOf(word: Bytes): Result<Keyword, GeoError> {
    if word == Ascii("POINT") then Ok(PointWord)
    else if word == Ascii("POLYGON") then Ok(PolygonWord)
    else if word == Ascii("ENVELOPE") then Ok(EnvelopeWord)
    else if IsOtherShape(word) then Err(UnsupportedShape)
    else Err(MalformedWkt)
  }

  /** Shapes that exist in WKT but not here. */
  predicate IsOtherShape(word: Bytes) {
    || word == Ascii("LINESTRING") || word == Ascii("MULTIPOINT") || word == Ascii("MULTILINESTRING")
    || word == Ascii("MULTIPOLYGON") || word == Ascii("GEOMETRYCOLLECTION") || word == Ascii("CIRCULARSTRING")
    || word == Ascii("CURVE") || word == Ascii("SURFACE") || word == Ascii("TIN")
    || word == Ascii("POLYHEDRALSURFACE")
  }

  function ParseKeyword(s: Bytes): Parsed<Keyword> {
    var end := AlphaEnd(s, 0);
    var word :- KeywordOf(UpperAll(s[..end]));
    Ok((word, s[end..]))
  }

  function Expect(s: Bytes, b: U8): (p: Parsed<()>)
    ensures p.Ok? ==> |p.value.1| < |s|
  {
    var t := SkipSpace(s, true);
    if StartsWith(t, b) then Ok(((), t[1..])) else Err(MalformedWkt)
  }

  function ParseNumber(nf: Numbers, s: Bytes): (p: Parsed<Coord>)
    ensures p.Ok? ==> |p.value.1| < |s|
  {
    var t := SkipSpace(s, true);
    var end := ScanNumber(t, true);
    if end.None? then Err(MalformedWkt)
    else
      match nf.read(t[..end.value])
      case Some(Finite(x)) => Ok((x, t[end.value..]))
      case _ => Err(MalformedWkt)
  }

  function ParsePair(nf: Numbers, s: Bytes): (p: Parsed<Position>)
    ensures p.Ok? ==> |p.value.1| < |s|
  {
    var (x, s1) :- ParseNumber(nf, s);
    var (y, s2) :- ParseNumber(nf, s1);
    Ok(((x, y), s2))
  }

  function ParseRing(nf: Numbers, s: Bytes): (p: Parsed<seq<Position>>)
    decreases |s|
  {
    var (first, s1) :- ParsePair(nf, s);
    var t := SkipSpace(s1, true);
    if StartsWith(t, 44) then
      var (others, s2) :- ParseRing(nf, t[1..]);
      Ok(([first] + others, s2))
    else if StartsWith(t, 41) then Ok(([first], t[1..]))
    else Err(MalformedWkt)
  }

  function CheckedRect(xmin: Coord, ymin: Coord, xmax: Coord, ymax: Coord): Result<Shape, GeoError> {
    if xmin > xmax || ymin > ymax then Err(MalformedWkt) else Ok(Rect(xmin, ymin, xmax, ymax))
  }

  function RectFromRing(ring: seq<Position>): Result<Shape, GeoError> {
    var g :- RectOfRing(ring, MalformedWkt);
    CheckedRect(g.xmin, g.ymin, g.xmax, g.ymax)
  }

  function ParseBody(nf: Numbers, word: Keyword, s: Bytes): Parsed<Shape> {
    match word
    case PointWord =>
      var (p, s1) :- ParsePair(nf, s);
      var (_, s2) :- Expect(s1, 41);
      Ok((Point(p.0, p.1), s2))
    case PolygonWord =>
      var (_, s1) :- Expect(s, 40);
      var (ring, s2) :- ParseRing(nf, s1);
      var (_, s3) :- Expect(s2, 41);
      var g :- RectFromRing(ring);
      Ok((g, s3))
    case EnvelopeWord =>
      var (low, s1) :- ParsePair(nf, s);
      var (high, s2) :- ParsePair(nf, s1);
      var (_, s3) :- Expect(s2, 41);
      var g :- CheckedRect(low.0, low.1, high.0, high.1);
      Ok((g, s3))
  }

  /** The part after an optional reference system. */
  function ParseShape(nf: Numbers, s: Bytes): Result<Shape, GeoError> {
    var (word, s1) :- ParseKeyword(s);
    ParseOpened(nf, word, s1)
  }

  /** The part after the keyword. */
  function ParseOpened(nf: Numbers, word: Keyword, s1: Bytes): Result<Shape, GeoError> {
    var (_, s2) :- Expect(s1, 40);
    var (g, s3) :- ParseBody(nf, word, SkipSpace(s2, true));
    if SkipSpace(s3, true) != [] then Err(MalformedWkt) else Ok(g)
  }

  /** Position of the first `>` from `i` on. */
  function AngleEnd(s: Bytes, i: nat): (j: nat)
    requires i <= |s|
    ensures i <= j <= |s| && (j < |s| ==> s[j] == 62)
    decreases |s| - i
  {
    if i < |s| && s[i] != 62 then AngleEnd(s, i + 1) else i
  }

  /** `<iri>` at the front, `<` already seen. */
  function ParseAngleIri(s: Bytes): Parsed<Bytes>
    requires StartsWith(s, 60)
  {
    var end := AngleEnd(s, 1);
    if end == |s| then Err(MalformedWkt) else Ok((s[1..end], s[end + 1..]))
  }

  function ParseWkt(nf: Numbers, input: Bytes): Result<Shape, GeoError> {
    var s := SkipSpace(input, true);
    if StartsWith(s, 60) then
      var (crs, s1) :- ParseAngleIri(s);
      if crs != CRS84 then Err(UnsupportedCrs(crs)) else ParseShape(nf, SkipSpace(s1, true))
    else ParseShape(nf, s)
  }

  // ---------- Reading back what was printed ----------

  // What each parser gives, named so that lemmas can pass results along without unfolding the parser.

  ghost predicate IsPair(p: Parsed<Position>, nf: Numbers, s: Bytes) { p == ParsePair(nf, s) }

  ghost predicate IsRing(p: Parsed<seq<Position>>, nf: Numbers, s: Bytes) { p == ParseRing(nf, s) }

  ghost predicate IsKeyword(k: Result<Keyword, GeoError>, word: Bytes) { k == KeywordOf(word) }

  ghost predicate IsOpened(r: Result<Shape, GeoError>, nf: Numbers, keyword: Keyword, s: Bytes) {
    r == ParseOpened(nf, keyword, s)
  }

  ghost predicate IsParse(r: Result<Shape, GeoError>, nf: Numbers, text: Bytes) { r == ParseWkt(nf, text) }

  /** The pair at the front of `s` is `p`, and `rest` follows. */
  ghost predicate PairAt(nf: Numbers, s: Bytes, p: Position, rest: Bytes) {
    forall r :: IsPair(r, nf, s) ==> r == Ok((p, rest))
  }

  ghost predicate RingAt(nf: Numbers, s: Bytes, ring: seq<Position>, rest: Bytes) {
    forall r :: IsRing(r, nf, s) ==> r == Ok((ring, rest))
  }

  ghost predicate Names(word: Bytes, keyword: Keyword) {
    && word != [] && (forall k :: 0 <= k < |word| ==> 65 <= word[k] <= 90)
    && forall r :: IsKeyword(r, word) ==> r == Ok(keyword)
  }

  ghost predicate OpenedGives(nf: Numbers, keyword: Keyword, s: Bytes, g: Result<Shape, GeoError>) {
    forall r :: IsOpened(r, nf, keyword, s) ==> r == g
  }

  /** The whole text parses to `g`. */
  ghost predicate ParsesTo(nf: Numbers, text: Bytes, g: Result<Shape, GeoError>) {
    forall r :: IsParse(r, nf, text) ==> r == g
  }

  lemma SkipNothing(s: Bytes, wkt: bool)
    requires s != [] && !IsSpace(s[0], wkt)
    ensures SkipSpace(s, wkt) == s
  {
  }

  lemma SkipOne(s: Bytes, wkt: bool)
    ensures SkipSpace([32] + s, wkt) == SkipSpace(s, wkt)
  {
    assert ([32] + s)[1..] == s;
  }

  lemma ShownNotSpace(nf: Numbers, x: Coord, rest: Bytes)
    requires Faithful(nf)
    ensures SkipSpace(nf.show(x) + rest, true) == nf.show(x) + rest
    ensures SkipSpace([32] + (nf.show(x) + rest), true) == nf.show(x) + rest
  {
    ShownStart(nf, x);
    SkipNothing(nf.show(x) + rest, true);
    SkipOne(nf.show(x) + rest, true);
  }

  /** A shown number, perhaps after a space, is read back and nothing after it is touched. */
  lemma NumberRead(nf: Numbers, x: Coord, rest: Bytes)
    requires Faithful(nf) && Stops(rest)
    ensures ParseNumber(nf, nf.show(x) + rest) == Ok((x, rest))
    ensures ParseNumber(nf, [32] + (nf.show(x) + rest)) == Ok((x, rest))
  {
    var t := nf.show(x) + rest;
    ShownNotSpace(nf, x, rest);
    ScanStops(nf.show(x), rest, true);
    assert t[..|nf.show(x)|] == nf.show(x) && t[|nf.show(x)|..] == rest;
  }

  lemma PairRead(nf: Numbers, p: Position, rest: Bytes)
    requires Faithful(nf) && Stops(rest)
    ensures PairAt(nf, Pair(nf, p, rest), p, rest) && PairAt(nf, [32] + Pair(nf, p, rest), p, rest)
    ensures SkipSpace(Pair(nf, p, rest), true) == Pair(nf, p, rest)
  {
    var tail := [32] + (nf.show(p.1) + rest);
    NumberRead(nf, p.1, rest);
    NumberRead(nf, p.0, tail);
    ShownNotSpace(nf, p.0, tail);
  }

  lemma CloseRead(rest: Bytes)
    ensures Expect([41] + rest, 41) == Ok(((), rest))
  {
    SkipNothing([41] + rest, true);
    assert ([41] + rest)[1..] == rest;
  }

  lemma RingLast(nf: Numbers, s: Bytes, p: Position, rest: Bytes)
    requires PairAt(nf, s, p, [41] + rest)
    ensures RingAt(nf, s, [p], rest)
  {
    assert IsPair(ParsePair(nf, s), nf, s);
    SkipNothing([41] + rest, true);
    assert ([41] + rest)[1..] == rest;
  }

  lemma RingMore(nf: Numbers, s: Bytes, p: Position, inner: Bytes, others: seq<Position>, rest: Bytes)
    requires PairAt(nf, s, p, [44] + inner) && RingAt(nf, inner, others, rest)
    ensures RingAt(nf, s, [p] + others, rest)
  {
    assert IsPair(ParsePair(nf, s), nf, s);
    assert IsRing(ParseRing(nf, inner), nf, inner);
    SkipNothing([44] + inner, true);
    assert ([44] + inner)[1..] == inner;
  }

  /** A space or nothing. */
  predicate Lead(lead: Bytes) { lead == [] || lead == [32] }

  lemma PairAfter(nf: Numbers, lead: Bytes, p: Position, rest: Bytes)
    requires Faithful(nf) && Stops(rest) && Lead(lead)
    ensures PairAt(nf, lead + Pair(nf, p, rest), p, rest)
  {
    PairRead(nf, p, rest);
    assert [] + Pair(nf, p, rest) == Pair(nf, p, rest);
  }

  lemma {:induction false} RingRead(nf: Numbers, ring: seq<Position>, lead: Bytes, rest: Bytes)
    requires Faithful(nf) && ring != [] && Lead(lead)
    ensures RingAt(nf, lead + RingText(nf, ring, [41] + rest), ring, rest)
  {
    if |ring| == 1 {
      PairAfter(nf, lead, ring[0], [41] + rest);
      RingLast(nf, lead + RingText(nf, ring, [41] + rest), ring[0], rest);
      assert [ring[0]] == ring;
    } else {
      RingRead(nf, ring[1..], [32], rest);
      RingTextMore(nf, ring, [41] + rest);
      RingStep(nf, ring, RingText(nf, ring, [41] + rest), lead, [32] + RingText(nf, ring[1..], [41] + rest), rest);
    }
  }

  lemma RingTextMore(nf: Numbers, ring: seq<Position>, rest: Bytes)
    requires |ring| > 1
    ensures RingText(nf, ring, rest) == Pair(nf, ring[0], [44] + ([32] + RingText(nf, ring[1..], rest)))
  {
    assert [44, 32] + RingText(nf, ring[1..], rest) == [44] + ([32] + RingText(nf, ring[1..], rest));
  }

  lemma RingStep(nf: Numbers, ring: seq<Position>, text: Bytes, lead: Bytes, inner: Bytes, rest: Bytes)
    requires Faithful(nf) && |ring| > 1 && Lead(lead)
    requires text == Pair(nf, ring[0], [44] + inner) && RingAt(nf, inner, ring[1..], rest)
    ensures RingAt(nf, lead + text, ring, rest)
  {
    RingStepFrom(nf, ring[0], ring[1..], lead, inner, rest);
    assert [ring[0]] + ring[1..] == ring;
  }

  lemma RingStepFrom(nf: Numbers, p: Position, others: seq<Position>, lead: Bytes, inner: Bytes, rest: Bytes)
    requires Faithful(nf) && Lead(lead) && RingAt(nf, inner, others, rest)
    ensures RingAt(nf, lead + Pair(nf, p, [44] + inner), [p] + others, rest)
  {
    PairAfter(nf, lead, p, [44] + inner);
    RingMore(nf, lead + Pair(nf, p, [44] + inner), p, inner, others, rest);
  }

  lemma {:induction false} AlphaEndIs(word: Bytes, rest: Bytes, i: nat)
    requires i <= |word| && forall k :: 0 <= k < |word| ==> IsAlpha(word[k])
    requires rest != [] && !IsAlpha(rest[0])
    ensures AlphaEnd(word + rest, i) == |word|
    decreases |word| - i
  {
    if i < |word| { AlphaEndIs(word, rest, i + 1); }
  }

  lemma KeywordRead(word: Bytes, rest: Bytes, keyword: Keyword)
    requires forall k :: 0 <= k < |word| ==> 65 <= word[k] <= 90
    requires rest != [] && !IsAlpha(rest[0]) && KeywordOf(word) == Ok(keyword)
    ensures ParseKeyword(word + rest) == Ok((keyword, rest))
  {
    AlphaEndIs(word, rest, 0);
    assert (word + rest)[..|word|] == word && (word + rest)[|word|..] == rest;
    assert UpperAll(word) == word;
  }

  /** The keyword's body reads to the end of the text and gives `g`. */
  ghost predicate BodyGives(nf: Numbers, keyword: Keyword, body: Bytes, g: Result<Shape, GeoError>) {
    ParseBody(nf, keyword, SkipSpace(body, true)) == if g.Ok? then Ok((g.value, [])) else Err(g.error)
  }

  lemma OpenedBody(nf: Numbers, body: Bytes, keyword: Keyword, g: Result<Shape, GeoError>)
    requires BodyGives(nf, keyword, body, g)
    ensures OpenedGives(nf, keyword, [32, 40] + body, g)
  {
    assert [32, 40] + body == [32] + ([40] + body);
    SkipOne([40] + body, true);
    SkipNothing([40] + body, true);
    assert ([40] + body)[1..] == body;
  }

  /** After a keyword what follows decides. */
  lemma OpenRead(nf: Numbers, word: Bytes, rest: Bytes, keyword: Keyword, g: Result<Shape, GeoError>)
    requires Names(word, keyword) && rest != [] && !IsAlpha(rest[0]) && OpenedGives(nf, keyword, rest, g)
    ensures ParsesTo(nf, word + rest, g)
  {
    assert IsKeyword(KeywordOf(word), word);
    KeywordRead(word, rest, keyword);
    assert IsOpened(ParseOpened(nf, keyword, rest), nf, keyword, rest);
    SkipNothing(word + rest, true);
  }

  lemma PointKeyword()
    ensures Names(Ascii("POINT"), PointWord)
  {
  }

  lemma PolygonKeyword()
    ensures Names(Ascii("POLYGON"), PolygonWord)
  {
    assert |Ascii("POLYGON")| == 7;
  }

  lemma EnvelopeKeyword()
    ensures Names(Ascii("ENVELOPE"), EnvelopeWord)
  {
    assert |Ascii("ENVELOPE")| == 8;
  }

  lemma PointBody(nf: Numbers, p: Position)
    requires Faithful(nf)
    ensures BodyGives(nf, PointWord, Pair(nf, p, [41]), Ok(Point(p.0, p.1)))
  {
    var body := Pair(nf, p, [41]);
    PairRead(nf, p, [41]);
    assert IsPair(ParsePair(nf, body), nf, body);
    CloseRead([]);
    assert [41] + [] == [41];
  }

  lemma EnvelopeBody(nf: Numbers, low: Position, high: Position)
    requires Faithful(nf)
    ensures BodyGives(nf, EnvelopeWord, Pair(nf, low, [32] + Pair(nf, high, [41])),
                      CheckedRect(low.0, low.1, high.0, high.1))
  {
    var second := [32] + Pair(nf, high, [41]);
    var body := Pair(nf, low, second);
    PairRead(nf, high, [41]);
    PairRead(nf, low, second);
    assert IsPair(ParsePair(nf, body), nf, body) && IsPair(ParsePair(nf, second), nf, second);
    CloseRead([]);
    assert [41] + [] == [41];
  }

  lemma PolygonBody(nf: Numbers, ring: seq<Position>)
    requires Faithful(nf) && ring != []
    ensures BodyGives(nf, PolygonWord, [40] + RingText(nf, ring, [41, 41]), RectFromRing(ring))
  {
    var inner := RingText(nf, ring, [41, 41]);
    SkipNothing([40] + inner, true);
    assert ([40] + inner)[1..] == inner;
    assert [41, 41] == [41] + [41];
    RingRead(nf, ring, [], [41]);
    assert [] + inner == inner;
    assert IsRing(ParseRing(nf, inner), nf, inner);
    CloseRead([]);
    assert [41] + [] == [41];
  }

  lemma PointReads(nf: Numbers, p: Position)
    requires Faithful(nf)
    ensures ParsesTo(nf, AsWkt(nf, Point(p.0, p.1)), Ok(Point(p.0, p.1)))
  {
    PointKeyword();
    PointBody(nf, p);
    OpenedBody(nf, Pair(nf, p, [41]), PointWord, Ok(Point(p.0, p.1)));
    OpenRead(nf, Ascii("POINT"), [32, 40] + Pair(nf, p, [41]), PointWord, Ok(Point(p.0, p.1)));
  }

  lemma RectReads(nf: Numbers, low: Position, high: Position)
    requires Faithful(nf)
    ensures ParsesTo(nf, AsWkt(nf, Rect(low.0, low.1, high.0, high.1)), CheckedRect(low.0, low.1, high.0, high.1))
  {
    var body := Pair(nf, low, [32] + Pair(nf, high, [41]));
    var g := CheckedRect(low.0, low.1, high.0, high.1);
    EnvelopeKeyword();
    EnvelopeBody(nf, low, high);
    OpenedBody(nf, body, EnvelopeWord, g);
    OpenRead(nf, Ascii("ENVELOPE"), [32, 40] + body, EnvelopeWord, g);
  }

  lemma ReadsOut(nf: Numbers, text: Bytes, g: Result<Shape, GeoError>)
    requires ParsesTo(nf, text, g)
    ensures ParseWkt(nf, text) == g
  {
    assert IsParse(ParseWkt(nf, text), nf, text);
  }

  /** Printing then parsing gives the shape back, and only shapes with ordered corners come back. */
  lemma WktRoundTrip(nf: Numbers, g: Shape)
    requires Faithful(nf)
    ensures ParseWkt(nf, AsWkt(nf, g)) == if Proper(g) then Ok(g) else Err(MalformedWkt)
  {
    match g
    case Point(x, y) =>
      PointReads(nf, (x, y));
      ReadsOut(nf, AsWkt(nf, g), Ok(g));
    case Rect(xmin, ymin, xmax, ymax) =>
      RectReads(nf, (xmin, ymin), (xmax, ymax));
      ReadsOut(nf, AsWkt(nf, g), CheckedRect(xmin, ymin, xmax, ymax));
  }

  lemma PolygonReads(nf: Numbers, ring: seq<Position>)
    requires Faithful(nf) && ring != []
    ensures ParsesTo(nf, PolygonText(nf, ring), RectFromRing(ring))
  {
    var body := [40] + RingText(nf, ring, [41, 41]);
    PolygonKeyword();
    PolygonBody(nf, ring);
    OpenedBody(nf, body, PolygonWord, RectFromRing(ring));
    PolygonTextIs(nf, ring);
    OpenRead(nf, Ascii("POLYGON"), [32, 40] + body, PolygonWord, RectFromRing(ring));
  }

  /** Any ring written as a polygon is judged exactly as a ring. */
  lemma PolygonIsRing(nf: Numbers, ring: seq<Position>)
    requires Faithful(nf) && ring != []
    ensures ParseWkt(nf, PolygonText(nf, ring)) == RectOfRing(ring, MalformedWkt)
  {
    PolygonReads(nf, ring);
    ReadsOut(nf, PolygonText(nf, ring), RectFromRing(ring));
    RectFromRingIs(ring);
  }

  lemma PolygonTextIs(nf: Numbers, ring: seq<Position>)
    requires ring != []
    ensures PolygonText(nf, ring) == Ascii("POLYGON") + ([32, 40] + ([40] + RingText(nf, ring, [41, 41])))
  {
    assert [32, 40, 40] + RingText(nf, ring, [41, 41]) == [32, 40] + ([40] + RingText(nf, ring, [41, 41]));
  }

  lemma RectFromRingIs(ring: seq<Position>)
    ensures RectFromRing(ring) == RectOfRing(ring, MalformedWkt)
  {
  }

  lemma {:induction false} AngleEndIs(iri: Bytes, rest: Bytes, i: nat)
    requires 62 !in iri && 1 <= i <= 1 + |iri|
    ensures AngleEnd([60] + iri + [62] + rest, i) == 1 + |iri|
    decreases |iri| - i
  {
    var s := [60] + iri + [62] + rest;
    if i < 1 + |iri| {
      assert s[i] == iri[i - 1];
      AngleEndIs(iri, rest, i + 1);
    }
  }

  lemma AngleRead(iri: Bytes, text: Bytes)
    requires 62 !in iri
    ensures ParseAngleIri([60] + iri + [62] + text) == Ok((iri, text))
    ensures SkipSpace([60] + iri + [62] + text, true) == [60] + iri + [62] + text
  {
    var s := [60] + iri + [62] + text;
    SkipNothing(s, true);
    AngleEndIs(iri, text, 1);
    assert s[1..1 + |iri|] == iri && s[1 + |iri| + 1..] == text;
  }

  lemma CrsThenShape(nf: Numbers, s: Bytes, iri: Bytes, text: Bytes)
    requires StartsWith(s, 60) && SkipSpace(s, true) == s && ParseAngleIri(s) == Ok((iri, text))
    requires !StartsWith(SkipSpace(text, true), 60)
    ensures ParseWkt(nf, s) == if iri == CRS84 then ParseWkt(nf, text) else Err(UnsupportedCrs(iri))
  {
  }

  /** A reference system in front is accepted exactly when it is CRS84, and then changes nothing. */
  lemma CrsPrefix(nf: Numbers, iri: Bytes, text: Bytes)
    requires 62 !in iri && !StartsWith(SkipSpace(text, true), 60)
    ensures ParseWkt(nf, [60] + iri + [62] + text) ==
      if iri == CRS84 then ParseWkt(nf, text) else Err(UnsupportedCrs(iri))
  {
    AngleRead(iri, text);
    CrsThenShape(nf, [60] + iri + [62] + text, iri, text);
  }
}
