/** The WKT parser over a moving position. */
module WktParser {
  import opened Prelude
  import opened Geometry
  import opened Wkt
  import opened GeoCursor

  /** With `done` read, the ring at `s` completes `all`. */
  ghost predicate RingPending(nf: Numbers, all: Parsed<seq<Position>>, done: seq<Position>, s: Bytes) {
    forall p :: IsRing(p, nf, s) ==> all == Prepend(done, p)
  }

  lemma RingStart(nf: Numbers, s: Bytes)
    ensures RingPending(nf, ParseRing(nf, s), [], s)
  {
    PrependNothing(ParseRing(nf, s));
  }

  lemma RingFails(nf: Numbers, all: Parsed<seq<Position>>, done: seq<Position>, s: Bytes)
    requires RingPending(nf, all, done, s)
    requires ParsePair(nf, s).Ok? ==>
      var t := SkipSpace(ParsePair(nf, s).value.1, true); !StartsWith(t, 44) && !StartsWith(t, 41)
    ensures all == Err(if ParsePair(nf, s).Err? then ParsePair(nf, s).error else MalformedWkt)
  {
    assert IsRing(ParseRing(nf, s), nf, s);
  }

  lemma RingGoesOn(nf: Numbers, all: Parsed<seq<Position>>, done: seq<Position>, s: Bytes)
    requires RingPending(nf, all, done, s) && ParsePair(nf, s).Ok?
    requires StartsWith(SkipSpace(ParsePair(nf, s).value.1, true), 44)
    ensures var (p, s1) := ParsePair(nf, s).value; RingPending(nf, all, done + [p], SkipSpace(s1, true)[1..])
  {
    assert IsRing(ParseRing(nf, s), nf, s);
    var (p, s1) := ParsePair(nf, s).value;
    var next := ParseRing(nf, SkipSpace(s1, true)[1..]);
    assert ParseRing(nf, s) == Prepend([p], next);
    PrependStep(done, p, next);
  }

  lemma RingEnds(nf: Numbers, all: Parsed<seq<Position>>, done: seq<Position>, s: Bytes)
    requires RingPending(nf, all, done, s) && ParsePair(nf, s).Ok?
    requires StartsWith(SkipSpace(ParsePair(nf, s).value.1, true), 41)
    ensures var (p, s1) := ParsePair(nf, s).value; all == Ok((done + [p], SkipSpace(s1, true)[1..]))
  {
    assert IsRing(ParseRing(nf, s), nf, s);
  }

  /** One position and what follows it: `None` to go on, the result to stop. */
  method ReadRingStep(c: Cursor, nf: Numbers, ring: seq<Position>, ghost all: Parsed<seq<Position>>)
    returns (longer: seq<Position>, stop: Option<Result<seq<Position>, GeoError>>)
    requires c.Valid() && RingPending(nf, all, ring, c.Rest())
    modifies c
    ensures c.Valid()
    ensures stop.None? ==> |c.Rest()| < |old(c.Rest())| && RingPending(nf, all, longer, c.Rest())
    ensures stop.Some? ==> Follows(all, stop.value, c.Rest())
  {
    longer := ring;
    ghost var s := c.Rest();
    var pair := ReadPair(c, nf);
    if pair.Err? {
      RingFails(nf, all, ring, s);
      return longer, Some(Err(pair.error));
    }
    longer := ring + [pair.value];
    c.SkipWs(true);
    c.PeekIs(44);
    c.PeekIs(41);
    if c.Peek() == Some(44) {
      RingGoesOn(nf, all, ring, s);
      c.Advance();
      stop := None;
    } else if c.Peek() == Some(41) {
      RingEnds(nf, all, ring, s);
      c.Advance();
      stop := Some(Ok(longer));
    } else {
      RingFails(nf, all, ring, s);
      stop := Some(Err(MalformedWkt));
    }
  }

  method ReadRing(c: Cursor, nf: Numbers) returns (r: Result<seq<Position>, GeoError>)
    requires c.Valid()
    modifies c
    ensures c.Valid() && Follows(ParseRing(nf, old(c.Rest())), r, c.Rest())
  {
    ghost var all := ParseRing(nf, c.Rest());
    RingStart(nf, c.Rest());
    var ring: seq<Position> := [];
    while true
      invariant c.Valid() && RingPending(nf, all, ring, c.Rest())
      decreases |c.Rest()|
    {
      var longer, stop := ReadRingStep(c, nf, ring, all);
      if stop.Some? { return stop.value; }
      ring := longer;
    }
  }

  method ReadBody(c: Cursor, nf: Numbers, word: Keyword) returns (r: Result<Shape, GeoError>)
    requires c.Valid()
    modifies c
    ensures c.Valid() && Follows(ParseBody(nf, word, old(c.Rest())), r, c.Rest())
  {
    match word
    case PointWord =>
      var p :- ReadPair(c, nf);
      var _ :- ExpectByte(c, 41);
      r := Ok(Point(p.0, p.1));
    case PolygonWord =>
      var _ :- ExpectByte(c, 40);
      var ring :- ReadRing(c, nf);
      var _ :- ExpectByte(c, 41);
      r := RectFromRing(ring);
    case EnvelopeWord =>
      var low :- ReadPair(c, nf);
      var high :- ReadPair(c, nf);
      var _ :- ExpectByte(c, 41);
      r := CheckedRect(low.0, low.1, high.0, high.1);
  }

  method ReadShape(c: Cursor, nf: Numbers) returns (r: Result<Shape, GeoError>)
    requires c.Valid()
    modifies c
    ensures r == ParseShape(nf, old(c.Rest()))
  {
    var word :- ReadKeyword(c);
    r := ReadOpened(c, nf, word);
  }

  method ReadOpened(c: Cursor, nf: Numbers, word: Keyword) returns (r: Result<Shape, GeoError>)
    requires c.Valid()
    modifies c
    ensures r == ParseOpened(nf, word, old(c.Rest()))
  {
    var _ :- ExpectByte(c, 40);
    c.SkipWs(true);
    var g :- ReadBody(c, nf, word);
    c.SkipWs(true);
    c.PeekIs(0);
    if c.Peek().Some? { return Err(MalformedWkt); }
    r := Ok(g);
  }

  method ReadWkt(nf: Numbers, input: Bytes) returns (r: Result<Shape, GeoError>)
    ensures r == ParseWkt(nf, input)
  {
    var c := new Cursor(input);
    c.SkipWs(true);
    c.PeekIs(60);
    if c.Peek() == Some(60) {
      var crs :- ReadAngleIri(c);
      if crs != CRS84 { return Err(UnsupportedCrs(crs)); }
      c.SkipWs(true);
    }
    r := ReadShape(c, nf);
  }
}
