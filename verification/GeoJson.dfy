/** GeoJSON documents: what is printed, what is accepted, and that the two agree. */
module GeoJson {
  import opened Prelude
  import opened Text
  import opened Geometry
  import opened Wkt
  import opened Json
  import opened JsonLaws

  const TYPE_KEY: Bytes := Ascii("type")
  const COORDINATES_KEY: Bytes := Ascii("coordinates")
  const CRS_KEY: Bytes := Ascii("crs")
  const PROPERTIES_KEY: Bytes := Ascii("properties")
  const NAME_KEY: Bytes := Ascii("name")
  const POINT_TYPE: Bytes := Ascii("Point")
  const POLYGON_TYPE: Bytes := Ascii("Polygon")
  const CRS84_URN: Bytes := Ascii("urn:ogc:def:crs:OGC:1.3:CRS84")

  // ---------- Reading a document ----------

  function JsonNum(v: Value): Result<Coord, GeoError> {
    if v.Num? && v.number.Finite? then Ok(v.number.x) else Err(MalformedGeoJson)
  }

  function CoordPair(v: Value): Result<Position, GeoError> {
    if !v.Arr? || |v.items| != 2 then Err(MalformedGeoJson)
    else
      var x :- JsonNum(v.items[0]);
      var y :- JsonNum(v.items[1]);
      Ok((x, y))
  }

  /** The positions of a ring; the first bad one decides. */
  function Positions(items: seq<Value>): (r: Result<seq<Position>, GeoError>)
    ensures r.Ok? ==> |r.value| == |items|
  {
    if items == [] then Ok([])
    else
      var before :- Positions(items[..|items| - 1]);
      var last :- CoordPair(items[|items| - 1]);
      Ok(before + [last])
  }

  function PolygonRect(v: Value): Result<Shape, GeoError> {
    if !v.Arr? then Err(MalformedGeoJson)
    else if |v.items| != 1 then Err(UnsupportedShape)
    else if !v.items[0].Arr? then Err(MalformedGeoJson)
    else if |v.items[0].items| != 5 then Err(MalformedGeoJson)
    else
      var ring :- Positions(v.items[0].items);
      RectOfRing(ring, MalformedGeoJson)
  }

  datatype Found = Found(kind: Option<Bytes>, coords: Option<Value>, crs: Option<Bytes>)

  /** The last string called `name` among the properties, or `start`. */
  function NameIn(props: seq<Member>, start: Option<Bytes>): Option<Bytes> {
    if props == [] then start
    else
      var last := props[|props| - 1];
      if last.key == NAME_KEY && last.value.Str? then Some(last.value.text)
      else NameIn(props[..|props| - 1], start)
  }

  function CrsName(fields: seq<Member>): Option<Bytes> {
    if fields == [] then None
    else
      var before, last := CrsName(fields[..|fields| - 1]), fields[|fields| - 1];
      if last.key == PROPERTIES_KEY && last.value.Obj? then NameIn(last.value.fields, before) else before
  }

  function Note(f: Found, field: Member): Result<Found, GeoError> {
    var v := field.value;
    if field.key == TYPE_KEY then
      if v.Str? then Ok(f.(kind := Some(v.text))) else Err(MalformedGeoJson)
    else if field.key == COORDINATES_KEY then Ok(f.(coords := Some(v)))
    else if field.key == CRS_KEY then
      if v.Obj? then Ok(f.(crs := CrsName(v.fields))) else Err(MalformedGeoJson)
    else Ok(f)
  }

  function NoteAll(fields: seq<Member>): Result<Found, GeoError> {
    if fields == [] then Ok(Found(None, None, None))
    else
      var f :- NoteAll(fields[..|fields| - 1]);
      Note(f, fields[|fields| - 1])
  }

  function Judge(f: Found): Result<Shape, GeoError> {
    if f.crs.Some? && f.crs.value != CRS84_URN then Err(UnsupportedCrs(f.crs.value))
    else if f.kind.None? then Err(MalformedGeoJson)
    else if f.coords.None? then Err(MalformedGeoJson)
    else if f.kind.value == POINT_TYPE then
      var p :- CoordPair(f.coords.value);
      Ok(Point(p.0, p.1))
    else if f.kind.value == POLYGON_TYPE then PolygonRect(f.coords.value)
    else Err(UnsupportedShape)
  }

  function ShapeOf(v: Value): Result<Shape, GeoError> {
    if !v.Obj? then Err(MalformedGeoJson)
    else
      var f :- NoteAll(v.fields);
      Judge(f)
  }

  function ParseGeoJson(nf: Numbers, input: Bytes): Result<Shape, GeoError> {
    var (v, rest) :- ParseValue(nf, SkipSpace(input, false));
    if SkipSpace(rest, false) != [] then Err(MalformedGeoJson) else ShapeOf(v)
  }

  // ---------- Printing ----------

  /** `[x,y` and what follows. */
  function OpenPosition(nf: Numbers, p: Position, rest: Bytes): Bytes {
    nf.show(p.0) + ([44] + (nf.show(p.1) + rest))
  }

  function AsGeoJson(nf: Numbers, g: Shape): Bytes {
    match g
    case Point(x, y) =>
      Ascii("{\"type\":\"Point\",\"coordinates\":[") + OpenPosition(nf, (x, y), Ascii("]}"))
    case Rect(xmin, ymin, xmax, ymax) =>
      var next := Ascii("],[");
      Ascii("{\"type\":\"Polygon\",\"coordinates\":[[[") +
        OpenPosition(nf, (xmin, ymin), next +
          OpenPosition(nf, (xmax, ymin), next +
            OpenPosition(nf, (xmax, ymax), next +
              OpenPosition(nf, (xmin, ymax), next +
                OpenPosition(nf, (xmin, ymin), Ascii("]]]}"))))))
  }

  function PositionValue(p: Position): Value { Arr([Num(Finite(p.0)), Num(Finite(p.1))]) }

  function RingItems(ring: seq<Position>): (r: seq<Value>)
    ensures |r| == |ring| && forall i :: 0 <= i < |r| ==> r[i] == PositionValue(ring[i])
  {
    seq(|ring|, i requires 0 <= i < |ring| => PositionValue(ring[i]))
  }

  function Document(kind: Bytes, coords: Value): Value {
    Obj([Member(TYPE_KEY, Str(kind)), Member(COORDINATES_KEY, coords)])
  }

  function RingDocument(ring: seq<Position>): Value { Document(POLYGON_TYPE, Arr([Arr(RingItems(ring))])) }

  // ---------- Documents and shapes ----------

  lemma KeysApart()
    ensures TYPE_KEY != COORDINATES_KEY && POINT_TYPE != POLYGON_TYPE
  {
    assert |TYPE_KEY| != |COORDINATES_KEY| && |POINT_TYPE| != |POLYGON_TYPE|;
  }

  lemma DocumentShape(kind: Bytes, coords: Value)
    ensures ShapeOf(Document(kind, coords)) == Judge(Found(Some(kind), Some(coords), None))
  {
    KeysApart();
    var fields := Document(kind, coords).fields;
    assert fields[..1] == [fields[0]] && fields[..1][..0] == [];
    assert NoteAll([]) == Ok(Found(None, None, None));
    assert NoteAll(fields[..1]) == Ok(Found(Some(kind), None, None));
  }

  lemma {:induction false} RingPositions(ring: seq<Position>)
    ensures Positions(RingItems(ring)) == Ok(ring)
  {
    if ring != [] {
      var n := |ring| - 1;
      assert RingItems(ring)[..n] == RingItems(ring[..n]);
      RingPositions(ring[..n]);
      assert ring == ring[..n] + [ring[n]];
    }
  }

  lemma RingShape(ring: seq<Position>)
    ensures ShapeOf(RingDocument(ring)) == RectOfRing(ring, MalformedGeoJson)
  {
    KeysApart();
    DocumentShape(POLYGON_TYPE, Arr([Arr(RingItems(ring))]));
    RingPositions(ring);
  }

  lemma PointShape(p: Position)
    ensures ShapeOf(Document(POINT_TYPE, PositionValue(p))) == Ok(Point(p.0, p.1))
  {
    KeysApart();
    DocumentShape(POINT_TYPE, PositionValue(p));
  }

  lemma KeysPlain()
    ensures Plain(TYPE_KEY) && Plain(COORDINATES_KEY) && Plain(POINT_TYPE) && Plain(POLYGON_TYPE)
  {
  }

  lemma TwoFields(key: Bytes, kind: Bytes, key2: Bytes, coords: Value)
    requires Plain(key) && Plain(kind) && Plain(key2) && Printable(coords)
    ensures Printable(Obj([Member(key, Str(kind)), Member(key2, coords)]))
  {
    EscapedPlain(key);
    EscapedPlain(kind);
    EscapedPlain(key2);
  }

  lemma DocumentPrintable(kind: Bytes, coords: Value)
    requires Plain(kind) && Printable(coords)
    ensures Printable(Document(kind, coords))
  {
    KeysPlain();
    TwoFields(TYPE_KEY, kind, COORDINATES_KEY, coords);
  }

  lemma RingPrintable(ring: seq<Position>)
    ensures Printable(RingDocument(ring)) && Printable(Arr([Arr(RingItems(ring))]))
  {
    KeysPlain();
    forall i | 0 <= i < |ring| ensures Printable(RingItems(ring)[i]) {
      assert RingItems(ring)[i] == PositionValue(ring[i]);
    }
    assert Printable(Arr(RingItems(ring)));
    DocumentPrintable(POLYGON_TYPE, Arr([Arr(RingItems(ring))]));
  }

  /** A printed document is judged as the document it is. */
  lemma PrintedShape(nf: Numbers, v: Value)
    requires Faithful(nf) && Printable(v)
    ensures ParseGeoJson(nf, PrintTo(nf, v, [])) == ShapeOf(v)
  {
    var s := PrintTo(nf, v, []);
    PrintStart(nf, v, []);
    Skip(s);
    JsonRoundTrip(nf, v, []);
  }

  /** Any ring printed as a polygon is judged exactly as a ring. */
  lemma PolygonIsRing(nf: Numbers, ring: seq<Position>)
    requires Faithful(nf)
    ensures Printable(RingDocument(ring))
    ensures ParseGeoJson(nf, PrintTo(nf, RingDocument(ring), [])) == RectOfRing(ring, MalformedGeoJson)
  {
    RingPrintable(ring);
    PrintedShape(nf, RingDocument(ring));
    RingShape(ring);
  }

  // ---------- The printed text is the printed document ----------

  /** The text up to the coordinates. */
  function Head(kind: Bytes): Bytes {
    Ascii("{\"type\":\"") + (kind + Ascii("\",\"coordinates\":"))
  }

  lemma PointHead()
    ensures Ascii("{\"type\":\"Point\",\"coordinates\":[") == Head(POINT_TYPE) + [91]
  {
  }

  lemma PolygonHead()
    ensures Ascii("{\"type\":\"Polygon\",\"coordinates\":[[[") == Head(POLYGON_TYPE) + [91, 91, 91]
  {
  }

  lemma HeadPieces()
    ensures Ascii("{\"type\":\"") == [123, 34] + TYPE_KEY + [34, 58, 34]
    ensures Ascii("\",\"coordinates\":") == [34, 44, 34] + COORDINATES_KEY + [34, 58]
  {
  }

  /** A quoted string without escapes. */
  function Bare(text: Bytes, rest: Bytes): Bytes { [34] + (text + ([34] + rest)) }

  lemma BeforeKind(key: Bytes, rest: Bytes)
    ensures [123] + Bare(key, [58] + ([34] + rest)) == ([123, 34] + key + [34, 58, 34]) + rest
  {
    var front := [123, 34] + key;
    assert [123] + ([34] + (key + ([34] + ([58] + ([34] + rest))))) == front + ([34] + ([58] + ([34] + rest)));
    assert [34] + ([58] + ([34] + rest)) == [34, 58, 34] + rest;
    Assoc(front, [34, 58, 34], rest);
  }

  lemma AfterKind(key: Bytes, rest: Bytes)
    ensures [34] + ([44] + Bare(key, [58] + rest)) == ([34, 44, 34] + key + [34, 58]) + rest
  {
    var front := [34, 44, 34] + key;
    assert [34] + ([44] + ([34] + (key + ([34] + ([58] + rest))))) == front + ([34] + ([58] + rest));
    assert [34] + ([58] + rest) == [34, 58] + rest;
    Assoc(front, [34, 58], rest);
  }

  lemma HeadText(kind: Bytes, tail: Bytes)
    ensures [123] + Bare(TYPE_KEY, [58] + Bare(kind, [44] + Bare(COORDINATES_KEY, [58] + tail))) == Head(kind) + tail
  {
    var first, second := [123, 34] + TYPE_KEY + [34, 58, 34], [34, 44, 34] + COORDINATES_KEY + [34, 58];
    HeadPieces();
    AfterKind(COORDINATES_KEY, tail);
    BeforeKind(TYPE_KEY, kind + (second + tail));
    Assoc(kind, second, tail);
    Assoc(first, kind + second, tail);
  }

  lemma TwoFieldsText(nf: Numbers, key: Bytes, kind: Bytes, key2: Bytes, coords: Value)
    requires Plain(key) && Plain(kind) && Plain(key2) && Printable(coords)
    ensures var v := Obj([Member(key, Str(kind)), Member(key2, coords)]);
      && Printable(v)
      && PrintTo(nf, v, []) ==
           [123] + Bare(key, [58] + Bare(kind, [44] + Bare(key2, [58] + PrintTo(nf, coords, [125]))))
  {
    TwoFields(key, kind, key2, coords);
    EscapedPlain(key);
    EscapedPlain(kind);
    EscapedPlain(key2);
    var fields := [Member(key, Str(kind)), Member(key2, coords)];
    assert [125] + [] == [125];
    assert fields[1..] == [Member(key2, coords)];
    assert FieldsTo(nf, fields[1..], [125]) == Bare(key2, [58] + PrintTo(nf, coords, [125]));
    assert FieldsTo(nf, fields, [125])
      == Bare(key, [58] + PrintTo(nf, Str(kind), [44] + FieldsTo(nf, fields[1..], [125])));
  }

  lemma DocumentText(nf: Numbers, kind: Bytes, coords: Value)
    requires Plain(kind) && Printable(coords)
    ensures Printable(Document(kind, coords))
    ensures PrintTo(nf, Document(kind, coords), []) == Head(kind) + PrintTo(nf, coords, [125])
  {
    KeysPlain();
    TwoFieldsText(nf, TYPE_KEY, kind, COORDINATES_KEY, coords);
    HeadText(kind, PrintTo(nf, coords, [125]));
  }

  lemma PositionText(nf: Numbers, p: Position, rest: Bytes)
    ensures PrintTo(nf, PositionValue(p), rest) == [91] + OpenPosition(nf, p, [93] + rest)
  {
    var items := PositionValue(p).items;
    assert items[1..] == [Num(Finite(p.1))];
    assert ItemsTo(nf, items[1..], [93] + rest) == nf.show(p.1) + ([93] + rest);
    assert ItemsTo(nf, items, [93] + rest) == PrintTo(nf, items[0], [44] + ItemsTo(nf, items[1..], [93] + rest));
  }

  lemma PointTail(nf: Numbers, p: Position)
    ensures AsGeoJson(nf, Point(p.0, p.1)) == Head(POINT_TYPE) + ([91] + OpenPosition(nf, p, [93] + [125]))
  {
    PointHead();
    assert [93] + [125] == Ascii("]}");
    Assoc(Head(POINT_TYPE), [91], OpenPosition(nf, p, Ascii("]}")));
  }

  lemma PointText(nf: Numbers, p: Position)
    ensures Printable(Document(POINT_TYPE, PositionValue(p)))
    ensures AsGeoJson(nf, Point(p.0, p.1)) == PrintTo(nf, Document(POINT_TYPE, PositionValue(p)), [])
  {
    KeysPlain();
    DocumentText(nf, POINT_TYPE, PositionValue(p));
    PositionText(nf, p, [125]);
    PointTail(nf, p);
  }

  /** The positions of a ring, from the first one's numbers on, and the text that closes the document. */
  function RingTail(nf: Numbers, ring: seq<Position>): Bytes
    requires ring != []
  {
    OpenPosition(nf, ring[0], if |ring| == 1 then Ascii("]]]}") else Ascii("],[") + RingTail(nf, ring[1..]))
  }

  lemma {:induction false} RingTailText(nf: Numbers, ring: seq<Position>)
    requires ring != []
    ensures ItemsTo(nf, RingItems(ring), [93, 93, 125]) == [91] + RingTail(nf, ring)
  {
    var items := RingItems(ring);
    if |ring| == 1 {
      PositionText(nf, ring[0], [93, 93, 125]);
      assert [93] + [93, 93, 125] == Ascii("]]]}");
    } else {
      var inner := RingTail(nf, ring[1..]);
      assert items[1..] == RingItems(ring[1..]);
      RingTailText(nf, ring[1..]);
      PositionText(nf, ring[0], [44] + ([91] + inner));
      assert [93] + ([44] + ([91] + inner)) == Ascii("],[") + inner;
    }
  }

  lemma NestedText(nf: Numbers, ring: seq<Position>)
    requires ring != []
    ensures var outer := Arr([Arr(RingItems(ring))]);
      Printable(outer) && PrintTo(nf, outer, [125]) == [91, 91, 91] + RingTail(nf, ring)
  {
    RingPrintable(ring);
    RingTailText(nf, ring);
    assert [93] + ([93] + [125]) == [93, 93, 125];
    assert PrintTo(nf, Arr(RingItems(ring)), [93] + [125]) == [91] + ([91] + RingTail(nf, ring));
    assert [91] + ([91] + ([91] + RingTail(nf, ring))) == [91, 91, 91] + RingTail(nf, ring);
  }

  lemma RingText(nf: Numbers, ring: seq<Position>)
    requires ring != []
    ensures Printable(RingDocument(ring))
    ensures PrintTo(nf, RingDocument(ring), []) == Head(POLYGON_TYPE) + ([91, 91, 91] + RingTail(nf, ring))
  {
    KeysPlain();
    NestedText(nf, ring);
    DocumentText(nf, POLYGON_TYPE, Arr([Arr(RingItems(ring))]));
  }

  lemma RectTail(nf: Numbers, g: Shape)
    requires g.Rect?
    ensures AsGeoJson(nf, g) == Ascii("{\"type\":\"Polygon\",\"coordinates\":[[[") + RingTail(nf, Around(g, 0, false))
  {
    AroundIs(g, 0, false);
    var a, b, c, d := (g.xmin, g.ymin), (g.xmax, g.ymin), (g.xmax, g.ymax), (g.xmin, g.ymax);
    assert Around(g, 0, false) == [a, b, c, d, a];
    assert [a, b, c, d, a][1..] == [b, c, d, a] && [b, c, d, a][1..] == [c, d, a] && [c, d, a][1..] == [d, a];
    assert [d, a][1..] == [a];
    assert RingTail(nf, [a]) == OpenPosition(nf, a, Ascii("]]]}"));
    assert RingTail(nf, [d, a]) == OpenPosition(nf, d, Ascii("],[") + RingTail(nf, [a]));
    assert RingTail(nf, [c, d, a]) == OpenPosition(nf, c, Ascii("],[") + RingTail(nf, [d, a]));
    assert RingTail(nf, [b, c, d, a]) == OpenPosition(nf, b, Ascii("],[") + RingTail(nf, [c, d, a]));
  }

  lemma RectText(nf: Numbers, g: Shape)
    requires g.Rect?
    ensures Printable(RingDocument(Around(g, 0, false)))
    ensures AsGeoJson(nf, g) == PrintTo(nf, RingDocument(Around(g, 0, false)), [])
  {
    var ring := Around(g, 0, false);
    RectTail(nf, g);
    RingText(nf, ring);
    PolygonHead();
    Assoc(Head(POLYGON_TYPE), [91, 91, 91], RingTail(nf, ring));
  }

  /** The rectangle with its corners put in order. */
  function Ordered(g: Shape): Shape {
    match g
    case Point(_, _) => g
    case Rect(xmin, ymin, xmax, ymax) =>
      Rect(Min(xmin, xmax), Min(ymin, ymax), Max(xmin, xmax), Max(ymin, ymax))
  }

  lemma OrderedRing(g: Shape)
    requires g.Rect?
    ensures RectOfRing(Around(g, 0, false), MalformedGeoJson) == Ok(Ordered(g))
  {
    AroundIs(g, 0, false);
  }

  lemma RectRoundTrip(nf: Numbers, g: Shape)
    requires Faithful(nf) && g.Rect?
    ensures ParseGeoJson(nf, AsGeoJson(nf, g)) == Ok(Ordered(g))
  {
    RectText(nf, g);
    PolygonIsRing(nf, Around(g, 0, false));
    OrderedRing(g);
  }

  lemma PointRoundTrip(nf: Numbers, p: Position)
    requires Faithful(nf)
    ensures ParseGeoJson(nf, AsGeoJson(nf, Point(p.0, p.1))) == Ok(Point(p.0, p.1))
  {
    PointText(nf, p);
    PrintedShape(nf, Document(POINT_TYPE, PositionValue(p)));
    PointShape(p);
  }

  /** Printing then parsing puts a rectangle's corners in order, so it gives the shape back exactly when they were. */
  lemma GeoJsonRoundTrip(nf: Numbers, g: Shape)
    requires Faithful(nf)
    ensures ParseGeoJson(nf, AsGeoJson(nf, g)) == Ok(Ordered(g))
    ensures ParseGeoJson(nf, AsGeoJson(nf, g)) == Ok(g) <==> Proper(g)
  {
    if g.Rect? { RectRoundTrip(nf, g); } else { PointRoundTrip(nf, (g.x, g.y)); }
  }

  /** A closed ring round a rectangle, from any corner and either way round, is that rectangle in both syntaxes. */
  lemma BothReadRings(nf: Numbers, g: Shape, start: nat, clockwise: bool)
    requires Faithful(nf) && g.Rect? && Proper(g) && start < 4
    ensures var ring := Around(g, start, clockwise);
      && ParseWkt(nf, PolygonText(nf, ring)) == Ok(g)
      && Printable(RingDocument(ring)) && ParseGeoJson(nf, PrintTo(nf, RingDocument(ring), [])) == Ok(g)
  {
    var ring := Around(g, start, clockwise);
    Wkt.PolygonIsRing(nf, ring);
    PolygonIsRing(nf, ring);
    RingGivesRect(g, start, clockwise, MalformedWkt);
    RingGivesRect(g, start, clockwise, MalformedGeoJson);
  }
}
