/** Points, rectangles, closed rings, and the number tokens both syntaxes share. */
module Geometry {
  import opened Prelude
  import opened CanonicalSpec

  /** A finite coordinate, as its place in the numeric order of finite numbers: only order and equality matter. */
  type Coord = int

  datatype Shape = Point(x: Coord, y: Coord) | Rect(xmin: Coord, ymin: Coord, xmax: Coord, ymax: Coord)

  predicate Proper(g: Shape) { g.Rect? ==> g.xmin <= g.xmax && g.ymin <= g.ymax }

  datatype GeoError = MalformedWkt | MalformedGeoJson | UnsupportedCrs(crs: Bytes) | UnsupportedShape

  type Parsed<+T> = Result<(T, Bytes), GeoError>

  type Position = (Coord, Coord)

  // ---------- Rings ----------

  predicate AxisAligned(p: seq<Position>)
    requires |p| == 5
  {
    || (p[1].1 == p[0].1 && p[2].0 == p[1].0 && p[3].1 == p[2].1 && p[3].0 == p[0].0)
    || (p[1].0 == p[0].0 && p[2].1 == p[1].1 && p[3].0 == p[2].0 && p[3].1 == p[0].1)
  }

  /** The rectangle of a closed ring of five positions; `malformed` is the syntax's own error. */
  function RectOfRing(p: seq<Position>, malformed: GeoError): Result<Shape, GeoError> {
    if |p| != 5 then Err(malformed)
    else if p[0] != p[4] then Err(malformed)
    else if !AxisAligned(p) then Err(UnsupportedShape)
    else Ok(Rect(Min(p[0].0, p[2].0), Min(p[0].1, p[2].1), Max(p[0].0, p[2].0), Max(p[0].1, p[2].1)))
  }

  /** Corner `i` counter-clockwise from the lower left. */
  function Corner(g: Shape, i: nat): Position
    requires g.Rect? && i < 4
  {
    if i == 0 then (g.xmin, g.ymin)
    else if i == 1 then (g.xmax, g.ymin)
    else if i == 2 then (g.xmax, g.ymax)
    else (g.xmin, g.ymax)
  }

  /** Once around the rectangle from corner `start`, back to it. */
  function Around(g: Shape, start: nat, clockwise: bool): seq<Position>
    requires g.Rect? && start < 4
  {
    var step := if clockwise then 3 else 1;
    seq(5, i requires 0 <= i < 5 => Corner(g, (start + step * i) % 4))
  }

  lemma AroundIs(g: Shape, start: nat, clockwise: bool)
    requires g.Rect? && start < 4
    ensures Around(g, start, clockwise) ==
      if clockwise then
        [Corner(g, start), Corner(g, (start + 3) % 4), Corner(g, (start + 2) % 4), Corner(g, (start + 1) % 4),
         Corner(g, start)]
      else
        [Corner(g, start), Corner(g, (start + 1) % 4), Corner(g, (start + 2) % 4), Corner(g, (start + 3) % 4),
         Corner(g, start)]
  {
  }

  /** From any corner, either way round, the ring gives its rectangle. */
  lemma RingGivesRect(g: Shape, start: nat, clockwise: bool, malformed: GeoError)
    requires g.Rect? && Proper(g) && start < 4
    ensures RectOfRing(Around(g, start, clockwise), malformed) == Ok(g)
  {
    AroundIs(g, start, clockwise);
    var p := Around(g, start, clockwise);
    if start == 0 {
      assert p[0] == (g.xmin, g.ymin) && p[2] == (g.xmax, g.ymax);
    } else if start == 1 {
      assert p[0] == (g.xmax, g.ymin) && p[2] == (g.xmin, g.ymax);
    } else if start == 2 {
      assert p[0] == (g.xmax, g.ymax) && p[2] == (g.xmin, g.ymin);
    } else {
      assert p[0] == (g.xmin, g.ymax) && p[2] == (g.xmax, g.ymin);
    }
  }

  /** And only such rings give a rectangle: whatever ring is accepted goes once around the result. */
  lemma RectComesFromRing(p: seq<Position>, malformed: GeoError) returns (start: nat, clockwise: bool)
    requires RectOfRing(p, malformed).Ok?
    ensures var g := RectOfRing(p, malformed).value;
      g.Rect? && Proper(g) && start < 4 && p == Around(g, start, clockwise)
  {
    var g := RectOfRing(p, malformed).value;
    var (x0, y0) := p[0];
    start := if x0 == g.xmin then (if y0 == g.ymin then 0 else 3) else if y0 == g.ymin then 1 else 2;
    var flat := p[1].1 == p[0].1 && p[2].0 == p[1].0 && p[3].1 == p[2].1 && p[3].0 == p[0].0;
    clockwise := if flat then start == 1 || start == 3 else start == 0 || start == 2;
    assert Corner(g, start) == p[0];
    AroundIs(g, start, clockwise);
  }

  /** What is refused: a ring of other than five positions, an open one, and a closed one round no rectangle. */
  lemma RingRefused(p: seq<Position>, malformed: GeoError)
    ensures |p| != 5 || p[0] != p[4] ==> RectOfRing(p, malformed) == Err(malformed)
    ensures |p| == 5 && p[0] == p[4] && (forall g: Shape, start: nat, clockwise ::
              g.Rect? && Proper(g) && start < 4 ==> p != Around(g, start, clockwise)) ==>
      RectOfRing(p, malformed) == Err(UnsupportedShape)
  {
    if RectOfRing(p, malformed).Ok? { var start, clockwise := RectComesFromRing(p, malformed); }
  }

  // ---------- Number tokens ----------

  predicate IsDigit(b: U8) { 48 <= b <= 57 }

  predicate At(s: Bytes, i: nat, b: U8) { i < |s| && s[i] == b }

  /** Where the digits from position `i` on end. */
  function DigitEnd(s: Bytes, i: nat): (j: nat)
    ensures j >= i && (i <= |s| ==> j <= |s|)
    decreases |s| - i
  {
    if i < |s| && IsDigit(s[i]) then DigitEnd(s, i + 1) else i
  }

  function SignEnd(s: Bytes, i: nat, plus: bool): (j: nat)
    ensures j >= i && (i <= |s| ==> j <= |s|)
  {
    if At(s, i, 45) || (plus && At(s, i, 43)) then i + 1 else i
  }

  /** Where the point and the digits after it end. */
  function FractionEnd(s: Bytes, i: nat): (j: nat)
    ensures j >= i && (i <= |s| ==> j <= |s|)
  {
    if At(s, i, 46) then DigitEnd(s, i + 1) else i
  }

  function ExponentEnd(s: Bytes, i: nat): (j: Option<nat>)
    ensures j.Some? && i <= |s| ==> i <= j.value <= |s|
  {
    if At(s, i, 101) || At(s, i, 69) then
      var from := SignEnd(s, i + 1, true);
      if DigitEnd(s, from) == from then None else Some(DigitEnd(s, from))
    else Some(i)
  }

  /** End of the number at the front. WKT also takes a leading `+`, and needs digits on one side of the point only. */
  function ScanNumber(s: Bytes, wkt: bool): (n: Option<nat>)
    ensures n.Some? ==> 0 < n.value <= |s|
  {
    var a := SignEnd(s, 0, wkt);
    var whole := DigitEnd(s, a);
    var fraction := FractionEnd(s, whole);
    if (if wkt then whole == a && fraction <= whole + 1 else whole == a || fraction == whole + 1) then None
    else ExponentEnd(s, fraction)
  }

  /** Nothing that could go on a number. */
  predicate Stops(rest: Bytes) {
    rest == [] || (!IsDigit(rest[0]) && rest[0] != 46 && rest[0] != 101 && rest[0] != 69)
  }

  lemma AtFront(s: Bytes, rest: Bytes, i: nat, b: U8)
    requires i < |s| || (i == |s| && !StartsWith(rest, b))
    ensures At(s + rest, i, b) == At(s, i, b)
  {
  }

  lemma {:induction false} DigitEndStops(s: Bytes, rest: Bytes, i: nat)
    requires i <= |s| && Stops(rest)
    ensures DigitEnd(s + rest, i) == DigitEnd(s, i)
    decreases |s| - i
  {
    if i < |s| && IsDigit(s[i]) { DigitEndStops(s, rest, i + 1); }
  }

  lemma FractionStops(s: Bytes, rest: Bytes, i: nat)
    requires i <= |s| && Stops(rest)
    ensures FractionEnd(s + rest, i) == FractionEnd(s, i)
  {
    AtFront(s, rest, i, 46);
    if At(s, i, 46) { DigitEndStops(s, rest, i + 1); }
  }

  /** Where digits must come next, a sign cannot be what follows the token. */
  lemma SignStops(s: Bytes, rest: Bytes, i: nat)
    requires i <= |s| && DigitEnd(s, SignEnd(s, i, true)) > SignEnd(s, i, true)
    ensures SignEnd(s + rest, i, true) == SignEnd(s, i, true) <= |s|
  {
    assert i < |s|;
  }

  lemma ExponentStops(s: Bytes, rest: Bytes, i: nat)
    requires i <= |s| && Stops(rest) && ExponentEnd(s, i).Some?
    ensures ExponentEnd(s + rest, i) == ExponentEnd(s, i)
  {
    AtFront(s, rest, i, 101);
    AtFront(s, rest, i, 69);
    if At(s, i, 101) || At(s, i, 69) {
      SignStops(s, rest, i + 1);
      DigitEndStops(s, rest, SignEnd(s, i + 1, true));
    }
  }

  lemma TokenStart(token: Bytes)
    requires ScanNumber(token, false).Some?
    ensures token != [] && (IsDigit(token[0]) || token[0] == 45)
  {
  }

  /** A complete JSON number is scanned to its end in either syntax, whatever harmless byte follows. */
  lemma ScanStops(token: Bytes, rest: Bytes, wkt: bool)
    requires ScanNumber(token, false) == Some(|token|) && Stops(rest)
    ensures ScanNumber(token + rest, wkt) == Some(|token|)
  {
    TokenStart(token);
    var a := SignEnd(token, 0, false);
    assert SignEnd(token + rest, 0, wkt) == a;
    DigitEndStops(token, rest, a);
    FractionStops(token, rest, DigitEnd(token, a));
    ExponentStops(token, rest, FractionEnd(token, DigitEnd(token, a)));
  }

  predicate StartsWith(s: Bytes, b: U8) { s != [] && s[0] == b }

  // ---------- Printing numbers ----------

  datatype Number = Finite(x: Coord) | Infinite

  /** How finite coordinates are shown, and what a number token reads as. */
  datatype Numbers = Numbers(show: Coord -> Bytes, read: Bytes -> Option<Number>)

  /** A shown coordinate is a complete JSON number that reads back as itself. */
  ghost predicate Faithful(nf: Numbers) {
    forall x :: ScanNumber(nf.show(x), false) == Some(|nf.show(x)|) && nf.read(nf.show(x)) == Some(Finite(x))
  }

  /** Such a number format exists, so nothing below holds emptily. */
  lemma FaithfulExists() returns (nf: Numbers)
    ensures Faithful(nf)
  {
    nf := Numbers(
      x => IntegerText(x),
      s => if exists x :: IntegerText(x) == s then Some(Finite(var x :| IntegerText(x) == s; x)) else None);
    forall x ensures ScanNumber(nf.show(x), false) == Some(|nf.show(x)|) && nf.read(nf.show(x)) == Some(Finite(x)) {
      IntegerScans(x);
      forall y | IntegerText(y) == IntegerText(x) ensures y == x { IntegerTextInjective(y, x); }
    }
  }

  lemma {:induction false} DigitsScan(n: nat)
    ensures forall i :: 0 <= i < |Digits(n)| ==> IsDigit(Digits(n)[i])
  {
    if n >= 10 { DigitsScan(n / 10); }
  }

  lemma {:induction false} AllDigits(s: Bytes, i: nat)
    requires i <= |s| && forall k :: i <= k < |s| ==> IsDigit(s[k])
    ensures DigitEnd(s, i) == |s|
    decreases |s| - i
  {
    if i < |s| { AllDigits(s, i + 1); }
  }

  lemma IntegerScans(x: Coord)
    ensures ScanNumber(IntegerText(x), false) == Some(|IntegerText(x)|)
  {
    var s := IntegerText(x);
    DigitsScan(if x < 0 then -x else x);
    AllDigits(s, SignEnd(s, 0, false));
  }

  lemma ShownStart(nf: Numbers, x: Coord)
    requires Faithful(nf)
    ensures nf.show(x) != [] && (IsDigit(nf.show(x)[0]) || nf.show(x)[0] == 45)
  {
    TokenStart(nf.show(x));
  }

  // ---------- White space ----------

  predicate IsSpace(b: U8, wkt: bool) { b == 32 || b == 9 || b == 10 || b == 13 || (wkt && b == 12) }

  function SkipSpace(s: Bytes, wkt: bool): (r: Bytes)
    ensures |r| <= |s| && (r == [] || !IsSpace(r[0], wkt))
  {
    if s == [] || !IsSpace(s[0], wkt) then s else SkipSpace(s[1..], wkt)
  }
}
