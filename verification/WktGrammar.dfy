/** WKT texts, said without a parser, and that the parser accepts exactly those. */
module WktGrammar {
  import opened Prelude
  import opened Geometry
  import opened Wkt
  import opened NumberTokens

  // ---------- The grammar ----------

  /** Spaces, tabs, line feeds, form feeds and carriage returns. */
  ghost predicate Gap(w: Bytes) {
    forall i :: 0 <= i < |w| ==> w[i] == 32 || w[i] == 9 || w[i] == 10 || w[i] == 12 || w[i] == 13
  }

  /** White space and a finite number. */
  ghost predicate NumText(nf: Numbers, t: Bytes, x: Coord) {
    exists i :: 0 <= i <= |t| && Gap(t[..i]) && IsNumber(t[i..], true) && nf.read(t[i..]) == Some(Finite(x))
  }

  /** The numbers; white space between two is needed only where the first would go on. */
  ghost predicate NumbersText(nf: Numbers, t: Bytes, xs: seq<Coord>)
    requires xs != []
  {
    if |xs| == 1 then NumText(nf, t, xs[0])
    else
      exists i :: 0 <= i <= |t| && NumText(nf, t[..i], xs[0]) && NumbersText(nf, t[i..], xs[1..])
        && Ends(t[..i], t[i..])
  }

  ghost predicate PairText(nf: Numbers, t: Bytes, p: Position) { NumbersText(nf, t, [p.0, p.1]) }

  /** The positions of a ring and the bracket after them. */
  ghost predicate PositionsText(nf: Numbers, t: Bytes, ring: seq<Position>)
    requires ring != []
    decreases |ring|, 2
  {
    exists i, j :: 0 <= i <= j < |t| && RingSplit(nf, t, ring, i, j)
  }

  /** The first position ends at `i`, and white space after it at `j`. */
  ghost predicate RingSplit(nf: Numbers, t: Bytes, ring: seq<Position>, i: nat, j: nat)
    requires i <= j < |t| && ring != []
    decreases |ring|, 1
  {
    PairText(nf, t[..i], ring[0]) && Gap(t[i..j]) && RingEnd(nf, t[j..], ring)
  }

  ghost predicate RingEnd(nf: Numbers, t: Bytes, ring: seq<Position>)
    requires ring != []
    decreases |ring|, 0
  {
    if |ring| == 1 then t == [41] else StartsWith(t, 44) && PositionsText(nf, t[1..], ring[1..])
  }

  /** The closing bracket, with white space around it, and nothing else. */
  ghost predicate Closing(t: Bytes) {
    exists i :: 0 <= i < |t| && Gap(t[..i]) && t[i] == 41 && Gap(t[i + 1..])
  }

  /** Numbers and the closing bracket. */
  ghost predicate NumbersBody(nf: Numbers, t: Bytes, xs: seq<Coord>)
    requires xs != []
  {
    exists i :: 0 <= i <= |t| && NumbersText(nf, t[..i], xs) && Closing(t[i..])
  }

  /** A bracket, a ring with its own bracket, and the closing bracket. */
  ghost predicate RingBody(nf: Numbers, t: Bytes, ring: seq<Position>)
    requires ring != []
  {
    exists i, j :: 0 <= i < j <= |t| && RingBodySplit(nf, t, ring, i, j)
  }

  ghost predicate RingBodySplit(nf: Numbers, t: Bytes, ring: seq<Position>, i: nat, j: nat)
    requires i < j <= |t| && ring != []
  {
    Gap(t[..i]) && t[i] == 40 && PositionsText(nf, t[i + 1..j], ring) && Closing(t[j..])
  }

  /** The letters, in either case. */
  ghost predicate Spells(word: Bytes, name: Bytes) {
    && |word| == |name|
    && forall i :: 0 <= i < |word| ==> word[i] == name[i] || word[i] as int == name[i] as int + 32
  }

  /** White space, the keyword, white space and a bracket, and then the body. */
  ghost predicate Headed(t: Bytes, name: Bytes, body: Bytes) {
    exists i, j, k :: 0 <= i <= j <= k < |t| && Gap(t[..i]) && Spells(t[i..j], name) && Gap(t[j..k]) && t[k] == 40
      && t[k + 1..] == body
  }

  ghost predicate NumbersShape(nf: Numbers, t: Bytes, name: Bytes, xs: seq<Coord>)
    requires xs != []
  {
    exists body :: Headed(t, name, body) && NumbersBody(nf, body, xs)
  }

  ghost predicate PolygonShape(nf: Numbers, t: Bytes, ring: seq<Position>)
    requires ring != []
  {
    exists body :: Headed(t, Ascii("POLYGON"), body) && RingBody(nf, body, ring)
  }

  /** The text of a shape, without a reference system. */
  ghost predicate ShapeText(nf: Numbers, t: Bytes, g: Shape) {
    || (g.Point? && NumbersShape(nf, t, Ascii("POINT"), [g.x, g.y]))
    || (g.Rect? && Proper(g) && NumbersShape(nf, t, Ascii("ENVELOPE"), [g.xmin, g.ymin, g.xmax, g.ymax]))
    || (exists ring :: ring != [] && PolygonShape(nf, t, ring) && RectOfRing(ring, MalformedWkt) == Ok(g))
  }

  // ---------- White space ----------

  lemma {:induction false} SkipGap(w: Bytes, s: Bytes)
    requires Gap(w)
    ensures SkipSpace(w + s, true) == SkipSpace(s, true)
  {
    if w == [] {
      assert w + s == s;
    } else {
      SkipGap(w[1..], s);
      assert (w + s)[1..] == w[1..] + s;
    }
  }

  /** What is skipped is white space. */
  lemma {:induction false} SkippedGap(s: Bytes)
    ensures var n := |s| - |SkipSpace(s, true)|; Gap(s[..n]) && s[n..] == SkipSpace(s, true)
  {
    if s != [] && IsSpace(s[0], true) {
      SkippedGap(s[1..]);
      var n := |s| - |SkipSpace(s, true)|;
      assert s[..n] == [s[0]] + s[1..][..n - 1];
    }
  }

  lemma GapThen(w: Bytes, b: U8, rest: Bytes)
    requires Gap(w) && !IsSpace(b, true)
    ensures SkipSpace(w + ([b] + rest), true) == [b] + rest && ([b] + rest)[1..] == rest
  {
    SkipGap(w, [b] + rest);
    SkipNothing([b] + rest, true);
  }

  lemma Halves(s: Bytes, n: nat)
    requires n <= |s|
    ensures s[..n] + s[n..] == s
  {
  }

  // ---------- Numbers and pairs ----------

  /** The token at the end of a number's text ends where the text does. */
  lemma EndsLater(t: Bytes, i: nat, rest: Bytes)
    requires i <= |t| && Gap(t[..i]) && Ends(t, rest)
    ensures Ends(t[i..], rest)
  {
    if HasPoint(t) {
      assert forall k :: 0 <= k < i ==> t[..i][k] == t[k];
      var k :| 0 <= k < |t| && (t[k] == 46 || t[k] == 101 || t[k] == 69);
      assert t[i..][k - i] == t[k];
    }
  }

  ghost predicate NumAt(nf: Numbers, s: Bytes, x: Coord, rest: Bytes) { ParseNumber(nf, s) == Ok((x, rest)) }

  lemma TokenNotSpace(token: Bytes, rest: Bytes)
    requires IsNumber(token, true)
    ensures token != [] && SkipSpace(token + rest, true) == token + rest
  {
    NumberIsScanned(token, [], true);
    assert token + [] == token;
    SkipNothing(token + rest, true);
  }

  lemma TokenReads(nf: Numbers, token: Bytes, x: Coord, rest: Bytes)
    requires IsNumber(token, true) && nf.read(token) == Some(Finite(x)) && Ends(token, rest)
    ensures NumAt(nf, token + rest, x, rest)
  {
    TokenNotSpace(token, rest);
    NumberIsScanned(token, rest, true);
    assert (token + rest)[..|token|] == token && (token + rest)[|token|..] == rest;
  }

  lemma GapBefore(nf: Numbers, w: Bytes, s: Bytes, x: Coord, rest: Bytes)
    requires Gap(w) && NumAt(nf, s, x, rest)
    ensures NumAt(nf, w + s, x, rest)
  {
    SkipGap(w, s);
  }

  lemma NumReads(nf: Numbers, t: Bytes, x: Coord, rest: Bytes)
    requires NumText(nf, t, x) && Ends(t, rest)
    ensures NumAt(nf, t + rest, x, rest)
  {
    var i :| 0 <= i <= |t| && Gap(t[..i]) && IsNumber(t[i..], true) && nf.read(t[i..]) == Some(Finite(x));
    EndsLater(t, i, rest);
    TokenReads(nf, t[i..], x, rest);
    GapBefore(nf, t[..i], t[i..] + rest, x, rest);
    Rejoined(t, i, rest);
  }

  lemma Rejoined(t: Bytes, i: nat, rest: Bytes)
    requires i <= |t|
    ensures t[..i] + (t[i..] + rest) == t + rest
  {
  }

  // ---------- Lists of numbers ----------

  /** One number after the other is read from the front. */
  ghost predicate NumbersAt(nf: Numbers, s: Bytes, xs: seq<Coord>, rest: Bytes)
    decreases |xs|
  {
    if xs == [] then s == rest
    else
      var p := ParseNumber(nf, s);
      p.Ok? && p.value.0 == xs[0] && NumbersAt(nf, p.value.1, xs[1..], rest)
  }

  lemma FirstNumber(nf: Numbers, t: Bytes, xs: seq<Coord>) returns (i: nat)
    requires |xs| > 1 && NumbersText(nf, t, xs)
    ensures i <= |t| && NumText(nf, t[..i], xs[0]) && NumbersText(nf, t[i..], xs[1..]) && Ends(t[..i], t[i..])
  {
    i :| 0 <= i <= |t| && NumText(nf, t[..i], xs[0]) && NumbersText(nf, t[i..], xs[1..]) && Ends(t[..i], t[i..]);
  }

  lemma NumNotEmpty(nf: Numbers, t: Bytes, x: Coord)
    requires NumText(nf, t, x)
    ensures t != []
  {
    var i :| 0 <= i <= |t| && Gap(t[..i]) && IsNumber(t[i..], true) && nf.read(t[i..]) == Some(Finite(x));
    TokenNotSpace(t[i..], []);
  }

  lemma {:induction false} NumbersNotEmpty(nf: Numbers, t: Bytes, xs: seq<Coord>)
    requires xs != [] && NumbersText(nf, t, xs)
    ensures t != []
  {
    if |xs| == 1 {
      NumNotEmpty(nf, t, xs[0]);
    } else {
      var i := FirstNumber(nf, t, xs);
      NumNotEmpty(nf, t[..i], xs[0]);
    }
  }

  lemma EndsFront(token: Bytes, u: Bytes, rest: Bytes)
    requires u != [] && Ends(token, u)
    ensures Ends(token, u + rest)
  {
  }

  lemma {:induction false} NumbersRead(nf: Numbers, t: Bytes, xs: seq<Coord>, rest: Bytes)
    requires xs != [] && NumbersText(nf, t, xs) && Stops(rest)
    ensures NumbersAt(nf, t + rest, xs, rest)
    decreases |xs|
  {
    if |xs| == 1 {
      NumReads(nf, t, xs[0], rest);
    } else {
      var i := FirstNumber(nf, t, xs);
      NumbersNotEmpty(nf, t[i..], xs[1..]);
      EndsFront(t[..i], t[i..], rest);
      NumReads(nf, t[..i], xs[0], t[i..] + rest);
      NumbersRead(nf, t[i..], xs[1..], rest);
      Rejoined(t, i, rest);
    }
  }

  /** A number is read off the front: it is one, and where it ends is determined. */
  lemma NumTaken(nf: Numbers, s: Bytes) returns (n: nat)
    requires ParseNumber(nf, s).Ok?
    requires var r := ParseNumber(nf, s).value.1; r == [] || (r[0] != 101 && r[0] != 69)
    ensures n <= |s| && s[n..] == ParseNumber(nf, s).value.1
    ensures NumText(nf, s[..n], ParseNumber(nf, s).value.0) && Ends(s[..n], s[n..])
  {
    var t := SkipSpace(s, true);
    var m, k := |s| - |t|, ScanNumber(t, true).value;
    SkippedGap(s);
    ScannedIsNumber(t, true);
    n := m + k;
    TokenAt(s, m, k, t);
    ScannedEnds(t, true);
    EndsEarlier(s[..n], m, s[n..]);
  }

  lemma TokenAt(s: Bytes, m: nat, k: nat, t: Bytes)
    requires m <= |s| && t == s[m..] && k <= |t|
    ensures s[..m + k][..m] == s[..m] && s[..m + k][m..] == t[..k] && s[m + k..] == t[k..]
  {
  }

  lemma EndsEarlier(t: Bytes, i: nat, rest: Bytes)
    requires i <= |t| && Ends(t[i..], rest)
    ensures Ends(t, rest)
  {
    if HasPoint(t[i..]) {
      var k :| 0 <= k < |t[i..]| && (t[i..][k] == 46 || t[i..][k] == 101 || t[i..][k] == 69);
      assert t[i + k] == t[i..][k];
    }
  }

  /** What a number can be read from does not begin with an exponent. */
  lemma NumberStart(nf: Numbers, s: Bytes)
    requires ParseNumber(nf, s).Ok?
    ensures s != [] && s[0] != 101 && s[0] != 69
  {
    if s != [] && !IsSpace(s[0], true) { SkipNothing(s, true); }
  }

  lemma {:induction false} NumbersTaken(nf: Numbers, s: Bytes, xs: seq<Coord>, rest: Bytes) returns (n: nat)
    requires xs != [] && NumbersAt(nf, s, xs, rest) && Stops(rest)
    ensures n <= |s| && s[n..] == rest && NumbersText(nf, s[..n], xs)
    decreases |xs|
  {
    var r := ParseNumber(nf, s).value.1;
    if |xs| == 1 {
      n := NumTaken(nf, s);
    } else {
      NumberStart(nf, r);
      var i := NumTaken(nf, s);
      var k := NumbersTaken(nf, r, xs[1..], rest);
      n := i + k;
      NumbersJoin(nf, s, i, k, xs);
    }
  }

  lemma NumbersJoin(nf: Numbers, s: Bytes, i: nat, k: nat, xs: seq<Coord>)
    requires |xs| > 1 && i <= |s| && k <= |s[i..]|
    requires NumText(nf, s[..i], xs[0]) && Ends(s[..i], s[i..]) && NumbersText(nf, s[i..][..k], xs[1..])
    ensures s[i..][k..] == s[i + k..] && NumbersText(nf, s[..i + k], xs)
  {
    var t := s[..i + k];
    NumbersNotEmpty(nf, s[i..][..k], xs[1..]);
    assert t[..i] == s[..i] && t[i..] == s[i..][..k];
    assert t[i..][0] == s[i..][0];
  }
}
