/** The position both parsers move over the input, and the WKT parser on top of it. */
module GeoCursor {
  import opened Prelude
  import opened Geometry
  import opened Wkt

  class Cursor {
    const input: Bytes
    var pos: nat

    ghost predicate Valid()
      reads this
    {
      pos <= |input|
    }

    function Rest(): Bytes
      reads this
      requires Valid()
    {
      input[pos..]
    }

    constructor (input: Bytes)
      ensures Valid() && Rest() == input && this.input == input
    {
      this.input := input;
      pos := 0;
    }

    function Peek(): Option<U8>
      reads this
    {
      if pos < |input| then Some(input[pos]) else None
    }

    lemma PeekIs(b: U8)
      requires Valid()
      ensures Peek() == Some(b) <==> StartsWith(Rest(), b)
      ensures Peek() == None <==> Rest() == []
      ensures Peek().Some? ==> Peek().value == Rest()[0]
    {
    }

    method Advance()
      requires Valid() && Rest() != []
      modifies this
      ensures Valid() && pos == old(pos) + 1 && Rest() == old(Rest())[1..]
    {
      pos := pos + 1;
      assert input[pos..] == old(Rest())[1..];
    }

    method SkipWs(wkt: bool)
      requires Valid()
      modifies this
      ensures Valid() && Rest() == SkipSpace(old(Rest()), wkt) && pos >= old(pos)
    {
      while pos < |input| && IsSpace(input[pos], wkt)
        invariant Valid() && pos >= old(pos)
        invariant SkipSpace(Rest(), wkt) == SkipSpace(old(Rest()), wkt)
        decreases |input| - pos
      {
        assert Rest()[1..] == input[pos + 1..];
        pos := pos + 1;
      }
    }

    /** Move to the end of the digits, counting from `start`. */
    method EatDigits(start: nat)
      requires Valid() && start <= pos
      modifies this
      ensures Valid() && pos == start + DigitEnd(input[start..], old(pos) - start)
    {
      while pos < |input| && IsDigit(input[pos])
        invariant start <= pos && Valid()
        invariant DigitEnd(input[start..], pos - start) == DigitEnd(input[start..], old(pos) - start)
        decreases |input| - pos
      {
        pos := pos + 1;
      }
    }

    method EatSign(start: nat, plus: bool)
      requires Valid() && start <= pos
      modifies this
      ensures Valid() && pos == start + SignEnd(input[start..], old(pos) - start, plus)
    {
      if Peek() == Some(45) || (plus && Peek() == Some(43)) { pos := pos + 1; }
    }

    method EatFraction(start: nat)
      requires Valid() && start <= pos
      modifies this
      ensures Valid() && pos == start + FractionEnd(input[start..], old(pos) - start)
    {
      if Peek() == Some(46) {
        pos := pos + 1;
        EatDigits(start);
      }
    }

    method EatExponent(start: nat) returns (ok: bool)
      requires Valid() && start <= pos
      modifies this
      ensures Valid() && pos >= start
      ensures ok <==> ExponentEnd(input[start..], old(pos) - start).Some?
      ensures ok ==> pos == start + ExponentEnd(input[start..], old(pos) - start).value
    {
      ok := true;
      if Peek() == Some(101) || Peek() == Some(69) {
        pos := pos + 1;
        EatSign(start, true);
        var digits := pos;
        EatDigits(start);
        ok := pos != digits;
      }
    }

    /** Move over the number at the front, if there is one. */
    method EatNumber(wkt: bool) returns (ok: bool)
      requires Valid()
      modifies this
      ensures Valid() && pos >= old(pos)
      ensures ok <==> ScanNumber(old(Rest()), wkt).Some?
      ensures ok ==> pos == old(pos) + ScanNumber(old(Rest()), wkt).value
    {
      var start := pos;
      EatSign(start, wkt);
      var a := pos;
      EatDigits(start);
      var whole := pos;
      EatFraction(start);
      if if wkt then whole == a && pos <= whole + 1 else whole == a || pos == whole + 1 { return false; }
      ok := EatExponent(start);
    }
  }

  // ---------- WKT ----------

  method ExpectByte(c: Cursor, b: U8) returns (r: Result<(), GeoError>)
    requires c.Valid()
    modifies c
    ensures c.Valid() && Follows(Expect(old(c.Rest()), b), r, c.Rest())
  {
    c.SkipWs(true);
    c.PeekIs(b);
    if c.Peek() != Some(b) { return Err(MalformedWkt); }
    c.Advance();
    r := Ok(());
  }

  method ReadNumber(c: Cursor, nf: Numbers) returns (r: Result<Coord, GeoError>)
    requires c.Valid()
    modifies c
    ensures c.Valid() && Follows(ParseNumber(nf, old(c.Rest())), r, c.Rest())
  {
    c.SkipWs(true);
    var start := c.pos;
    ghost var t := c.Rest();
    var ok := c.EatNumber(true);
    if !ok { return Err(MalformedWkt); }
    ghost var end := ScanNumber(t, true).value;
    assert c.input[start..c.pos] == t[..end] && c.Rest() == t[end..];
    match nf.read(c.input[start..c.pos])
    case Some(Finite(x)) => r := Ok(x);
    case _ => r := Err(MalformedWkt);
  }

  method ReadPair(c: Cursor, nf: Numbers) returns (r: Result<Position, GeoError>)
    requires c.Valid()
    modifies c
    ensures c.Valid() && Follows(ParsePair(nf, old(c.Rest())), r, c.Rest())
  {
    var x :- ReadNumber(c, nf);
    var y :- ReadNumber(c, nf);
    r := Ok((x, y));
  }

  method ReadKeyword(c: Cursor) returns (r: Result<Keyword, GeoError>)
    requires c.Valid()
    modifies c
    ensures c.Valid() && Follows(ParseKeyword(old(c.Rest())), r, c.Rest())
  {
    var start := c.pos;
    ghost var t := c.Rest();
    while c.pos < |c.input| && IsAlpha(c.input[c.pos])
      invariant start <= c.pos && c.Valid()
      invariant AlphaEnd(t, c.pos - start) == AlphaEnd(t, 0)
      decreases |c.input| - c.pos
    {
      c.pos := c.pos + 1;
    }
    var end := c.pos - start;
    assert AlphaEnd(t, 0) == end;
    assert c.input[start..c.pos] == t[..end] && c.Rest() == t[end..];
    r := KeywordOf(UpperAll(c.input[start..c.pos]));
  }

  method ReadAngleIri(c: Cursor) returns (r: Result<Bytes, GeoError>)
    requires c.Valid() && StartsWith(c.Rest(), 60)
    modifies c
    ensures c.Valid() && Follows(ParseAngleIri(old(c.Rest())), r, c.Rest())
  {
    ghost var t := c.Rest();
    var open := c.pos;
    c.Advance();
    var start := c.pos;
    while c.pos < |c.input| && c.input[c.pos] != 62
      invariant start <= c.pos && c.Valid()
      invariant AngleEnd(t, c.pos - open) == AngleEnd(t, 1)
      decreases |c.input| - c.pos
    {
      c.pos := c.pos + 1;
    }
    var end := c.pos - open;
    assert AngleEnd(t, 1) == end;
    if c.pos == |c.input| { return Err(MalformedWkt); }
    var iri := c.input[start..c.pos];
    assert iri == t[1..end];
    c.pos := c.pos + 1;
    assert c.Rest() == t[end + 1..];
    r := Ok(iri);
  }
}
