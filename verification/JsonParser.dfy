/** The recursive-descent JSON parser over a moving position, and the GeoJSON reader on top of it. */
module JsonParser {
  import opened Prelude
  import opened Text
  import opened Geometry
  import opened Wkt
  import opened Json
  import opened JsonLaws
  import opened GeoJson
  import opened GeoCursor

  // ---------- Strings ----------

  ghost predicate IsText(p: Parsed<Bytes>, s: Bytes) { p == ParseText(s) }

  /** With `done` read, the string at `s` completes `all`. */
  ghost predicate TextPending(all: Parsed<Bytes>, done: Bytes, s: Bytes) {
    forall p :: IsText(p, s) ==> all == Prepend(done, p)
  }

  lemma TextStart(s: Bytes)
    ensures TextPending(ParseText(s), [], s)
  {
    var p := ParseText(s);
    if p.Ok? { assert [] + p.value.0 == p.value.0; }
  }

  lemma TextStep(all: Parsed<Bytes>, done: Bytes, s: Bytes, front: Bytes, next: Bytes)
    requires TextPending(all, done, s) && ParseText(s) == Prepend(front, ParseText(next))
    ensures TextPending(all, done + front, next)
  {
    assert IsText(ParseText(s), s);
    var p := ParseText(next);
    if p.Ok? { assert done + (front + p.value.0) == (done + front) + p.value.0; }
  }

  lemma TextStops(all: Parsed<Bytes>, done: Bytes, s: Bytes)
    requires TextPending(all, done, s)
    ensures ParseText(s).Err? ==> all == Err(ParseText(s).error)
    ensures StartsWith(s, 34) ==> all == Ok((done, s[1..]))
  {
    assert IsText(ParseText(s), s);
    if StartsWith(s, 34) { assert done + [] == done; }
  }

  method ReadHex4(c: Cursor) returns (code: Option<nat>)
    requires c.Valid()
    modifies c
    ensures c.Valid() && c.pos >= old(c.pos) && code == Hex4(old(c.Rest()))
    ensures code.Some? ==> c.pos == old(c.pos) + 4
  {
    ghost var s := c.Rest();
    var value := 0;
    for i := 0 to 4
      invariant c.Valid() && c.pos == old(c.pos) + i
      invariant HexPrefix(s, i) == Some(value)
    {
      if c.pos >= |c.input| { return None; }
      var digit := HexDigit(c.input[c.pos]);
      if digit.None? { return None; }
      c.pos := c.pos + 1;
      value := value * 16 + digit.value;
    }
    HexPrefixIs(s);
    code := Some(value);
  }

  /** The value of the first `n` hexadecimal digits. */
  function HexPrefix(s: Bytes, n: nat): Option<nat> {
    if n == 0 then Some(0)
    else if n > |s| || HexPrefix(s, n - 1).None? || HexDigit(s[n - 1]).None? then None
    else Some(HexPrefix(s, n - 1).value * 16 + HexDigit(s[n - 1]).value)
  }

  lemma HexPrefixIs(s: Bytes)
    requires HexPrefix(s, 4).Some?
    ensures Hex4(s) == HexPrefix(s, 4)
  {
    assert HexPrefix(s, 3).Some? && HexPrefix(s, 2).Some? && HexPrefix(s, 1).Some?;
  }

  method ReadEscape(c: Cursor) returns (front: Option<Bytes>)
    requires c.Valid() && StartsWith(c.Rest(), 92)
    modifies c
    ensures c.Valid() && |c.Rest()| < |old(c.Rest())|
    ensures front.Some? ==> ParseText(old(c.Rest())) == Prepend(front.value, ParseText(c.Rest()))
    ensures front.None? ==> ParseText(old(c.Rest())) == Err(MalformedGeoJson)
  {
    ghost var s := c.Rest();
    c.Advance();
    if c.pos >= |c.input| { return None; }
    var esc := c.input[c.pos];
    c.Advance();
    assert c.Rest() == s[2..];
    if esc == 117 {
      var code := ReadHex4(c);
      if code.None? || CharBytes(code.value).None? { return None; }
      assert c.Rest() == s[6..];
      front := CharBytes(code.value);
    } else if Escape(esc).None? {
      front := None;
    } else {
      front := Some([Escape(esc).value]);
    }
  }

  /** A run of bytes beyond ASCII, taken as it is if it is well-formed. */
  method ReadHigh(c: Cursor) returns (front: Option<Bytes>)
    requires c.Valid() && c.Rest() != [] && c.Rest()[0] >= 0x80
    modifies c
    ensures c.Valid() && |c.Rest()| < |old(c.Rest())|
    ensures front.Some? ==> ParseText(old(c.Rest())) == Prepend(front.value, ParseText(c.Rest()))
    ensures front.None? ==> ParseText(old(c.Rest())) == Err(MalformedGeoJson)
  {
    ghost var s := c.Rest();
    var start := c.pos;
    c.pos := c.pos + 1;
    while c.pos < |c.input| && c.input[c.pos] != 34 && c.input[c.pos] != 92 && c.input[c.pos] >= 0x80
      invariant c.Valid() && start < c.pos
      invariant HighEnd(s, c.pos - start) == HighEnd(s, 1)
      decreases |c.input| - c.pos
    {
      c.pos := c.pos + 1;
    }
    var text := c.input[start..c.pos];
    ghost var end := c.pos - start;
    assert HighEnd(s, 1) == end && text == s[..end] && c.Rest() == s[end..];
    front := if ValidUtf8(text) then Some(text) else None;
  }

  /** One character or escape: `None` to go on, the result to stop. */
  method ReadTextStep(c: Cursor, out: Bytes, ghost all: Parsed<Bytes>)
    returns (longer: Bytes, stop: Option<Result<Bytes, GeoError>>)
    requires c.Valid() && TextPending(all, out, c.Rest())
    modifies c
    ensures c.Valid()
    ensures stop.None? ==> |c.Rest()| < |old(c.Rest())| && TextPending(all, longer, c.Rest())
    ensures stop.Some? ==> Follows(all, stop.value, c.Rest())
  {
    longer := out;
    ghost var s := c.Rest();
    TextStops(all, out, s);
    if c.pos >= |c.input| { return longer, Some(Err(MalformedGeoJson)); }
    var b := c.input[c.pos];
    assert b == s[0];
    var front: Option<Bytes>;
    if b == 34 {
      c.Advance();
      return longer, Some(Ok(out));
    } else if b == 92 {
      front := ReadEscape(c);
    } else if b < 0x20 {
      front := None;
    } else if b >= 0x80 {
      front := ReadHigh(c);
    } else {
      c.Advance();
      front := Some([b]);
    }
    if front.None? { return longer, Some(Err(MalformedGeoJson)); }
    TextStep(all, out, s, front.value, c.Rest());
    longer := out + front.value;
    stop := None;
  }

  method ReadText(c: Cursor) returns (r: Result<Bytes, GeoError>)
    requires c.Valid() && StartsWith(c.Rest(), 34)
    modifies c
    ensures c.Valid() && Follows(ParseText(old(c.Rest())[1..]), r, c.Rest())
  {
    c.Advance();
    ghost var all := ParseText(c.Rest());
    TextStart(c.Rest());
    var out: Bytes := [];
    while true
      invariant c.Valid() && TextPending(all, out, c.Rest())
      decreases |c.Rest()|
    {
      var longer, stop := ReadTextStep(c, out, all);
      if stop.Some? { return stop.value; }
      out := longer;
    }
  }

  // ---------- Values ----------

  method ReadNum(c: Cursor, nf: Numbers) returns (r: Result<Value, GeoError>)
    requires c.Valid()
    modifies c
    ensures c.Valid() && Follows(ParseNum(nf, old(c.Rest())), r, c.Rest())
  {
    var start := c.pos;
    ghost var t := c.Rest();
    var ok := c.EatNumber(false);
    if !ok { return Err(MalformedGeoJson); }
    ghost var end := ScanNumber(t, false).value;
    assert c.input[start..c.pos] == t[..end] && c.Rest() == t[end..];
    match nf.read(c.input[start..c.pos])
    case Some(n) => r := Ok(Num(n));
    case None => r := Err(MalformedGeoJson);
  }

  method ReadWord(c: Cursor, word: Bytes, v: Value) returns (r: Result<Value, GeoError>)
    requires c.Valid() && word != []
    modifies c
    ensures c.Valid() && Follows(ParseWord(old(c.Rest()), word, v), r, c.Rest())
  {
    if !(word <= c.input[c.pos..]) { return Err(MalformedGeoJson); }
    ghost var s := c.Rest();
    c.pos := c.pos + |word|;
    assert c.Rest() == s[|word|..];
    r := Ok(v);
  }

  method ReadValue(c: Cursor, nf: Numbers) returns (r: Result<Value, GeoError>)
    requires c.Valid()
    modifies c
    ensures c.Valid() && Follows(ParseValue(nf, old(c.Rest())), r, c.Rest())
    decreases |c.Rest()|, 2
  {
    c.SkipWs(false);
    if c.pos >= |c.input| { return Err(MalformedGeoJson); }
    var b := c.input[c.pos];
    assert b == c.Rest()[0];
    if b == 123 {
      r := ReadObject(c, nf);
    } else if b == 91 {
      r := ReadArray(c, nf);
    } else {
      r := ReadScalar(c, nf, b);
    }
  }

  method ReadScalar(c: Cursor, nf: Numbers, b: U8) returns (r: Result<Value, GeoError>)
    requires c.Valid() && StartsWith(c.Rest(), b) && !IsSpace(b, false) && b != 123 && b != 91
    modifies c
    ensures c.Valid() && Follows(ParseValue(nf, old(c.Rest())), r, c.Rest())
  {
    if b == 34 {
      var text :- ReadText(c);
      r := Ok(Str(text));
    } else if b == 116 {
      r := ReadWord(c, Ascii("true"), Bool(true));
    } else if b == 102 {
      r := ReadWord(c, Ascii("false"), Bool(false));
    } else if b == 110 {
      r := ReadWord(c, Ascii("null"), Null);
    } else if b == 45 || IsDigit(b) {
      r := ReadNum(c, nf);
    } else {
      r := Err(MalformedGeoJson);
    }
  }

  method ReadArray(c: Cursor, nf: Numbers) returns (r: Result<Value, GeoError>)
    requires c.Valid() && c.Rest() != []
    modifies c
    ensures c.Valid() && Follows(ParseArray(nf, old(c.Rest())), r, c.Rest())
    decreases |c.Rest()|, 1
  {
    c.Advance();
    c.SkipWs(false);
    c.PeekIs(93);
    if c.Peek() == Some(93) {
      c.Advance();
      return Ok(Arr([]));
    }
    var items :- ReadItems(c, nf);
    r := Ok(Arr(items));
  }

  ghost predicate ItemsPending(nf: Numbers, all: Parsed<seq<Value>>, done: seq<Value>, s: Bytes) {
    forall p :: IsItems(p, nf, s) ==> all == Prepend(done, p)
  }

  lemma ItemsStart(nf: Numbers, s: Bytes)
    ensures ItemsPending(nf, ParseItems(nf, s), [], s)
  {
    PrependNothing(ParseItems(nf, s));
  }

  lemma ItemsFail(nf: Numbers, all: Parsed<seq<Value>>, done: seq<Value>, s: Bytes)
    requires ItemsPending(nf, all, done, s)
    requires ParseValue(nf, s).Ok? ==>
      var t := SkipSpace(ParseValue(nf, s).value.1, false); !StartsWith(t, 44) && !StartsWith(t, 93)
    ensures all == Err(if ParseValue(nf, s).Err? then ParseValue(nf, s).error else MalformedGeoJson)
  {
    assert IsItems(ParseItems(nf, s), nf, s);
  }

  lemma ItemsGoOn(nf: Numbers, all: Parsed<seq<Value>>, done: seq<Value>, s: Bytes, v: Value, s1: Bytes)
    requires ItemsPending(nf, all, done, s) && ParseValue(nf, s) == Ok((v, s1))
    requires StartsWith(SkipSpace(s1, false), 44)
    ensures ItemsPending(nf, all, done + [v], SkipSpace(s1, false)[1..])
  {
    assert IsItems(ParseItems(nf, s), nf, s);
    var next := ParseItems(nf, SkipSpace(s1, false)[1..]);
    assert ParseItems(nf, s) == Prepend([v], next);
    PrependStep(done, v, next);
  }

  lemma ItemsEnd(nf: Numbers, all: Parsed<seq<Value>>, done: seq<Value>, s: Bytes, v: Value, s1: Bytes)
    requires ItemsPending(nf, all, done, s) && ParseValue(nf, s) == Ok((v, s1))
    requires StartsWith(SkipSpace(s1, false), 93)
    ensures all == Ok((done + [v], SkipSpace(s1, false)[1..]))
  {
    assert IsItems(ParseItems(nf, s), nf, s);
  }

  method ReadItemsStep(c: Cursor, nf: Numbers, items: seq<Value>, ghost all: Parsed<seq<Value>>)
    returns (longer: seq<Value>, stop: Option<Result<seq<Value>, GeoError>>)
    requires c.Valid() && ItemsPending(nf, all, items, c.Rest())
    modifies c
    ensures c.Valid()
    ensures stop.None? ==> |c.Rest()| < |old(c.Rest())| && ItemsPending(nf, all, longer, c.Rest())
    ensures stop.Some? ==> Follows(all, stop.value, c.Rest())
    decreases |c.Rest()|, 3
  {
    longer := items;
    ghost var s := c.Rest();
    var v := ReadValue(c, nf);
    if v.Err? {
      ItemsFail(nf, all, items, s);
      return longer, Some(Err(v.error));
    }
    ghost var s1 := c.Rest();
    longer := items + [v.value];
    c.SkipWs(false);
    c.PeekIs(44);
    c.PeekIs(93);
    if c.Peek() == Some(44) {
      ItemsGoOn(nf, all, items, s, v.value, s1);
      c.Advance();
      stop := None;
    } else if c.Peek() == Some(93) {
      ItemsEnd(nf, all, items, s, v.value, s1);
      c.Advance();
      stop := Some(Ok(longer));
    } else {
      ItemsFail(nf, all, items, s);
      stop := Some(Err(MalformedGeoJson));
    }
  }

  method ReadItems(c: Cursor, nf: Numbers) returns (r: Result<seq<Value>, GeoError>)
    requires c.Valid()
    modifies c
    ensures c.Valid() && Follows(ParseItems(nf, old(c.Rest())), r, c.Rest())
    decreases |c.Rest()|, 4
  {
    ghost var all, size := ParseItems(nf, c.Rest()), |c.Rest()|;
    ItemsStart(nf, c.Rest());
    var items: seq<Value> := [];
    while true
      invariant c.Valid() && |c.Rest()| <= size && ItemsPending(nf, all, items, c.Rest())
      decreases |c.Rest()|
    {
      var longer, stop := ReadItemsStep(c, nf, items, all);
      if stop.Some? { return stop.value; }
      items := longer;
    }
  }

  method ReadObject(c: Cursor, nf: Numbers) returns (r: Result<Value, GeoError>)
    requires c.Valid() && c.Rest() != []
    modifies c
    ensures c.Valid() && Follows(ParseObject(nf, old(c.Rest())), r, c.Rest())
    decreases |c.Rest()|, 1
  {
    c.Advance();
    c.SkipWs(false);
    c.PeekIs(125);
    if c.Peek() == Some(125) {
      c.Advance();
      return Ok(Obj([]));
    }
    var fields :- ReadFields(c, nf);
    r := Ok(Obj(fields));
  }

  method ReadKey(c: Cursor) returns (r: Result<Bytes, GeoError>)
    requires c.Valid()
    modifies c
    ensures c.Valid() && Follows(ParseKey(old(c.Rest())), r, c.Rest())
  {
    c.SkipWs(false);
    c.PeekIs(34);
    if c.Peek() != Some(34) { return Err(MalformedGeoJson); }
    var key :- ReadText(c);
    c.SkipWs(false);
    c.PeekIs(58);
    if c.Peek() != Some(58) { return Err(MalformedGeoJson); }
    c.Advance();
    r := Ok(key);
  }

  ghost predicate FieldsPending(nf: Numbers, all: Parsed<seq<Member>>, done: seq<Member>, s: Bytes) {
    forall p :: IsFields(p, nf, s) ==> all == Prepend(done, p)
  }

  lemma FieldsStart(nf: Numbers, s: Bytes)
    ensures FieldsPending(nf, ParseFields(nf, s), [], s)
  {
    PrependNothing(ParseFields(nf, s));
  }

  /** The field at the front of `s`, before what separates it from the next. */
  ghost function ParseField(nf: Numbers, s: Bytes): Parsed<Member> {
    var (key, u) :- ParseKey(s);
    var (v, r) :- ParseValue(nf, u);
    Ok((Member(key, v), r))
  }

  lemma FieldsFail(nf: Numbers, all: Parsed<seq<Member>>, done: seq<Member>, s: Bytes)
    requires FieldsPending(nf, all, done, s)
    requires ParseField(nf, s).Ok? ==>
      var t := SkipSpace(ParseField(nf, s).value.1, false); !StartsWith(t, 44) && !StartsWith(t, 125)
    ensures all == Err(if ParseField(nf, s).Err? then ParseField(nf, s).error else MalformedGeoJson)
  {
    assert IsFields(ParseFields(nf, s), nf, s);
  }

  lemma FieldsGoOn(nf: Numbers, all: Parsed<seq<Member>>, done: seq<Member>, s: Bytes, f: Member, s1: Bytes)
    requires FieldsPending(nf, all, done, s) && ParseField(nf, s) == Ok((f, s1))
    requires StartsWith(SkipSpace(s1, false), 44)
    ensures FieldsPending(nf, all, done + [f], SkipSpace(s1, false)[1..])
  {
    assert IsFields(ParseFields(nf, s), nf, s);
    var next := ParseFields(nf, SkipSpace(s1, false)[1..]);
    assert ParseFields(nf, s) == Prepend([f], next);
    PrependStep(done, f, next);
  }

  lemma FieldsEnd(nf: Numbers, all: Parsed<seq<Member>>, done: seq<Member>, s: Bytes, f: Member, s1: Bytes)
    requires FieldsPending(nf, all, done, s) && ParseField(nf, s) == Ok((f, s1))
    requires StartsWith(SkipSpace(s1, false), 125)
    ensures all == Ok((done + [f], SkipSpace(s1, false)[1..]))
  {
    assert IsFields(ParseFields(nf, s), nf, s);
  }

  method ReadField(c: Cursor, nf: Numbers) returns (r: Result<Member, GeoError>)
    requires c.Valid()
    modifies c
    ensures c.Valid() && Follows(ParseField(nf, old(c.Rest())), r, c.Rest())
    decreases |c.Rest()|, 3
  {
    var key :- ReadKey(c);
    var v :- ReadValue(c, nf);
    r := Ok(Member(key, v));
  }

  method ReadFieldsStep(c: Cursor, nf: Numbers, fields: seq<Member>, ghost all: Parsed<seq<Member>>)
    returns (longer: seq<Member>, stop: Option<Result<seq<Member>, GeoError>>)
    requires c.Valid() && FieldsPending(nf, all, fields, c.Rest())
    modifies c
    ensures c.Valid()
    ensures stop.None? ==> |c.Rest()| < |old(c.Rest())| && FieldsPending(nf, all, longer, c.Rest())
    ensures stop.Some? ==> Follows(all, stop.value, c.Rest())
    decreases |c.Rest()|, 4
  {
    longer := fields;
    ghost var s := c.Rest();
    var f := ReadField(c, nf);
    if f.Err? {
      FieldsFail(nf, all, fields, s);
      return longer, Some(Err(f.error));
    }
    ghost var s1 := c.Rest();
    longer := fields + [f.value];
    c.SkipWs(false);
    c.PeekIs(44);
    c.PeekIs(125);
    if c.Peek() == Some(44) {
      FieldsGoOn(nf, all, fields, s, f.value, s1);
      c.Advance();
      stop := None;
    } else if c.Peek() == Some(125) {
      FieldsEnd(nf, all, fields, s, f.value, s1);
      c.Advance();
      stop := Some(Ok(longer));
    } else {
      FieldsFail(nf, all, fields, s);
      stop := Some(Err(MalformedGeoJson));
    }
  }

  method ReadFields(c: Cursor, nf: Numbers) returns (r: Result<seq<Member>, GeoError>)
    requires c.Valid()
    modifies c
    ensures c.Valid() && Follows(ParseFields(nf, old(c.Rest())), r, c.Rest())
    decreases |c.Rest()|, 5
  {
    ghost var all, size := ParseFields(nf, c.Rest()), |c.Rest()|;
    FieldsStart(nf, c.Rest());
    var fields: seq<Member> := [];
    while true
      invariant c.Valid() && |c.Rest()| <= size && FieldsPending(nf, all, fields, c.Rest())
      decreases |c.Rest()|
    {
      var longer, stop := ReadFieldsStep(c, nf, fields, all);
      if stop.Some? { return stop.value; }
      fields := longer;
    }
  }

  method ReadGeoJson(nf: Numbers, input: Bytes) returns (r: Result<Shape, GeoError>)
    ensures r == ParseGeoJson(nf, input)
  {
    var c := new Cursor(input);
    c.SkipWs(false);
    var v :- ReadValue(c, nf);
    c.SkipWs(false);
    c.PeekIs(0);
    if c.Peek().Some? { return Err(MalformedGeoJson); }
    r := ShapeOf(v);
  }
}
