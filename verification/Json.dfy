/** The in-tree JSON parser, and compact printing that it inverts. */
module Json {
  import opened Prelude
  import opened Text
  import opened Geometry
  import opened Wkt

  datatype Value =
    | Null
    | Bool(truth: bool)
    | Num(number: Number)
    | Str(text: Bytes)
    | Arr(items: seq<Value>)
    | Obj(fields: seq<Member>)

  datatype Member = Member(key: Bytes, value: Value)

  // ---------- Strings ----------

  /** Four hexadecimal digits at the front. */
  function Hex4(s: Bytes): Option<nat> {
    if |s| < 4 then None
    else
      match (HexDigit(s[0]), HexDigit(s[1]), HexDigit(s[2]), HexDigit(s[3]))
      case (Some(a), Some(b), Some(c), Some(d)) => Some(((a * 16 + b) * 16 + c) * 16 + d)
      case _ => None
  }

  /** UTF-8 of a code point below 2^16; surrogates are not characters. */
  function CharBytes(c: nat): Option<Bytes> {
    if c < 0x80 then Some([c])
    else if c < 0x800 then Some([0xC0 + c / 64, 0x80 + c % 64])
    else if 0xD800 <= c < 0xE000 || c >= 0x1_0000 then None
    else Some([0xE0 + c / 4096, 0x80 + c / 64 % 64, 0x80 + c % 64])
  }

  function Escape(b: U8): Option<U8> {
    match b
    case 34 => Some(34) case 92 => Some(92) case 47 => Some(47)
    case 98 => Some(8) case 102 => Some(12) case 110 => Some(10) case 114 => Some(13) case 116 => Some(9)
    case _ => None
  }

  function HighEnd(s: Bytes, i: nat): (j: nat)
    ensures j >= i && (i <= |s| ==> j <= |s|)
    decreases |s| - i
  {
    if i < |s| && s[i] >= 0x80 then HighEnd(s, i + 1) else i
  }

  /** The string whose opening quote has just been read. */
  function ParseText(s: Bytes): (p: Parsed<Bytes>)
    ensures p.Ok? ==> |p.value.1| < |s|
    decreases |s|
  {
    if s == [] then Err(MalformedGeoJson)
    else if s[0] == 34 then Ok(([], s[1..]))
    else if s[0] == 92 then
      if |s| < 2 then Err(MalformedGeoJson)
      else if s[1] == 117 then
        var code := Hex4(s[2..]);
        if code.None? || CharBytes(code.value).None? then Err(MalformedGeoJson)
        else Prepend(CharBytes(code.value).value, ParseText(s[6..]))
      else if Escape(s[1]).None? then Err(MalformedGeoJson)
      else Prepend([Escape(s[1]).value], ParseText(s[2..]))
    else if s[0] < 0x20 then Err(MalformedGeoJson)
    else if s[0] >= 0x80 then
      var end := HighEnd(s, 1);
      if !ValidUtf8(s[..end]) then Err(MalformedGeoJson) else Prepend(s[..end], ParseText(s[end..]))
    else Prepend([s[0]], ParseText(s[1..]))
  }

  // ---------- Values ----------

  function ParseNum(nf: Numbers, s: Bytes): (p: Parsed<Value>)
    ensures p.Ok? ==> |p.value.1| < |s|
  {
    var end := ScanNumber(s, false);
    if end.None? then Err(MalformedGeoJson)
    else
      match nf.read(s[..end.value])
      case Some(n) => Ok((Num(n), s[end.value..]))
      case None => Err(MalformedGeoJson)
  }

  function ParseWord(s: Bytes, word: Bytes, v: Value): (p: Parsed<Value>)
    requires word != []
    ensures p.Ok? ==> |p.value.1| < |s|
  {
    if word <= s then Ok((v, s[|word|..])) else Err(MalformedGeoJson)
  }

  function ParseValue(nf: Numbers, s: Bytes): (p: Parsed<Value>)
    ensures p.Ok? ==> |p.value.1| < |s|
    decreases |s|, 2
  {
    var t := SkipSpace(s, false);
    if t == [] then Err(MalformedGeoJson)
    else if t[0] == 123 then ParseObject(nf, t)
    else if t[0] == 91 then ParseArray(nf, t)
    else if t[0] == 34 then
      var (text, rest) :- ParseText(t[1..]);
      Ok((Str(text), rest))
    else if t[0] == 116 then ParseWord(t, Ascii("true"), Bool(true))
    else if t[0] == 102 then ParseWord(t, Ascii("false"), Bool(false))
    else if t[0] == 110 then ParseWord(t, Ascii("null"), Null)
    else if t[0] == 45 || IsDigit(t[0]) then ParseNum(nf, t)
    else Err(MalformedGeoJson)
  }

  function ParseArray(nf: Numbers, t: Bytes): (p: Parsed<Value>)
    requires t != []
    ensures p.Ok? ==> |p.value.1| < |t|
    decreases |t|, 1
  {
    var u := SkipSpace(t[1..], false);
    if StartsWith(u, 93) then Ok((Arr([]), u[1..]))
    else
      var (items, rest) :- ParseItems(nf, u);
      Ok((Arr(items), rest))
  }

  function ParseItems(nf: Numbers, u: Bytes): (p: Parsed<seq<Value>>)
    ensures p.Ok? ==> |p.value.1| < |u|
    decreases |u|, 3
  {
    var (v, r) :- ParseValue(nf, u);
    var t := SkipSpace(r, false);
    if StartsWith(t, 44) then
      var (items, rest) :- ParseItems(nf, t[1..]);
      Ok(([v] + items, rest))
    else if StartsWith(t, 93) then Ok(([v], t[1..]))
    else Err(MalformedGeoJson)
  }

  function ParseObject(nf: Numbers, t: Bytes): (p: Parsed<Value>)
    requires t != []
    ensures p.Ok? ==> |p.value.1| < |t|
    decreases |t|, 1
  {
    var u := SkipSpace(t[1..], false);
    if StartsWith(u, 125) then Ok((Obj([]), u[1..]))
    else
      var (fields, rest) :- ParseFields(nf, u);
      Ok((Obj(fields), rest))
  }

  /** A key and the colon after it. */
  function ParseKey(s: Bytes): (p: Parsed<Bytes>)
    ensures p.Ok? ==> |p.value.1| < |s|
  {
    var u := SkipSpace(s, false);
    if !StartsWith(u, 34) then Err(MalformedGeoJson)
    else
      var (key, r) :- ParseText(u[1..]);
      var t := SkipSpace(r, false);
      if !StartsWith(t, 58) then Err(MalformedGeoJson) else Ok((key, t[1..]))
  }

  function ParseFields(nf: Numbers, s: Bytes): (p: Parsed<seq<Member>>)
    ensures p.Ok? ==> |p.value.1| < |s|
    decreases |s|, 3
  {
    var (key, u) :- ParseKey(s);
    var (v, r) :- ParseValue(nf, u);
    var t := SkipSpace(r, false);
    if StartsWith(t, 44) then
      var (fields, rest) :- ParseFields(nf, t[1..]);
      Ok(([Member(key, v)] + fields, rest))
    else if StartsWith(t, 125) then Ok(([Member(key, v)], t[1..]))
    else Err(MalformedGeoJson)
  }

  // ---------- Printing ----------

  /** A string that needs no escape and no more than ASCII. */
  predicate Plain(text: Bytes) {
    forall i :: 0 <= i < |text| ==> 0x20 <= text[i] < 0x7F && text[i] != 34 && text[i] != 92
  }

  /** One character is a control character: below U+0020, or from U+007F to U+009F. */
  predicate IsControl(c: Bytes) {
    (|c| == 1 && (c[0] < 0x20 || c[0] == 0x7F)) || (|c| == 2 && c[0] == 0xC2 && c[1] < 0xA0)
  }

  function LowerHex(n: nat): U8
    requires n < 16
  {
    if n < 10 then 48 + n else 87 + n
  }

  /** One character as it stands in a string; the code of a control character is its last byte. */
  function EscapedChar(c: Bytes): Bytes
    requires c != []
  {
    if c == [92] then [92, 92]
    else if c == [34] then [92, 34]
    else if c == [10] then [92, 110]
    else if c == [13] then [92, 114]
    else if c == [9] then [92, 116]
    else if IsControl(c) then [92, 117, 48, 48, LowerHex(c[|c| - 1] / 16), LowerHex(c[|c| - 1] % 16)]
    else c
  }

  function Escaped(text: Bytes): Bytes
    requires ValidUtf8(text)
  {
    if text == [] then []
    else var n := CharWidth(text); EscapedChar(text[..n]) + Escaped(text[n..])
  }

  predicate Printable(v: Value) {
    match v
    case Num(n) => n.Finite?
    case Str(text) => ValidUtf8(text)
    case Arr(items) => forall i :: 0 <= i < |items| ==> Printable(items[i])
    case Obj(fields) => forall i :: 0 <= i < |fields| ==> ValidUtf8(fields[i].key) && Printable(fields[i].value)
    case _ => true
  }

  function Quoted(text: Bytes, rest: Bytes): Bytes
    requires ValidUtf8(text)
  {
    [34] + (Escaped(text) + ([34] + rest))
  }

  /** `v` printed without white space, followed by `rest`. */
  function PrintTo(nf: Numbers, v: Value, rest: Bytes): Bytes
    requires Printable(v)
    decreases v
  {
    match v
    case Null => Ascii("null") + rest
    case Bool(truth) => (if truth then Ascii("true") else Ascii("false")) + rest
    case Num(n) => nf.show(n.x) + rest
    case Str(text) => Quoted(text, rest)
    case Arr(items) => [91] + ItemsTo(nf, items, [93] + rest)
    case Obj(fields) => [123] + FieldsTo(nf, fields, [125] + rest)
  }

  function ItemsTo(nf: Numbers, items: seq<Value>, rest: Bytes): Bytes
    requires forall i :: 0 <= i < |items| ==> Printable(items[i])
    decreases items
  {
    if items == [] then rest
    else PrintTo(nf, items[0], if |items| == 1 then rest else [44] + ItemsTo(nf, items[1..], rest))
  }

  function FieldsTo(nf: Numbers, fields: seq<Member>, rest: Bytes): Bytes
    requires forall i :: 0 <= i < |fields| ==> ValidUtf8(fields[i].key) && Printable(fields[i].value)
    decreases fields
  {
    if fields == [] then rest
    else
      Quoted(fields[0].key, [58] + PrintTo(nf, fields[0].value,
        if |fields| == 1 then rest else [44] + FieldsTo(nf, fields[1..], rest)))
  }
}
