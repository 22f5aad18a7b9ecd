/** The JSON parser reads back every printed value, wherever it stands. */
module JsonLaws {
  import opened Prelude
  import opened Text
  import opened Geometry
  import opened Wkt
  import opened Json

  // What each parser gives, named so that lemmas can pass results along without unfolding the parser.

  ghost predicate IsValue(p: Parsed<Value>, nf: Numbers, s: Bytes) { p == ParseValue(nf, s) }

  ghost predicate IsItems(p: Parsed<seq<Value>>, nf: Numbers, s: Bytes) { p == ParseItems(nf, s) }

  ghost predicate IsFields(p: Parsed<seq<Member>>, nf: Numbers, s: Bytes) { p == ParseFields(nf, s) }

  ghost predicate IsKey(p: Parsed<Bytes>, s: Bytes) { p == ParseKey(s) }

  ghost predicate ValueAt(nf: Numbers, s: Bytes, v: Value, rest: Bytes) {
    forall p :: IsValue(p, nf, s) ==> p == Ok((v, rest))
  }

  ghost predicate ItemsAt(nf: Numbers, s: Bytes, items: seq<Value>, rest: Bytes) {
    forall p :: IsItems(p, nf, s) ==> p == Ok((items, rest))
  }

  ghost predicate FieldsAt(nf: Numbers, s: Bytes, fields: seq<Member>, rest: Bytes) {
    forall p :: IsFields(p, nf, s) ==> p == Ok((fields, rest))
  }

  ghost predicate KeyAt(s: Bytes, key: Bytes, rest: Bytes) {
    forall p :: IsKey(p, s) ==> p == Ok((key, rest))
  }

  lemma Skip(s: Bytes)
    requires s != [] && !IsSpace(s[0], false)
    ensures SkipSpace(s, false) == s
  {
  }

  /** What can be printed: everything but numbers that are not finite and text that is not well-formed. */
  lemma PrintableIff(v: Value)
    ensures !Printable(v) <==>
      match v
      case Num(n) => n == Infinite
      case Str(text) => !ValidUtf8(text)
      case Arr(items) => exists i :: 0 <= i < |items| && !Printable(items[i])
      case Obj(fields) => exists i :: 0 <= i < |fields| && (!ValidUtf8(fields[i].key) || !Printable(fields[i].value))
      case Bool(_) => false
      case Null => false
  {
  }

  // ---------- Scalars ----------

  /** What a string at the front of `s` reads as. */
  ghost predicate TextAt(s: Bytes, text: Bytes, rest: Bytes) { ParseText(s) == Ok((text, rest)) }

  lemma HexRead(n: nat)
    requires n < 16
    ensures HexDigit(LowerHex(n)) == Some(n)
  {
  }

  lemma ControlCode(c: Bytes)
    requires c != [] && CharWidth(c) == |c| && IsControl(c)
    ensures CharBytes(c[|c| - 1]) == Some(c)
  {
    if |c| == 1 {
      assert c == [c[0]];
    } else {
      assert c[1] / 64 == 2 && c[1] % 64 == c[1] - 128;
      assert c == [0xC2, c[1]];
    }
  }

  lemma ControlRead(c: Bytes, s: Bytes, text: Bytes, rest: Bytes)
    requires c != [] && CharWidth(c) == |c| && IsControl(c) && TextAt(s, text, rest)
    ensures var code := c[|c| - 1];
      TextAt([92, 117, 48, 48, LowerHex(code / 16), LowerHex(code % 16)] + s, c + text, rest)
  {
    var code := c[|c| - 1];
    var t := [92, 117, 48, 48, LowerHex(code / 16), LowerHex(code % 16)] + s;
    HexRead(0);
    HexRead(code / 16);
    HexRead(code % 16);
    ControlCode(c);
    assert t[2..][0] == 48 && t[2..][1] == 48;
    assert Hex4(t[2..]) == Some(code);
    assert t[6..] == s;
  }

  lemma EscapeRead(e: U8, b: U8, s: Bytes, text: Bytes, rest: Bytes)
    requires Escape(e) == Some(b) && e != 117 && TextAt(s, text, rest)
    ensures TextAt([92, e] + s, [b] + text, rest)
  {
    assert ([92, e] + s)[2..] == s;
  }

  lemma PlainRead(b: U8, s: Bytes, text: Bytes, rest: Bytes)
    requires 0x20 <= b < 0x80 && b != 34 && b != 92 && TextAt(s, text, rest)
    ensures TextAt([b] + s, [b] + text, rest)
  {
    assert ([b] + s)[1..] == s;
  }

  lemma {:induction false} HighEndIs(s: Bytes, i: nat, j: nat)
    requires i <= j <= |s| && (forall k :: i <= k < j ==> s[k] >= 0x80) && (j < |s| ==> s[j] < 0x80)
    ensures HighEnd(s, i) == j
    decreases j - i
  {
    if i < j { HighEndIs(s, i + 1, j); }
  }

  lemma {:induction false} HighEndRun(s: Bytes, i: nat)
    requires i <= |s|
    ensures var j := HighEnd(s, i); (forall k :: i <= k < j ==> s[k] >= 0x80) && (j < |s| ==> s[j] < 0x80)
    decreases |s| - i
  {
    if i < |s| && s[i] >= 0x80 { HighEndRun(s, i + 1); }
  }

  lemma CharFront(c: Bytes, s: Bytes)
    requires c != [] && CharWidth(c) == |c|
    ensures CharWidth(c + s) == |c|
    ensures ValidUtf8(s) ==> ValidUtf8(c + s)
    ensures |c| > 1 ==> forall k :: 0 <= k < |c| ==> c[k] >= 0x80
  {
    assert (c + s)[|c|..] == s;
  }

  /** The run that a wide character begins is that character and the run after it. */
  lemma WideRun(c: Bytes, s: Bytes)
    requires |c| > 1 && CharWidth(c) == |c| && s != []
    ensures HighEnd(c + s, 1) == |c| + (if s[0] >= 0x80 then HighEnd(s, 1) else 0)
  {
    var t, end := c + s, if s[0] >= 0x80 then HighEnd(s, 1) else 0;
    CharFront(c, s);
    HighEndRun(s, 1);
    forall k | 1 <= k < |c| + end ensures t[k] >= 0x80 {
      if k >= |c| { assert t[k] == s[k - |c|]; }
    }
    if |c| + end < |t| { assert t[|c| + end] == s[end]; }
    HighEndIs(t, 1, |c| + end);
  }

  /** A wide character in front is read, whatever run of them follows. */
  lemma WideRead(c: Bytes, s: Bytes, text: Bytes, rest: Bytes)
    requires |c| > 1 && CharWidth(c) == |c| && s != [] && TextAt(s, text, rest)
    ensures TextAt(c + s, c + text, rest)
  {
    var t, end := c + s, if s[0] >= 0x80 then HighEnd(s, 1) else 0;
    CharFront(c, s);
    WideRun(c, s);
    CharFront(c, s[..end]);
    CharFront(c, []);
    assert t[..|c| + end] == c + s[..end] && t[|c| + end..] == s[end..];
    assert c + [] == c;
    if s[0] < 0x80 {
      assert t[..|c|] == c && t[|c|..] == s;
    } else {
      var p := ParseText(s[end..]);
      assert p.Ok? && text == s[..end] + p.value.0;
      Assoc(c, s[..end], p.value.0);
    }
  }

  lemma CharRead(c: Bytes, s: Bytes, text: Bytes, rest: Bytes)
    requires c != [] && CharWidth(c) == |c| && s != [] && TextAt(s, text, rest)
    ensures TextAt(EscapedChar(c) + s, c + text, rest)
  {
    if c == [92] { EscapeRead(92, 92, s, text, rest); }
    else if c == [34] { EscapeRead(34, 34, s, text, rest); }
    else if c == [10] { EscapeRead(110, 10, s, text, rest); }
    else if c == [13] { EscapeRead(114, 13, s, text, rest); }
    else if c == [9] { EscapeRead(116, 9, s, text, rest); }
    else if IsControl(c) { ControlRead(c, s, text, rest); }
    else if |c| == 1 {
      assert c == [c[0]];
      PlainRead(c[0], s, text, rest);
    } else { WideRead(c, s, text, rest); }
  }

  lemma FirstChar(text: Bytes)
    requires text != [] && CharWidth(text) > 0
    ensures var n := CharWidth(text); CharWidth(text[..n]) == n
  {
  }

  /** Every well-formed text is read back from its escaped form. */
  lemma {:induction false} TextRead(text: Bytes, rest: Bytes)
    requires ValidUtf8(text)
    ensures TextAt(Escaped(text) + ([34] + rest), text, rest)
  {
    if text == [] {
      assert Escaped(text) + ([34] + rest) == [34] + rest && ([34] + rest)[1..] == rest;
    } else {
      var n := CharWidth(text);
      var c, more := text[..n], text[n..];
      TextRead(more, rest);
      FirstChar(text);
      CharRead(c, Escaped(more) + ([34] + rest), more, rest);
      Assoc(EscapedChar(c), Escaped(more), [34] + rest);
      assert c + more == text;
    }
  }

  lemma {:induction false} EscapedPlain(text: Bytes)
    requires Plain(text)
    ensures ValidUtf8(text) && Escaped(text) == text
  {
    if text != [] {
      EscapedPlain(text[1..]);
      assert text[..1] == [text[0]] && EscapedChar(text[..1]) == text[..1];
      assert text[..1] + text[1..] == text;
    }
  }

  lemma QuotedRead(text: Bytes, rest: Bytes)
    requires ValidUtf8(text)
    ensures SkipSpace(Quoted(text, rest), false) == Quoted(text, rest)
    ensures ParseText(Quoted(text, rest)[1..]) == Ok((text, rest))
  {
    Skip(Quoted(text, rest));
    assert Quoted(text, rest)[1..] == Escaped(text) + ([34] + rest);
    TextRead(text, rest);
  }

  lemma StrRead(nf: Numbers, text: Bytes, rest: Bytes)
    requires ValidUtf8(text)
    ensures ValueAt(nf, Quoted(text, rest), Str(text), rest)
  {
    QuotedRead(text, rest);
  }

  lemma KeyRead(key: Bytes, rest: Bytes)
    requires ValidUtf8(key)
    ensures KeyAt(Quoted(key, [58] + rest), key, rest)
  {
    QuotedRead(key, [58] + rest);
    Skip([58] + rest);
    assert ([58] + rest)[1..] == rest;
  }

  lemma NumRead(nf: Numbers, x: Coord, rest: Bytes)
    requires Faithful(nf) && Stops(rest)
    ensures ValueAt(nf, nf.show(x) + rest, Num(Finite(x)), rest)
  {
    var s := nf.show(x) + rest;
    ShownStart(nf, x);
    Skip(s);
    ScanStops(nf.show(x), rest, false);
    assert s[..|nf.show(x)|] == nf.show(x) && s[|nf.show(x)|..] == rest;
  }

  lemma WordRead(s: Bytes, word: Bytes, v: Value, rest: Bytes)
    requires word != [] && s == word + rest
    ensures ParseWord(s, word, v) == Ok((v, rest))
  {
  }

  lemma NullRead(nf: Numbers, rest: Bytes)
    ensures ValueAt(nf, Ascii("null") + rest, Null, rest)
  {
    var s := Ascii("null") + rest;
    Skip(s);
    WordRead(s, Ascii("null"), Null, rest);
  }

  lemma BoolRead(nf: Numbers, truth: bool, rest: Bytes)
    ensures ValueAt(nf, (if truth then Ascii("true") else Ascii("false")) + rest, Bool(truth), rest)
  {
    var word := if truth then Ascii("true") else Ascii("false");
    var s := word + rest;
    Skip(s);
    WordRead(s, word, Bool(truth), rest);
  }

  // ---------- Lists ----------

  lemma PrintStart(nf: Numbers, v: Value, rest: Bytes)
    requires Faithful(nf) && Printable(v)
    ensures var s := PrintTo(nf, v, rest); s != [] && !IsSpace(s[0], false) && s[0] != 93 && s[0] != 125
  {
    if v.Num? { ShownStart(nf, v.number.x); }
  }

  lemma ItemsLast(nf: Numbers, s: Bytes, v: Value, rest: Bytes)
    requires ValueAt(nf, s, v, [93] + rest)
    ensures ItemsAt(nf, s, [v], rest)
  {
    assert IsValue(ParseValue(nf, s), nf, s);
    Skip([93] + rest);
    assert ([93] + rest)[1..] == rest;
  }

  lemma ItemsMore(nf: Numbers, s: Bytes, v: Value, inner: Bytes, items: seq<Value>, rest: Bytes)
    requires ValueAt(nf, s, v, [44] + inner) && ItemsAt(nf, inner, items, rest)
    ensures ItemsAt(nf, s, [v] + items, rest)
  {
    assert IsValue(ParseValue(nf, s), nf, s) && IsItems(ParseItems(nf, inner), nf, inner);
    Skip([44] + inner);
    assert ([44] + inner)[1..] == inner;
  }

  lemma ArrayRead(nf: Numbers, inner: Bytes, items: seq<Value>, rest: Bytes)
    requires ItemsAt(nf, inner, items, rest) && inner != [] && !IsSpace(inner[0], false) && inner[0] != 93
    ensures ValueAt(nf, [91] + inner, Arr(items), rest)
  {
    assert IsItems(ParseItems(nf, inner), nf, inner);
    Skip([91] + inner);
    Skip(inner);
    assert ([91] + inner)[1..] == inner;
    assert ParseArray(nf, [91] + inner) == Ok((Arr(items), rest));
  }

  lemma EmptyArrayRead(nf: Numbers, rest: Bytes)
    ensures ValueAt(nf, [91] + ([93] + rest), Arr([]), rest)
  {
    Skip([91] + ([93] + rest));
    Skip([93] + rest);
    assert ([91] + ([93] + rest))[1..] == [93] + rest && ([93] + rest)[1..] == rest;
    assert ParseArray(nf, [91] + ([93] + rest)) == Ok((Arr([]), rest));
  }

  lemma FieldsLast(nf: Numbers, s: Bytes, key: Bytes, u: Bytes, v: Value, rest: Bytes)
    requires KeyAt(s, key, u) && ValueAt(nf, u, v, [125] + rest)
    ensures FieldsAt(nf, s, [Member(key, v)], rest)
  {
    assert IsKey(ParseKey(s), s) && IsValue(ParseValue(nf, u), nf, u);
    Skip([125] + rest);
    assert ([125] + rest)[1..] == rest;
  }

  lemma FieldsMore(
      nf: Numbers, s: Bytes, key: Bytes, u: Bytes, v: Value, inner: Bytes, fields: seq<Member>, rest: Bytes)
    requires KeyAt(s, key, u) && ValueAt(nf, u, v, [44] + inner) && FieldsAt(nf, inner, fields, rest)
    ensures FieldsAt(nf, s, [Member(key, v)] + fields, rest)
  {
    assert IsKey(ParseKey(s), s) && IsValue(ParseValue(nf, u), nf, u) && IsFields(ParseFields(nf, inner), nf, inner);
    Skip([44] + inner);
    assert ([44] + inner)[1..] == inner;
  }

  lemma ObjectRead(nf: Numbers, inner: Bytes, fields: seq<Member>, rest: Bytes)
    requires FieldsAt(nf, inner, fields, rest) && inner != [] && !IsSpace(inner[0], false) && inner[0] != 125
    ensures ValueAt(nf, [123] + inner, Obj(fields), rest)
  {
    assert IsFields(ParseFields(nf, inner), nf, inner);
    Skip([123] + inner);
    Skip(inner);
    assert ([123] + inner)[1..] == inner;
    assert ParseObject(nf, [123] + inner) == Ok((Obj(fields), rest));
  }

  lemma EmptyObjectRead(nf: Numbers, rest: Bytes)
    ensures ValueAt(nf, [123] + ([125] + rest), Obj([]), rest)
  {
    Skip([123] + ([125] + rest));
    Skip([125] + rest);
    assert ([123] + ([125] + rest))[1..] == [125] + rest && ([125] + rest)[1..] == rest;
    assert ParseObject(nf, [123] + ([125] + rest)) == Ok((Obj([]), rest));
  }

  // ---------- Every printed value ----------

  lemma {:induction false} ValueRead(nf: Numbers, v: Value, rest: Bytes)
    requires Faithful(nf) && Printable(v) && Stops(rest)
    ensures ValueAt(nf, PrintTo(nf, v, rest), v, rest)
    decreases v
  {
    match v
    case Null => NullRead(nf, rest);
    case Bool(truth) => BoolRead(nf, truth, rest);
    case Num(n) => NumRead(nf, n.x, rest);
    case Str(text) => StrRead(nf, text, rest);
    case Arr(items) =>
      if items == [] {
        EmptyArrayRead(nf, rest);
      } else {
        ItemsRead(nf, items, rest);
        PrintStart(nf, items[0], if |items| == 1 then [93] + rest else [44] + ItemsTo(nf, items[1..], [93] + rest));
        ArrayRead(nf, ItemsTo(nf, items, [93] + rest), items, rest);
      }
    case Obj(fields) =>
      if fields == [] {
        EmptyObjectRead(nf, rest);
      } else {
        FieldsRead(nf, fields, rest);
        ObjectRead(nf, FieldsTo(nf, fields, [125] + rest), fields, rest);
      }
  }

  lemma {:induction false} ItemsRead(nf: Numbers, items: seq<Value>, rest: Bytes)
    requires Faithful(nf) && items != [] && forall i :: 0 <= i < |items| ==> Printable(items[i])
    ensures ItemsAt(nf, ItemsTo(nf, items, [93] + rest), items, rest)
    decreases items
  {
    var s := ItemsTo(nf, items, [93] + rest);
    if |items| == 1 {
      ValueRead(nf, items[0], [93] + rest);
      ItemsLast(nf, s, items[0], rest);
      assert [items[0]] == items;
    } else {
      var inner := ItemsTo(nf, items[1..], [93] + rest);
      ItemsRead(nf, items[1..], rest);
      ValueRead(nf, items[0], [44] + inner);
      ItemsMore(nf, s, items[0], inner, items[1..], rest);
      assert [items[0]] + items[1..] == items;
    }
  }

  lemma {:induction false} FieldsRead(nf: Numbers, fields: seq<Member>, rest: Bytes)
    requires Faithful(nf) && fields != []
    requires forall i :: 0 <= i < |fields| ==> ValidUtf8(fields[i].key) && Printable(fields[i].value)
    ensures FieldsAt(nf, FieldsTo(nf, fields, [125] + rest), fields, rest)
    decreases fields
  {
    var s := FieldsTo(nf, fields, [125] + rest);
    var key, v := fields[0].key, fields[0].value;
    assert fields[0] == Member(key, v);
    if |fields| == 1 {
      var u := PrintTo(nf, v, [125] + rest);
      ValueRead(nf, v, [125] + rest);
      KeyRead(key, u);
      FieldsLast(nf, s, key, u, v, rest);
      assert [fields[0]] == fields;
    } else {
      var inner := FieldsTo(nf, fields[1..], [125] + rest);
      var u := PrintTo(nf, v, [44] + inner);
      FieldsRead(nf, fields[1..], rest);
      ValueRead(nf, v, [44] + inner);
      KeyRead(key, u);
      FieldsMore(nf, s, key, u, v, inner, fields[1..], rest);
      assert [fields[0]] + fields[1..] == fields;
    }
  }

  /**
   * Parsing inverts printing, and stops right after the value: well-formed text, finite numbers, any nesting.
   */
  lemma JsonRoundTrip(nf: Numbers, v: Value, rest: Bytes)
    requires Faithful(nf) && Printable(v) && Stops(rest)
    ensures ParseValue(nf, PrintTo(nf, v, rest)) == Ok((v, rest))
  {
    ValueRead(nf, v, rest);
    assert IsValue(ParseValue(nf, PrintTo(nf, v, rest)), nf, PrintTo(nf, v, rest));
  }
}
