/** What the JSON parser accepts is a text of the grammar. */
module JsonAccepted {
  import opened Prelude
  import opened Geometry
  import opened Wkt
  import opened Json
  import opened JsonLaws
  import opened NumberTokens
  import opened JsonGrammar
  import opened JsonReading
  import opened JsonExact

  lemma Sub(s: Bytes, n: nat, i: nat, j: nat)
    requires i <= j <= n <= |s|
    ensures s[..n][i..j] == s[i..j] && s[..n][i..] == s[i..n] && s[..n][..i] == s[..i]
  {
  }

  lemma Later(s: Bytes, m: nat, n: nat)
    requires m <= |s| && n <= |s| - m
    ensures s[m..][n..] == s[m + n..] && s[m..][..n] == s[m..m + n]
  {
  }

  // ---------- Scalars ----------

  lemma StringTaken(t: Bytes, text: Bytes, rest: Bytes) returns (n: nat)
    requires StartsWith(t, 34) && TextAt(t[1..], text, rest)
    ensures n <= |t| && t[n..] == rest && QuotedText(t[..n], text)
  {
    TextSpelled(t[1..]);
    var u :| t[1..] == u + ([34] + rest) && CharsText(u, text);
    n := |u| + 2;
    QuotedAt(t, u, rest);
  }

  lemma QuotedAt(t: Bytes, u: Bytes, rest: Bytes)
    requires StartsWith(t, 34) && t[1..] == u + ([34] + rest)
    ensures var n := |u| + 2; n <= |t| && t[n..] == rest && t[0] == 34 == t[n - 1] && t[..n][1..n - 1] == u
  {
    assert t == [34] + t[1..];
    assert t == [34] + u + [34] + rest;
  }

  lemma WordTaken(t: Bytes, word: Bytes, v: Value)
    requires word != [] && ParseWord(t, word, v).Ok?
    ensures |word| <= |t| && t[..|word|] == word && ParseWord(t, word, v).value == (v, t[|word|..])
  {
  }

  lemma NumberTaken(nf: Numbers, t: Bytes) returns (n: nat)
    requires ParseNum(nf, t).Ok?
    ensures n <= |t| && t[n..] == ParseNum(nf, t).value.1 && BareText(nf, t[..n], ParseNum(nf, t).value.0)
  {
    n := ScanNumber(t, false).value;
    ScannedIsNumber(t, false);
  }

  /** A value that is neither an array nor an object. */
  lemma ScalarTaken(nf: Numbers, s: Bytes, v: Value, rest: Bytes) returns (n: nat)
    requires ValueAt(nf, s, v, rest)
    requires var t := SkipSpace(s, false); t != [] && t[0] != 123 && t[0] != 91
    ensures var t := SkipSpace(s, false); n <= |t| && t[n..] == rest && BareText(nf, t[..n], v)
  {
    assert IsValue(ParseValue(nf, s), nf, s);
    var t := SkipSpace(s, false);
    WordsAre();
    if t[0] == 34 {
      n := StringTaken(t, v.text, rest);
    } else if t[0] == 116 {
      WordTaken(t, Ascii("true"), Bool(true));
      n := 4;
    } else if t[0] == 102 {
      WordTaken(t, Ascii("false"), Bool(false));
      n := 5;
    } else if t[0] == 110 {
      WordTaken(t, Ascii("null"), Null);
      n := 4;
    } else {
      n := NumberTaken(nf, t);
    }
  }

  // ---------- What the parsers of lists have read ----------

  lemma NotEmpty(nf: Numbers, s: Bytes, v: Value, rest: Bytes)
    requires ValueAt(nf, s, v, rest)
    ensures SkipSpace(s, false) != []
  {
    assert IsValue(ParseValue(nf, s), nf, s);
  }

  lemma ArrayParts(nf: Numbers, s: Bytes, v: Value, rest: Bytes)
    requires ValueAt(nf, s, v, rest) && StartsWith(SkipSpace(s, false), 91)
    ensures var inner := SkipSpace(s, false)[1..];
      && v.Arr?
      && if StartsWith(SkipSpace(inner, false), 93) then v.items == [] && SkipSpace(inner, false)[1..] == rest
         else ItemsAt(nf, inner, v.items, rest)
  {
    assert IsValue(ParseValue(nf, s), nf, s);
    var t := SkipSpace(s, false);
    assert ParseValue(nf, s) == ParseArray(nf, t);
    SkipTwice(t[1..]);
    SameSkipped(nf, t[1..], SkipSpace(t[1..], false));
    assert ParseItems(nf, SkipSpace(t[1..], false)) == ParseItems(nf, t[1..]);
  }

  lemma ObjectParts(nf: Numbers, s: Bytes, v: Value, rest: Bytes)
    requires ValueAt(nf, s, v, rest) && StartsWith(SkipSpace(s, false), 123)
    ensures var inner := SkipSpace(s, false)[1..];
      && v.Obj?
      && if StartsWith(SkipSpace(inner, false), 125) then v.fields == [] && SkipSpace(inner, false)[1..] == rest
         else FieldsAt(nf, inner, v.fields, rest)
  {
    assert IsValue(ParseValue(nf, s), nf, s);
    var t := SkipSpace(s, false);
    assert ParseValue(nf, s) == ParseObject(nf, t);
    SkipTwice(t[1..]);
    assert ParseKey(SkipSpace(t[1..], false)) == ParseKey(t[1..]);
    assert ParseFields(nf, SkipSpace(t[1..], false)) == ParseFields(nf, t[1..]);
  }

  lemma ItemParts(nf: Numbers, u: Bytes, items: seq<Value>, rest: Bytes) returns (r: Bytes)
    requires ItemsAt(nf, u, items, rest)
    ensures items != [] && ValueAt(nf, u, items[0], r)
    ensures var t := SkipSpace(r, false);
      if |items| == 1 then StartsWith(t, 93) && t[1..] == rest
      else StartsWith(t, 44) && |t| <= |u| && ItemsAt(nf, t[1..], items[1..], rest)
  {
    assert IsItems(ParseItems(nf, u), nf, u);
    r := ParseValue(nf, u).value.1;
    var t := SkipSpace(r, false);
    if StartsWith(t, 44) {
      assert items == [items[0]] + ParseItems(nf, t[1..]).value.0;
      ItemsNotEmpty(nf, t[1..]);
    }
  }

  lemma ItemsNotEmpty(nf: Numbers, u: Bytes)
    ensures ParseItems(nf, u).Ok? ==> ParseItems(nf, u).value.0 != []
  {
  }

  lemma KeyParts(s: Bytes, key: Bytes, rest: Bytes) returns (r: Bytes)
    requires KeyAt(s, key, rest)
    ensures StartsWith(SkipSpace(s, false), 34) && TextAt(SkipSpace(s, false)[1..], key, r)
    ensures StartsWith(SkipSpace(r, false), 58) && SkipSpace(r, false)[1..] == rest
  {
    assert IsKey(ParseKey(s), s);
    r := ParseText(SkipSpace(s, false)[1..]).value.1;
  }

  lemma FieldParts(nf: Numbers, s: Bytes, fields: seq<Member>, rest: Bytes) returns (u: Bytes, r: Bytes)
    requires FieldsAt(nf, s, fields, rest)
    ensures fields != [] && KeyAt(s, fields[0].key, u) && ValueAt(nf, u, fields[0].value, r) && |u| <= |s|
    ensures var t := SkipSpace(r, false);
      if |fields| == 1 then StartsWith(t, 125) && t[1..] == rest
      else StartsWith(t, 44) && |t| <= |s| && FieldsAt(nf, t[1..], fields[1..], rest)
  {
    assert IsFields(ParseFields(nf, s), nf, s);
    u := ParseKey(s).value.1;
    r := ParseValue(nf, u).value.1;
    var t := SkipSpace(r, false);
    if StartsWith(t, 44) {
      assert fields == [fields[0]] + ParseFields(nf, t[1..]).value.0;
      FieldsNotEmpty(nf, t[1..]);
    }
  }

  lemma FieldsNotEmpty(nf: Numbers, s: Bytes)
    ensures ParseFields(nf, s).Ok? ==> ParseFields(nf, s).value.0 != []
  {
  }

  // ---------- Values ----------

  lemma AfterBlank(nf: Numbers, s: Bytes, k: nat, v: Value, rest: Bytes) returns (n: nat)
    requires var t := SkipSpace(s, false); k <= |t| && t[k..] == rest && BareText(nf, t[..k], v)
    ensures n <= |s| && s[n..] == rest && JsonText(nf, s[..n], v)
  {
    SkippedBlank(s);
    var m := |s| - |SkipSpace(s, false)|;
    n := m + k;
    Later(s, m, k);
    Sub(s, n, m, n);
  }

  /** White space and the closing byte after the opening one. */
  lemma ClosedAt(t: Bytes, b: U8) returns (n: nat)
    requires t != [] && StartsWith(SkipSpace(t[1..], false), b)
    ensures 0 < n <= |t| && t[n..] == SkipSpace(t[1..], false)[1..] && Closes(t[..n][1..], b)
  {
    SkippedBlank(t[1..]);
    var m := |t| - 1 - |SkipSpace(t[1..], false)|;
    n := m + 2;
    assert t[1..][m..] == t[m + 1..] && t[m + 1] == b;
    assert t[..n][1..][..m] == t[1..][..m];
  }

  /** White space from `i`, a byte, and what is after it. */
  lemma ByteAfter(s: Bytes, i: nat, b: U8) returns (j: nat)
    requires i <= |s| && StartsWith(SkipSpace(s[i..], false), b)
    ensures i <= j < |s| && Blank(s[i..j]) && s[j] == b && s[j + 1..] == SkipSpace(s[i..], false)[1..]
  {
    SkippedBlank(s[i..]);
    var m := |s| - i - |SkipSpace(s[i..], false)|;
    j := i + m;
    Later(s, i, m);
    assert s[j..] == SkipSpace(s[i..], false);
  }

  lemma {:induction false} ValueTaken(nf: Numbers, s: Bytes, v: Value, rest: Bytes) returns (n: nat)
    requires ValueAt(nf, s, v, rest)
    ensures n <= |s| && s[n..] == rest && JsonText(nf, s[..n], v)
    decreases |s|, 2
  {
    NotEmpty(nf, s, v, rest);
    var t := SkipSpace(s, false);
    var k: nat;
    if t[0] == 123 {
      k := ObjectTaken(nf, s, v, rest);
    } else if t[0] == 91 {
      k := ArrayTaken(nf, s, v, rest);
    } else {
      k := ScalarTaken(nf, s, v, rest);
    }
    n := AfterBlank(nf, s, k, v, rest);
  }

  lemma Opened(t: Bytes, k: nat)
    requires k < |t|
    ensures t[..k + 1][1..] == t[1..][..k] && t[k + 1..] == t[1..][k..]
  {
  }

  lemma {:induction false} ArrayTaken(nf: Numbers, s: Bytes, v: Value, rest: Bytes) returns (n: nat)
    requires ValueAt(nf, s, v, rest) && StartsWith(SkipSpace(s, false), 91)
    ensures var t := SkipSpace(s, false); n <= |t| && t[n..] == rest && BareText(nf, t[..n], v)
    decreases |s|, 1
  {
    var t := SkipSpace(s, false);
    ArrayParts(nf, s, v, rest);
    if StartsWith(SkipSpace(t[1..], false), 93) {
      n := ClosedAt(t, 93);
    } else {
      var k := ItemsTaken(nf, t[1..], v.items, rest);
      n := k + 1;
      Opened(t, k);
    }
  }

  lemma {:induction false} ObjectTaken(nf: Numbers, s: Bytes, v: Value, rest: Bytes) returns (n: nat)
    requires ValueAt(nf, s, v, rest) && StartsWith(SkipSpace(s, false), 123)
    ensures var t := SkipSpace(s, false); n <= |t| && t[n..] == rest && BareText(nf, t[..n], v)
    decreases |s|, 1
  {
    var t := SkipSpace(s, false);
    ObjectParts(nf, s, v, rest);
    if StartsWith(SkipSpace(t[1..], false), 125) {
      n := ClosedAt(t, 125);
    } else {
      var k := FieldsTaken(nf, t[1..], v.fields, rest);
      n := k + 1;
      Opened(t, k);
    }
  }

  lemma {:induction false} ItemsTaken(nf: Numbers, u: Bytes, items: seq<Value>, rest: Bytes) returns (n: nat)
    requires ItemsAt(nf, u, items, rest)
    ensures n <= |u| && u[n..] == rest && items != [] && ItemsText(nf, u[..n], items)
    decreases |u|, 3
  {
    var r := ItemParts(nf, u, items, rest);
    var i := ValueTaken(nf, u, items[0], r);
    if |items| == 1 {
      n := OneItem(nf, u, i, items, rest);
    } else {
      var j := ByteAfter(u, i, 44);
      var k := ItemsTaken(nf, u[j + 1..], items[1..], rest);
      n := j + 1 + k;
      OtherItems(nf, u, i, j, k, items);
    }
  }

  lemma OneItem(nf: Numbers, u: Bytes, i: nat, items: seq<Value>, rest: Bytes) returns (n: nat)
    requires i <= |u| && |items| == 1 && JsonText(nf, u[..i], items[0])
    requires var t := SkipSpace(u[i..], false); StartsWith(t, 93) && t[1..] == rest
    ensures n <= |u| && u[n..] == rest && ItemsText(nf, u[..n], items)
  {
    var j := ByteAfter(u, i, 93);
    n := j + 1;
    ItemsAre(nf, u, i, j, n, items);
  }

  lemma OtherItems(nf: Numbers, u: Bytes, i: nat, j: nat, k: nat, items: seq<Value>)
    requires i <= j < |u| && k <= |u[j + 1..]| && |items| > 1 && Blank(u[i..j]) && u[j] == 44
    requires JsonText(nf, u[..i], items[0]) && ItemsText(nf, u[j + 1..][..k], items[1..])
    ensures u[j + 1..][k..] == u[j + 1 + k..] && ItemsText(nf, u[..j + 1 + k], items)
  {
    Later(u, j + 1, k);
    ItemsAre(nf, u, i, j, j + 1 + k, items);
  }

  lemma ItemsAre(nf: Numbers, u: Bytes, i: nat, j: nat, n: nat, items: seq<Value>)
    requires i <= j < n <= |u| && items != [] && JsonText(nf, u[..i], items[0]) && Blank(u[i..j])
    requires if |items| == 1 then n == j + 1 && u[j] == 93 else u[j] == 44 && ItemsText(nf, u[j + 1..n], items[1..])
    ensures ItemsText(nf, u[..n], items)
  {
    Sub(u, n, i, j);
    Sub(u, n, j, n);
    assert u[j..n][1..] == u[j + 1..n] && u[j..n][0] == u[j];
    assert ItemsSplit(nf, u[..n], items, i, j);
  }

  lemma KeyStart(s: Bytes, key: Bytes, r: Bytes) returns (i: nat, j: nat)
    requires StartsWith(SkipSpace(s, false), 34) && TextAt(SkipSpace(s, false)[1..], key, r)
    ensures i <= j <= |s| && Blank(s[..i]) && QuotedText(s[i..j], key) && s[j..] == r
  {
    SkippedBlank(s);
    var u := SkipSpace(s, false);
    i := |s| - |u|;
    var m := StringTaken(u, key, r);
    j := i + m;
    Later(s, i, m);
  }

  lemma KeyTaken(s: Bytes, key: Bytes, rest: Bytes) returns (k: nat)
    requires KeyAt(s, key, rest)
    ensures k <= |s| && s[k..] == rest && KeyText(s[..k], key)
  {
    var r := KeyParts(s, key, rest);
    var i, j := KeyStart(s, key, r);
    var e := ByteAfter(s, j, 58);
    k := e + 1;
    KeyIs(s, i, j, e, key);
  }

  lemma KeyIs(s: Bytes, i: nat, j: nat, e: nat, key: Bytes)
    requires i <= j <= e < |s| && Blank(s[..i]) && QuotedText(s[i..j], key) && Blank(s[j..e]) && s[e] == 58
    ensures KeyText(s[..e + 1], key)
  {
    Sub(s, e + 1, i, j);
    Sub(s, e + 1, j, e + 1);
    var after := s[..e + 1][j..];
    assert after[|after| - 1] == 58 && after[..|after| - 1] == s[j..e];
  }

  lemma {:induction false} FieldTaken(nf: Numbers, s: Bytes, m: Member, u: Bytes, r: Bytes) returns (k: nat, i: nat)
    requires KeyAt(s, m.key, u) && ValueAt(nf, u, m.value, r) && |u| <= |s|
    ensures k <= i <= |s| && KeyText(s[..k], m.key) && JsonText(nf, s[k..i], m.value) && s[i..] == r
    decreases |s|, 3
  {
    k := KeyTaken(s, m.key, u);
    var d := ValueTaken(nf, u, m.value, r);
    i := k + d;
    Later(s, k, d);
  }

  lemma {:induction false} FieldsTaken(nf: Numbers, s: Bytes, fields: seq<Member>, rest: Bytes) returns (n: nat)
    requires FieldsAt(nf, s, fields, rest)
    ensures n <= |s| && s[n..] == rest && fields != [] && FieldsText(nf, s[..n], fields)
    decreases |s|, 4
  {
    var u, r := FieldParts(nf, s, fields, rest);
    var k, i := FieldTaken(nf, s, fields[0], u, r);
    if |fields| == 1 {
      n := OneField(nf, s, k, i, fields, rest);
    } else {
      var j := ByteAfter(s, i, 44);
      var e := FieldsTaken(nf, s[j + 1..], fields[1..], rest);
      n := j + 1 + e;
      OtherFields(nf, s, k, i, j, e, fields);
    }
  }

  lemma OneField(nf: Numbers, s: Bytes, k: nat, i: nat, fields: seq<Member>, rest: Bytes) returns (n: nat)
    requires k <= i <= |s| && |fields| == 1 && KeyText(s[..k], fields[0].key) && JsonText(nf, s[k..i], fields[0].value)
    requires var t := SkipSpace(s[i..], false); StartsWith(t, 125) && t[1..] == rest
    ensures n <= |s| && s[n..] == rest && FieldsText(nf, s[..n], fields)
  {
    var j := ByteAfter(s, i, 125);
    n := j + 1;
    FieldsAre(nf, s, k, i, j, n, fields);
  }

  lemma OtherFields(nf: Numbers, s: Bytes, k: nat, i: nat, j: nat, e: nat, fields: seq<Member>)
    requires k <= i <= j < |s| && e <= |s[j + 1..]| && |fields| > 1 && Blank(s[i..j]) && s[j] == 44
    requires KeyText(s[..k], fields[0].key) && JsonText(nf, s[k..i], fields[0].value)
    requires FieldsText(nf, s[j + 1..][..e], fields[1..])
    ensures s[j + 1..][e..] == s[j + 1 + e..] && FieldsText(nf, s[..j + 1 + e], fields)
  {
    Later(s, j + 1, e);
    FieldsAre(nf, s, k, i, j, j + 1 + e, fields);
  }

  lemma FieldsAre(nf: Numbers, s: Bytes, k: nat, i: nat, j: nat, n: nat, fields: seq<Member>)
    requires k <= i <= j < n <= |s| && fields != [] && Blank(s[i..j])
    requires KeyText(s[..k], fields[0].key) && JsonText(nf, s[k..i], fields[0].value)
    requires
      if |fields| == 1 then n == j + 1 && s[j] == 125 else s[j] == 44 && FieldsText(nf, s[j + 1..n], fields[1..])
    ensures FieldsText(nf, s[..n], fields)
  {
    Sub(s, n, k, i);
    Sub(s, n, i, j);
    Sub(s, n, j, n);
    assert s[j..n][1..] == s[j + 1..n] && s[j..n][0] == s[j];
    assert FieldsSplit(nf, s[..n], fields, k, i, j);
  }

  // ---------- Exactly the grammar ----------

  /** Reading stops after a text of the value, and every text of a value is read, unless a number goes on. */
  lemma ParsesExactly(nf: Numbers, s: Bytes, v: Value, rest: Bytes)
    ensures ParseValue(nf, s) == Ok((v, rest)) ==> exists n :: 0 <= n <= |s| && s[n..] == rest && JsonText(nf, s[..n], v)
    ensures Stops(rest) && (exists n :: 0 <= n <= |s| && s[n..] == rest && JsonText(nf, s[..n], v)) ==>
      ParseValue(nf, s) == Ok((v, rest))
  {
    if ParseValue(nf, s) == Ok((v, rest)) { var n := ValueTaken(nf, s, v, rest); }
    if n :| 0 <= n <= |s| && Stops(rest) && s[n..] == rest && JsonText(nf, s[..n], v) {
      JsonReads(nf, s[..n], v, rest);
      Halves(s, n);
      assert IsValue(ParseValue(nf, s), nf, s);
    }
  }
}
