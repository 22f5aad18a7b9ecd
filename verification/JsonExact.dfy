/** The JSON parser accepts exactly the grammar's texts, and gives the value they spell. */
module JsonExact {
  import opened Prelude
  import opened Geometry
  import opened Wkt
  import opened Json
  import opened JsonLaws
  import opened NumberTokens
  import opened JsonGrammar
  import opened JsonReading

  // ---------- Every text of the grammar is read ----------

  lemma BlankInFront(nf: Numbers, w: Bytes, s: Bytes, v: Value, rest: Bytes)
    requires Blank(w) && ValueAt(nf, s, v, rest)
    ensures ValueAt(nf, w + s, v, rest)
  {
    SkipBlank(w, s);
    assert IsValue(ParseValue(nf, s), nf, s);
    SameSkipped(nf, w + s, s);
  }

  lemma SameSkipped(nf: Numbers, s: Bytes, t: Bytes)
    requires SkipSpace(s, false) == SkipSpace(t, false)
    ensures ParseValue(nf, s) == ParseValue(nf, t)
  {
  }

  lemma NumberReads(nf: Numbers, t: Bytes, n: Number, rest: Bytes)
    requires IsNumber(t, false) && nf.read(t) == Some(n) && Stops(rest)
    ensures ValueAt(nf, t + rest, Num(n), rest)
  {
    var s := t + rest;
    WholeTokenIff(t, false);
    TokenStart(t);
    NumberIsScanned(t, rest, false);
    Skip(s);
    assert s[..|t|] == t && s[|t|..] == rest;
  }

  lemma StringReads(nf: Numbers, t: Bytes, text: Bytes, rest: Bytes)
    requires QuotedText(t, text)
    ensures ValueAt(nf, t + rest, Str(text), rest)
  {
    QuotedReads(t, text, rest);
    Skip(t + rest);
  }

  lemma WordsAre()
    ensures Ascii("null") == [110, 117, 108, 108]
    ensures Ascii("true") == [116, 114, 117, 101] && Ascii("false") == [102, 97, 108, 115, 101]
  {
  }

  /** After a value, white space, and what ends it. */
  lemma StopsAfter(w: Bytes, b: U8, rest: Bytes)
    requires Blank(w) && (b == 44 || b == 93 || b == 125)
    ensures Stops(w + ([b] + rest))
  {
  }

  lemma LastItem(nf: Numbers, s: Bytes, v: Value, w: Bytes, rest: Bytes)
    requires Blank(w) && ValueAt(nf, s, v, w + ([93] + rest))
    ensures ItemsAt(nf, s, [v], rest)
  {
    assert IsValue(ParseValue(nf, s), nf, s);
    BlankThen(w, 93, rest);
  }

  lemma MoreItems(nf: Numbers, s: Bytes, v: Value, w: Bytes, inner: Bytes, items: seq<Value>, rest: Bytes)
    requires Blank(w) && ValueAt(nf, s, v, w + ([44] + inner)) && ItemsAt(nf, inner, items, rest)
    ensures ItemsAt(nf, s, [v] + items, rest)
  {
    assert IsValue(ParseValue(nf, s), nf, s) && IsItems(ParseItems(nf, inner), nf, inner);
    BlankThen(w, 44, inner);
  }

  /** Items do not begin with a closing bracket. */
  ghost predicate NotClosed(s: Bytes, b: U8) { var t := SkipSpace(s, false); t != [] && t[0] != b }

  lemma ArrayReads(nf: Numbers, inner: Bytes, items: seq<Value>, rest: Bytes)
    requires ItemsAt(nf, SkipSpace(inner, false), items, rest) && NotClosed(inner, 93)
    ensures ValueAt(nf, [91] + inner, Arr(items), rest)
  {
    var u := SkipSpace(inner, false);
    assert IsItems(ParseItems(nf, u), nf, u);
    Skip([91] + inner);
    assert ([91] + inner)[1..] == inner;
    assert ParseArray(nf, [91] + inner) == Ok((Arr(items), rest));
  }

  lemma NoItemsReads(nf: Numbers, w: Bytes, rest: Bytes)
    requires Blank(w)
    ensures ValueAt(nf, [91] + (w + ([93] + rest)), Arr([]), rest)
  {
    var inner := w + ([93] + rest);
    BlankThen(w, 93, rest);
    Skip([91] + inner);
    assert ([91] + inner)[1..] == inner;
    assert ParseArray(nf, [91] + inner) == Ok((Arr([]), rest));
  }

  lemma NoFieldsReads(nf: Numbers, w: Bytes, rest: Bytes)
    requires Blank(w)
    ensures ValueAt(nf, [123] + (w + ([125] + rest)), Obj([]), rest)
  {
    var inner := w + ([125] + rest);
    BlankThen(w, 125, rest);
    Skip([123] + inner);
    assert ([123] + inner)[1..] == inner;
    assert ParseObject(nf, [123] + inner) == Ok((Obj([]), rest));
  }

  lemma ObjectReads(nf: Numbers, inner: Bytes, fields: seq<Member>, rest: Bytes)
    requires FieldsAt(nf, SkipSpace(inner, false), fields, rest) && NotClosed(inner, 125)
    ensures ValueAt(nf, [123] + inner, Obj(fields), rest)
  {
    var u := SkipSpace(inner, false);
    assert IsFields(ParseFields(nf, u), nf, u);
    Skip([123] + inner);
    assert ([123] + inner)[1..] == inner;
    assert ParseObject(nf, [123] + inner) == Ok((Obj(fields), rest));
  }

  lemma LastField(nf: Numbers, s: Bytes, key: Bytes, u: Bytes, v: Value, w: Bytes, rest: Bytes)
    requires Blank(w) && KeyAt(s, key, u) && ValueAt(nf, u, v, w + ([125] + rest))
    ensures FieldsAt(nf, s, [Member(key, v)], rest)
  {
    assert IsKey(ParseKey(s), s) && IsValue(ParseValue(nf, u), nf, u);
    BlankThen(w, 125, rest);
  }

  lemma MoreFields(
      nf: Numbers, s: Bytes, key: Bytes, u: Bytes, v: Value, w: Bytes, inner: Bytes, fields: seq<Member>, rest: Bytes)
    requires Blank(w) && KeyAt(s, key, u) && ValueAt(nf, u, v, w + ([44] + inner)) && FieldsAt(nf, inner, fields, rest)
    ensures FieldsAt(nf, s, [Member(key, v)] + fields, rest)
  {
    assert IsKey(ParseKey(s), s) && IsValue(ParseValue(nf, u), nf, u) && IsFields(ParseFields(nf, inner), nf, inner);
    BlankThen(w, 44, inner);
  }

  lemma KeyReads(t: Bytes, key: Bytes, rest: Bytes)
    requires KeyText(t, key)
    ensures KeyAt(t + rest, key, rest) && NotClosed(t + rest, 125)
  {
    var i, j :| 0 <= i <= j <= |t| && Blank(t[..i]) && QuotedText(t[i..j], key) && Closes(t[j..], 58);
    var w, q, after := t[..i], t[i..j], t[j..|t| - 1];
    var follow := after + ([58] + rest);
    KeySplit(t, i, j, rest);
    assert t[j..][..|t[j..]| - 1] == after;
    QuotedReads(q, key, follow);
    SkipBlank(w, q + follow);
    Skip(q + follow);
    BlankThen(after, 58, rest);
  }

  lemma KeySplit(t: Bytes, i: nat, j: nat, rest: Bytes)
    requires i <= j < |t| && t[|t| - 1] == 58
    ensures t + rest == t[..i] + (t[i..j] + (t[j..|t| - 1] + ([58] + rest)))
  {
  }

  lemma ItemsSkip(nf: Numbers, s: Bytes, items: seq<Value>, rest: Bytes)
    requires ItemsAt(nf, s, items, rest)
    ensures ItemsAt(nf, SkipSpace(s, false), items, rest)
  {
    assert IsItems(ParseItems(nf, s), nf, s);
    SkipTwice(s);
    SameSkipped(nf, s, SkipSpace(s, false));
  }

  lemma FieldsSkip(nf: Numbers, s: Bytes, fields: seq<Member>, rest: Bytes)
    requires FieldsAt(nf, s, fields, rest)
    ensures FieldsAt(nf, SkipSpace(s, false), fields, rest)
  {
    assert IsFields(ParseFields(nf, s), nf, s);
    SkipTwice(s);
    assert ParseKey(s) == ParseKey(SkipSpace(s, false));
  }

  lemma SkipTwice(s: Bytes)
    ensures SkipSpace(SkipSpace(s, false), false) == SkipSpace(s, false)
  {
    if SkipSpace(s, false) != [] { Skip(SkipSpace(s, false)); }
  }

  lemma BareStart(nf: Numbers, t: Bytes, v: Value)
    requires BareText(nf, t, v)
    ensures t != [] && !IsSpace(t[0], false) && t[0] != 93 && t[0] != 125
  {
    if v.Num? {
      WholeTokenIff(t, false);
      TokenStart(t);
    }
  }

  lemma AfterLead(nf: Numbers, t: Bytes, v: Value) returns (i: nat)
    requires JsonText(nf, t, v)
    ensures i <= |t| && Blank(t[..i]) && BareText(nf, t[i..], v)
  {
    i :| 0 <= i <= |t| && Blank(t[..i]) && BareText(nf, t[i..], v);
  }

  lemma TextStart(nf: Numbers, t: Bytes, v: Value, rest: Bytes)
    requires JsonText(nf, t, v)
    ensures NotClosed(t + rest, 93)
  {
    var i := AfterLead(nf, t, v);
    BareStart(nf, t[i..], v);
    StartAfterLead(t, i, rest);
  }

  lemma StartAfterLead(t: Bytes, i: nat, rest: Bytes)
    requires i < |t| && Blank(t[..i]) && !IsSpace(t[i..][0], false)
    ensures SkipSpace(t + rest, false) == t[i..] + rest
  {
    SkipBlank(t[..i], t[i..] + rest);
    Skip(t[i..] + rest);
    assert t[..i] + (t[i..] + rest) == t + rest;
  }

  lemma LeadInFront(nf: Numbers, t: Bytes, i: nat, v: Value, rest: Bytes)
    requires i <= |t| && Blank(t[..i]) && ValueAt(nf, t[i..] + rest, v, rest)
    ensures ValueAt(nf, t + rest, v, rest)
  {
    BlankInFront(nf, t[..i], t[i..] + rest, v, rest);
    assert t[..i] + (t[i..] + rest) == t + rest;
  }

  /** Every text of a value reads as that value, up to its end. */
  lemma {:induction false} JsonReads(nf: Numbers, t: Bytes, v: Value, rest: Bytes)
    requires JsonText(nf, t, v) && Stops(rest)
    ensures ValueAt(nf, t + rest, v, rest)
    decreases v, 1
  {
    var i := AfterLead(nf, t, v);
    BareReads(nf, t[i..], v, rest);
    LeadInFront(nf, t, i, v, rest);
  }

  lemma {:induction false} BareReads(nf: Numbers, t: Bytes, v: Value, rest: Bytes)
    requires BareText(nf, t, v) && Stops(rest)
    ensures ValueAt(nf, t + rest, v, rest)
    decreases v, 0
  {
    WordsAre();
    match v
    case Null => NullRead(nf, rest);
    case Bool(truth) => BoolRead(nf, truth, rest);
    case Num(n) => NumberReads(nf, t, n, rest);
    case Str(text) => StringReads(nf, t, text, rest);
    case Arr(items) =>
      if items == [] {
        NothingReads(nf, t, rest);
      } else {
        ItemsReads(nf, t[1..], items, rest);
        ItemsSkip(nf, t[1..] + rest, items, rest);
        ArrayReads(nf, t[1..] + rest, items, rest);
        AfterFirst(t, 91, rest);
      }
    case Obj(fields) =>
      if fields == [] {
        NoMembersReads(nf, t, rest);
      } else {
        FieldsReads(nf, t[1..], fields, rest);
        FieldsSkip(nf, t[1..] + rest, fields, rest);
        ObjectReads(nf, t[1..] + rest, fields, rest);
        AfterFirst(t, 123, rest);
      }
  }

  lemma AfterFirst(t: Bytes, b: U8, rest: Bytes)
    requires StartsWith(t, b)
    ensures [b] + (t[1..] + rest) == t + rest
  {
  }

  lemma NothingReads(nf: Numbers, t: Bytes, rest: Bytes)
    requires StartsWith(t, 91) && Closes(t[1..], 93)
    ensures ValueAt(nf, t + rest, Arr([]), rest)
  {
    var w := t[1..][..|t| - 2];
    NoItemsReads(nf, w, rest);
    Enclosed(t, 91, 93, w, rest);
  }

  lemma NoMembersReads(nf: Numbers, t: Bytes, rest: Bytes)
    requires StartsWith(t, 123) && Closes(t[1..], 125)
    ensures ValueAt(nf, t + rest, Obj([]), rest)
  {
    var w := t[1..][..|t| - 2];
    NoFieldsReads(nf, w, rest);
    Enclosed(t, 123, 125, w, rest);
  }

  lemma Enclosed(t: Bytes, open: U8, close: U8, w: Bytes, rest: Bytes)
    requires |t| >= 2 && t[0] == open && t[1..][|t| - 2] == close && w == t[1..][..|t| - 2]
    ensures t + rest == [open] + (w + ([close] + rest))
  {
  }

  lemma FirstItem(nf: Numbers, t: Bytes, items: seq<Value>) returns (i: nat, j: nat)
    requires items != [] && ItemsText(nf, t, items)
    ensures i <= j < |t| && JsonText(nf, t[..i], items[0]) && Blank(t[i..j]) && ItemsEnd(nf, t[j..], items)
  {
    i, j :| 0 <= i <= j < |t| && ItemsSplit(nf, t, items, i, j);
  }

  lemma {:induction false} ItemsReads(nf: Numbers, t: Bytes, items: seq<Value>, rest: Bytes)
    requires items != [] && ItemsText(nf, t, items)
    ensures ItemsAt(nf, t + rest, items, rest) && NotClosed(t + rest, 93)
    decreases items, 2
  {
    var i, j := FirstItem(nf, t, items);
    var u, w, more := t[..i], t[i..j], t[j + 1..] + rest;
    var after := w + ([t[j]] + more);
    SplitAt(t, i, j, rest);
    ItemsEnding(nf, t, j, items, rest);
    StopsAfter(w, t[j], more);
    JsonReads(nf, u, items[0], after);
    TextStart(nf, u, items[0], after);
    if |items| > 1 { ItemsReads(nf, t[j + 1..], items[1..], rest); }
    ItemsFrom(nf, u + after, items, w, t[j], more, rest);
  }

  lemma ItemsEnding(nf: Numbers, t: Bytes, j: nat, items: seq<Value>, rest: Bytes)
    requires j < |t| && items != [] && ItemsEnd(nf, t[j..], items)
    ensures if |items| == 1 then t[j] == 93 && t[j + 1..] + rest == rest
            else t[j] == 44 && ItemsText(nf, t[j + 1..], items[1..])
  {
    assert t[j] == t[j..][0] && t[j..][1..] == t[j + 1..];
  }

  lemma ItemsFrom(nf: Numbers, s: Bytes, items: seq<Value>, w: Bytes, b: U8, more: Bytes, rest: Bytes)
    requires items != [] && Blank(w) && ValueAt(nf, s, items[0], w + ([b] + more))
    requires if |items| == 1 then b == 93 && more == rest else b == 44 && ItemsAt(nf, more, items[1..], rest)
    ensures ItemsAt(nf, s, items, rest)
  {
    if |items| == 1 {
      LastItem(nf, s, items[0], w, rest);
      assert [items[0]] == items;
    } else {
      MoreItems(nf, s, items[0], w, more, items[1..], rest);
      assert [items[0]] + items[1..] == items;
    }
  }

  lemma SplitAt(t: Bytes, i: nat, j: nat, rest: Bytes)
    requires i <= j < |t|
    ensures t + rest == t[..i] + (t[i..j] + ([t[j]] + (t[j + 1..] + rest)))
  {
  }

  lemma FirstField(nf: Numbers, t: Bytes, fields: seq<Member>) returns (k: nat, i: nat, j: nat)
    requires fields != [] && FieldsText(nf, t, fields)
    ensures k <= i <= j < |t| && KeyText(t[..k], fields[0].key) && JsonText(nf, t[k..i], fields[0].value)
    ensures Blank(t[i..j]) && FieldsEnd(nf, t[j..], fields)
  {
    k, i, j :| 0 <= k <= i <= j < |t| && FieldsSplit(nf, t, fields, k, i, j);
  }

  lemma {:induction false} FieldsReads(nf: Numbers, t: Bytes, fields: seq<Member>, rest: Bytes)
    requires fields != [] && FieldsText(nf, t, fields)
    ensures FieldsAt(nf, t + rest, fields, rest) && NotClosed(t + rest, 125)
    decreases fields, 2
  {
    var k, i, j := FirstField(nf, t, fields);
    var w, more := t[i..j], t[j + 1..] + rest;
    var after := w + ([t[j]] + more);
    SplitKey(t, k, i, j, rest);
    FieldsEnding(nf, t, j, fields, rest);
    KeyReads(t[..k], fields[0].key, t[k..i] + after);
    StopsAfter(w, t[j], more);
    JsonReads(nf, t[k..i], fields[0].value, after);
    if |fields| > 1 { FieldsReads(nf, t[j + 1..], fields[1..], rest); }
    FieldsFrom(nf, t[..k] + (t[k..i] + after), t[k..i] + after, fields, w, t[j], more, rest);
  }

  lemma FieldsEnding(nf: Numbers, t: Bytes, j: nat, fields: seq<Member>, rest: Bytes)
    requires j < |t| && fields != [] && FieldsEnd(nf, t[j..], fields)
    ensures if |fields| == 1 then t[j] == 125 && t[j + 1..] + rest == rest
            else t[j] == 44 && FieldsText(nf, t[j + 1..], fields[1..])
  {
    assert t[j] == t[j..][0] && t[j..][1..] == t[j + 1..];
  }

  lemma FieldsFrom(
      nf: Numbers, s: Bytes, u: Bytes, fields: seq<Member>, w: Bytes, b: U8, more: Bytes, rest: Bytes)
    requires fields != [] && Blank(w) && KeyAt(s, fields[0].key, u)
    requires ValueAt(nf, u, fields[0].value, w + ([b] + more))
    requires if |fields| == 1 then b == 125 && more == rest else b == 44 && FieldsAt(nf, more, fields[1..], rest)
    ensures FieldsAt(nf, s, fields, rest)
  {
    var key, v := fields[0].key, fields[0].value;
    if |fields| == 1 {
      LastField(nf, s, key, u, v, w, rest);
      assert [Member(key, v)] == fields;
    } else {
      MoreFields(nf, s, key, u, v, w, more, fields[1..], rest);
      assert [Member(key, v)] + fields[1..] == fields;
    }
  }

  lemma SplitKey(t: Bytes, k: nat, i: nat, j: nat, rest: Bytes)
    requires k <= i <= j < |t|
    ensures t + rest == t[..k] + (t[k..i] + (t[i..j] + ([t[j]] + (t[j + 1..] + rest))))
  {
  }
}
