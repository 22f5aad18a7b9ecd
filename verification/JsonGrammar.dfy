/** JSON texts, said without a parser. */
module JsonGrammar {
  import opened Prelude
  import opened Text
  import opened Geometry
  import opened Json
  import opened NumberTokens

  /** Spaces, tabs, line feeds and carriage returns. */
  ghost predicate Blank(w: Bytes) {
    forall i :: 0 <= i < |w| ==> w[i] == 32 || w[i] == 9 || w[i] == 10 || w[i] == 13
  }

  // ---------- Strings ----------

  /** The hexadecimal digit `d`, in either case. */
  ghost predicate IsHex(b: U8, d: int) {
    (48 <= b <= 57 && d == b - 48) || (65 <= b <= 70 && d == b - 55) || (97 <= b <= 102 && d == b - 87)
  }

  /** The code point of a character of up to three bytes. */
  function CodePoint(c: Bytes): int
    requires 1 <= |c| <= 3
  {
    var lead: int, last: int := c[0], c[|c| - 1];
    if |c| == 1 then lead
    else if |c| == 2 then 64 * (lead - 0xC0) + (last - 0x80)
    else
      var middle: int := c[1];
      4096 * (lead - 0xE0) + 64 * (middle - 0x80) + (last - 0x80)
  }

  ghost predicate IsChar(c: Bytes) { c != [] && CharWidth(c) == |c| }

  ghost predicate IsHexOf(u: Bytes, code: int)
    requires |u| == 4
  {
    exists d0, d1, d2, d3 :: IsHex(u[0], d0) && IsHex(u[1], d1) && IsHex(u[2], d2) && IsHex(u[3], d3)
      && code == ((d0 * 16 + d1) * 16 + d2) * 16 + d3
  }

  /** Four hexadecimal digits that give the code point of `c`. */
  ghost predicate IsCode(u: Bytes, c: Bytes) {
    |u| == 4 && IsChar(c) && |c| <= 3 && IsHexOf(u, CodePoint(c))
  }

  /** The eight letters that stand for a character after a backslash. */
  ghost predicate IsLetterFor(e: U8, b: U8) {
    || (e == 34 && b == 34) || (e == 92 && b == 92) || (e == 47 && b == 47) || (e == 98 && b == 8)
    || (e == 102 && b == 12) || (e == 110 && b == 10) || (e == 114 && b == 13) || (e == 116 && b == 9)
  }

  /** `u` stands for the character `c` in a string. */
  ghost predicate StandsFor(u: Bytes, c: Bytes) {
    || (u == c && IsChar(c) && c[0] >= 32 && c[0] != 34 && c[0] != 92)
    || (|u| == 2 && u[0] == 92 && |c| == 1 && IsLetterFor(u[1], c[0]))
    || (|u| == 6 && u[0] == 92 && u[1] == 117 && IsCode(u[2..], c))
  }

  ghost predicate CharsText(t: Bytes, text: Bytes)
    decreases |t|
  {
    (t == [] && text == []) ||
    exists n, m :: 0 < n <= |t| && 0 < m <= |text| && StandsFor(t[..n], text[..m]) && CharsText(t[n..], text[m..])
  }

  ghost predicate QuotedText(t: Bytes, text: Bytes) {
    |t| >= 2 && t[0] == 34 && t[|t| - 1] == 34 && CharsText(t[1..|t| - 1], text)
  }

  // ---------- Values ----------

  /** `t` is a JSON text of the value. */
  ghost predicate JsonText(nf: Numbers, t: Bytes, v: Value)
    decreases v, 1
  {
    exists i :: 0 <= i <= |t| && Blank(t[..i]) && BareText(nf, t[i..], v)
  }

  /** Without white space in front. */
  ghost predicate BareText(nf: Numbers, t: Bytes, v: Value)
    decreases v, 0
  {
    match v
    case Null => t == [110, 117, 108, 108]
    case Bool(truth) => t == if truth then [116, 114, 117, 101] else [102, 97, 108, 115, 101]
    case Num(n) => IsNumber(t, false) && nf.read(t) == Some(n)
    case Str(text) => QuotedText(t, text)
    case Arr(items) =>
      StartsWith(t, 91) && if items == [] then Closes(t[1..], 93) else ItemsText(nf, t[1..], items)
    case Obj(fields) =>
      StartsWith(t, 123) && if fields == [] then Closes(t[1..], 125) else FieldsText(nf, t[1..], fields)
  }

  /** White space and the byte. */
  ghost predicate Closes(t: Bytes, b: U8) { t != [] && t[|t| - 1] == b && Blank(t[..|t| - 1]) }

  ghost predicate ItemsText(nf: Numbers, t: Bytes, items: seq<Value>)
    requires items != []
    decreases items, 2
  {
    exists i, j :: 0 <= i <= j < |t| && ItemsSplit(nf, t, items, i, j)
  }

  /** The first item ends at `i`, and white space after it at `j`. */
  ghost predicate ItemsSplit(nf: Numbers, t: Bytes, items: seq<Value>, i: nat, j: nat)
    requires i <= j < |t| && items != []
    decreases items, 1
  {
    JsonText(nf, t[..i], items[0]) && Blank(t[i..j]) && ItemsEnd(nf, t[j..], items)
  }

  /** The bracket after the last item, or a comma and the other items. */
  ghost predicate ItemsEnd(nf: Numbers, t: Bytes, items: seq<Value>)
    requires items != []
    decreases items, 0
  {
    if |items| == 1 then t == [93] else StartsWith(t, 44) && ItemsText(nf, t[1..], items[1..])
  }

  /** A key and the colon after it. */
  ghost predicate KeyText(t: Bytes, key: Bytes) {
    exists i, j :: 0 <= i <= j <= |t| && Blank(t[..i]) && QuotedText(t[i..j], key) && Closes(t[j..], 58)
  }

  ghost predicate FieldsText(nf: Numbers, t: Bytes, fields: seq<Member>)
    requires fields != []
    decreases fields, 2
  {
    exists k, i, j :: 0 <= k <= i <= j < |t| && FieldsSplit(nf, t, fields, k, i, j)
  }

  /** The first key ends at `k`, its value at `i`, and white space after it at `j`. */
  ghost predicate FieldsSplit(nf: Numbers, t: Bytes, fields: seq<Member>, k: nat, i: nat, j: nat)
    requires k <= i <= j < |t| && fields != []
    decreases fields, 1
  {
    && KeyText(t[..k], fields[0].key) && JsonText(nf, t[k..i], fields[0].value)
    && Blank(t[i..j]) && FieldsEnd(nf, t[j..], fields)
  }

  /** The brace after the last member, or a comma and the other members. */
  ghost predicate FieldsEnd(nf: Numbers, t: Bytes, fields: seq<Member>)
    requires fields != []
    decreases fields, 0
  {
    if |fields| == 1 then t == [125] else StartsWith(t, 44) && FieldsText(nf, t[1..], fields[1..])
  }
}
