/** Sending a query in a URL and taking it apart again. Text is bytes; `None` marks a panic. */
module QueryUrl {
  import opened Prelude
  import opened Text

  // ---------- Encoding ----------

  /** Section 2.3 of RFC 3986. */
  predicate Unreserved(b: U8) {
    65 <= b <= 90 || 97 <= b <= 122 || 48 <= b <= 57 || b == 45 || b == 46 || b == 95 || b == 126
  }

  function UpperHex(n: nat): U8
    requires n < 16
  {
    if n < 10 then 48 + n else 55 + n
  }

  function EncodedByte(b: U8): Bytes {
    if Unreserved(b) then [b] else [37, UpperHex(b / 16), UpperHex(b % 16)]
  }

  function PercentEncode(s: Bytes): Bytes {
    if s == [] then [] else EncodedByte(s[0]) + PercentEncode(s[1..])
  }

  method PercentEncodeText(input: Bytes) returns (out: Bytes)
    ensures out == PercentEncode(input)
  {
    out := [];
    for i := 0 to |input|
      invariant out + PercentEncode(input[i..]) == PercentEncode(input)
    {
      ghost var before := out;
      if Unreserved(input[i]) {
        out := out + [input[i]];
      } else {
        out := out + [37, UpperHex(input[i] / 16), UpperHex(input[i] % 16)];
      }
      assert input[i..][1..] == input[i + 1..];
      Assoc(before, EncodedByte(input[i]), PercentEncode(input[i + 1..]));
    }
    assert out + [] == out;
  }

  const QUERY_KEY: Bytes := [113, 117, 101, 114, 121]

  function AppendQuery(endpoint: Bytes, encoded: Bytes): Bytes {
    endpoint + [if 63 in endpoint then 38 else 63] + QUERY_KEY + [61] + encoded
  }

  // ---------- Decoding ----------

  /** Two characters as a base-16 byte; a leading `+` is accepted. */
  function FromRadix16(a: U8, b: U8): Option<U8> {
    match (HexDigit(a), HexDigit(b))
    case (Some(high), Some(low)) => Some(16 * high + low)
    case (None, Some(low)) => if a == 43 then Some(low) else None
    case _ => None
  }

  function Cons(b: U8, rest: Option<Bytes>): Option<Bytes> {
    if rest.Some? then Some([b] + rest.value) else None
  }

  /** The escape at the front: the two characters after `%` are cut out, which panics inside a character. */
  function DecodeRaw(s: Bytes): Option<Bytes> {
    if s == [] then Some([])
    else if s[0] == 43 then Cons(32, DecodeRaw(s[1..]))
    else if s[0] == 37 && |s| > 2 then
      if |s| > 3 && IsContinuation(s[3]) then None
      else
        var v := FromRadix16(s[1], s[2]);
        if v.Some? then Cons(v.value, DecodeRaw(s[3..])) else Cons(s[0], DecodeRaw(s[1..]))
    else Cons(s[0], DecodeRaw(s[1..]))
  }

  /** Replacing malformed sequences leaves well-formed text alone. */
  ghost predicate Lossy(lossy: Bytes -> Str) {
    forall b: Bytes :: ValidUtf8(b) && |b| < 0x1_0000_0000_0000_0000 ==> lossy(b) == b
  }

  /** Such a replacement exists, so nothing below holds emptily. */
  lemma LossyExists() returns (lossy: Bytes -> Str)
    ensures Lossy(lossy)
  {
    lossy := b => if ValidUtf8(b) && |b| < 0x1_0000_0000_0000_0000 then b else [];
  }

  function UrlDecode(lossy: Bytes -> Str, s: Bytes): Option<Str> {
    var raw := DecodeRaw(s);
    if raw.Some? then Some(lossy(raw.value)) else None
  }

  /** `out` and what is left decode to the whole. */
  ghost predicate Decoding(input: Bytes, i: nat, out: Bytes) {
    i <= |input| && DecodeRaw(input) == (var rest := DecodeRaw(input[i..]); if rest.Some? then Some(out + rest.value) else None)
  }

  lemma DecodingStart(input: Bytes)
    ensures Decoding(input, 0, [])
  {
    assert input[0..] == input;
    var rest := DecodeRaw(input);
    if rest.Some? { assert [] + rest.value == rest.value; }
  }

  lemma DecodingStep(input: Bytes, i: nat, out: Bytes, b: U8, j: nat)
    requires Decoding(input, i, out) && i < j <= |input| && DecodeRaw(input[i..]) == Cons(b, DecodeRaw(input[j..]))
    ensures Decoding(input, j, out + [b])
  {
    var rest := DecodeRaw(input[j..]);
    if rest.Some? { assert out + ([b] + rest.value) == (out + [b]) + rest.value; }
  }

  /** The byte at position `i` and where to go on, or `None` for a panic. */
  method DecodeAt(input: Bytes, i: nat) returns (step: Option<(U8, nat)>)
    requires i < |input|
    ensures step.None? ==> DecodeRaw(input[i..]).None?
    ensures step.Some? ==>
      i < step.value.1 <= |input|
      && DecodeRaw(input[i..]) == Cons(step.value.0, DecodeRaw(input[step.value.1..]))
  {
    ghost var s := input[i..];
    assert s[1..] == input[i + 1..];
    if input[i] == 43 { return Some((32, i + 1)); }
    if input[i] == 37 && i + 2 < |input| {
      if i + 3 < |input| && IsContinuation(input[i + 3]) { return None; }
      assert s[3..] == input[i + 3..];
      var v := FromRadix16(input[i + 1], input[i + 2]);
      if v.Some? { return Some((v.value, i + 3)); }
    }
    step := Some((input[i], i + 1));
  }

  method UrlDecodeText(lossy: Bytes -> Str, input: Bytes) returns (r: Option<Str>)
    ensures r == UrlDecode(lossy, input)
  {
    var out := [];
    var i := 0;
    DecodingStart(input);
    while i < |input|
      invariant Decoding(input, i, out)
    {
      var step := DecodeAt(input, i);
      if step.None? { return None; }
      DecodingStep(input, i, out, step.value.0, step.value.1);
      out := out + [step.value.0];
      i := step.value.1;
    }
    assert DecodeRaw(input[i..]) == Some([]);
    assert out + [] == out;
    r := Some(lossy(out));
  }

  // ---------- Splitting ----------

  function SplitOnce(s: Bytes, sep: U8): Option<(Bytes, Bytes)> {
    if s == [] then None
    else if s[0] == sep then Some(([], s[1..]))
    else
      var rest := SplitOnce(s[1..], sep);
      if rest.Some? then Some(([s[0]] + rest.value.0, rest.value.1)) else None
  }

  /** The pieces between separators, empty ones included. */
  function Split(s: Bytes, sep: U8): (r: seq<Bytes>)
    ensures r != []
    decreases |s|
  {
    var cut := SplitOnce(s, sep);
    SplitOnceShrinks(s, sep);
    if cut.None? then [s] else [cut.value.0] + Split(cut.value.1, sep)
  }

  lemma {:induction false} SplitOnceShrinks(s: Bytes, sep: U8)
    ensures var cut := SplitOnce(s, sep);
      cut.Some? ==> s == cut.value.0 + [sep] + cut.value.1 && sep !in cut.value.0 && |cut.value.1| < |s|
    ensures SplitOnce(s, sep).None? <==> sep !in s
  {
    if s != [] && s[0] != sep {
      SplitOnceShrinks(s[1..], sep);
      assert s == [s[0]] + s[1..];
    }
  }

  lemma {:induction false} SplitOnceAt(a: Bytes, sep: U8, b: Bytes)
    requires sep !in a
    ensures SplitOnce(a + [sep] + b, sep) == Some((a, b))
  {
    var s := a + [sep] + b;
    if a == [] {
      assert s[1..] == b;
    } else {
      assert s[1..] == a[1..] + [sep] + b;
      SplitOnceAt(a[1..], sep, b);
      assert [a[0]] + a[1..] == a;
    }
  }

  lemma {:induction false} SplitLast(a: Bytes, sep: U8, b: Bytes)
    requires sep !in b
    ensures Split(a + [sep] + b, sep) == Split(a, sep) + [b]
    decreases |a|
  {
    SplitOnceShrinks(a, sep);
    SplitOnceShrinks(b, sep);
    var cut := SplitOnce(a, sep);
    if cut.None? {
      SplitOnceAt(a, sep, b);
    } else {
      var (first, rest) := cut.value;
      assert a + [sep] + b == first + [sep] + (rest + [sep] + b);
      SplitOnceAt(first, sep, rest + [sep] + b);
      SplitLast(rest, sep, b);
    }
  }

  type Params = map<Str, Str>

  /** One `key=value` piece added to the parameters; empty pieces are skipped. */
  function AddPair(lossy: Bytes -> Str, m: Params, pair: Bytes): Option<Params> {
    if pair == [] then Some(m)
    else
      var cut := SplitOnce(pair, 61);
      var key := UrlDecode(lossy, if cut.Some? then cut.value.0 else pair);
      var value := if cut.Some? then UrlDecode(lossy, cut.value.1) else Some([]);
      if key.Some? && value.Some? then Some(m[key.value := value.value]) else None
  }

  function AddPairs(lossy: Bytes -> Str, pairs: seq<Bytes>): Option<Params> {
    if pairs == [] then Some(map[])
    else
      var n := |pairs| - 1;
      var m := AddPairs(lossy, pairs[..n]);
      if m.Some? then AddPair(lossy, m.value, pairs[n]) else None
  }

  datatype Target = Target(path: Bytes, params: Params)

  function SplitTarget(lossy: Bytes -> Str, target: Bytes): Option<Target> {
    var cut := SplitOnce(target, 63);
    if cut.None? then Some(Target(target, map[]))
    else
      var m := AddPairs(lossy, Split(cut.value.1, 38));
      if m.Some? then Some(Target(cut.value.0, m.value)) else None
  }

  method SplitTargetText(lossy: Bytes -> Str, target: Bytes) returns (r: Option<Target>)
    ensures r == SplitTarget(lossy, target)
  {
    var cut := SplitOnce(target, 63);
    if cut.None? { return Some(Target(target, map[])); }
    var m: Params := map[];
    var pairs := Split(cut.value.1, 38);
    for i := 0 to |pairs|
      invariant AddPairs(lossy, pairs[..i]) == Some(m)
    {
      assert pairs[..i + 1][..i] == pairs[..i];
      var pair := pairs[i];
      if pair != [] {
        var added := AddOne(lossy, m, pair);
        if added.None? {
          Stuck(lossy, pairs, i + 1);
          return None;
        }
        m := added.value;
      }
    }
    assert pairs[..|pairs|] == pairs;
    r := Some(Target(cut.value.0, m));
  }

  method AddOne(lossy: Bytes -> Str, m: Params, pair: Bytes) returns (r: Option<Params>)
    requires pair != []
    ensures r == AddPair(lossy, m, pair)
  {
    match SplitOnce(pair, 61)
    case Some(kv) =>
      var key := UrlDecodeText(lossy, kv.0);
      var value := UrlDecodeText(lossy, kv.1);
      if key.None? || value.None? { return None; }
      r := Some(m[key.value := value.value]);
    case None =>
      var key := UrlDecodeText(lossy, pair);
      if key.None? { return None; }
      r := Some(m[key.value := []]);
  }

  lemma {:induction false} Stuck(lossy: Bytes -> Str, pairs: seq<Bytes>, i: nat)
    requires i <= |pairs| && AddPairs(lossy, pairs[..i]).None?
    ensures AddPairs(lossy, pairs).None?
    decreases |pairs|
  {
    if i == |pairs| {
      assert pairs[..i] == pairs;
    } else {
      var n := |pairs| - 1;
      assert pairs[..n][..i] == pairs[..i];
      Stuck(lossy, pairs[..n], i);
    }
  }

  // ---------- Round trip ----------

  lemma {:induction false} EncodedIsPlain(s: Bytes)
    ensures forall i :: 0 <= i < |PercentEncode(s)| ==> Unreserved(PercentEncode(s)[i]) || PercentEncode(s)[i] == 37
  {
    if s != [] { EncodedIsPlain(s[1..]); }
  }

  lemma HexRoundTrip(b: U8)
    ensures FromRadix16(UpperHex(b / 16), UpperHex(b % 16)) == Some(b)
  {
  }

  /** Decoding undoes encoding, byte for byte. */
  lemma {:induction false} DecodeEncoded(s: Bytes)
    ensures DecodeRaw(PercentEncode(s)) == Some(s)
  {
    if s != [] {
      var rest := PercentEncode(s[1..]);
      var t := PercentEncode(s);
      DecodeEncoded(s[1..]);
      EncodedIsPlain(s[1..]);
      assert s == [s[0]] + s[1..];
      if Unreserved(s[0]) {
        assert t[1..] == rest;
      } else {
        HexRoundTrip(s[0]);
        assert t[3..] == rest;
      }
    }
  }

  lemma {:induction false} DecodePlain(s: Bytes)
    requires forall i :: 0 <= i < |s| ==> s[i] != 37 && s[i] != 43
    ensures DecodeRaw(s) == Some(s)
  {
    if s != [] {
      DecodePlain(s[1..]);
      assert s == [s[0]] + s[1..];
    }
  }

  function AsKey(): Str {
    AsciiIsText(QUERY_KEY);
    QUERY_KEY
  }

  lemma DecodesTo(lossy: Bytes -> Str, s: Bytes, text: Str)
    requires Lossy(lossy) && DecodeRaw(s) == Some(text)
    ensures UrlDecode(lossy, s) == Some(text)
  {
  }

  function QueryPiece(q: Str): Bytes { QUERY_KEY + [61] + PercentEncode(q) }

  /** The pair that carries the query holds no separator and comes apart into the key and the encoded text. */
  lemma QueryPieceSplits(q: Str)
    ensures SplitOnce(QueryPiece(q), 61) == Some((QUERY_KEY, PercentEncode(q)))
    ensures 38 !in QueryPiece(q) && 63 !in QueryPiece(q) && QueryPiece(q) != []
  {
    EncodedIsPlain(q);
    SplitOnceAt(QUERY_KEY, 61, PercentEncode(q));
  }

  lemma PairBinds(lossy: Bytes -> Str, m: Params, pair: Bytes, k: Bytes, v: Bytes, key: Str, value: Str)
    requires pair != [] && SplitOnce(pair, 61) == Some((k, v))
    requires UrlDecode(lossy, k) == Some(key) && UrlDecode(lossy, v) == Some(value)
    ensures AddPair(lossy, m, pair) == Some(m[key := value])
  {
  }

  lemma KeyDecodes(lossy: Bytes -> Str)
    requires Lossy(lossy)
    ensures UrlDecode(lossy, QUERY_KEY) == Some(AsKey())
  {
    DecodePlain(QUERY_KEY);
    DecodesTo(lossy, QUERY_KEY, AsKey());
  }

  /** It binds exactly the query text. */
  lemma QueryPair(lossy: Bytes -> Str, m: Params, q: Str)
    requires Lossy(lossy)
    ensures AddPair(lossy, m, QueryPiece(q)) == Some(m[AsKey() := q])
  {
    QueryPieceSplits(q);
    KeyDecodes(lossy);
    DecodeEncoded(q);
    DecodesTo(lossy, PercentEncode(q), q);
    PairBinds(lossy, m, QueryPiece(q), QUERY_KEY, PercentEncode(q), AsKey(), q);
  }

  lemma AppendedToBare(e: Bytes, piece: Bytes)
    requires 63 !in e
    ensures SplitOnce(e + [63] + piece, 63) == Some((e, piece)) && SplitOnce(e, 63).None?
  {
    SplitOnceShrinks(e, 63);
    SplitOnceAt(e, 63, piece);
  }

  lemma AppendedToParams(e: Bytes, piece: Bytes) returns (path: Bytes, rest: Bytes)
    requires 63 in e
    ensures SplitOnce(e, 63) == Some((path, rest))
    ensures SplitOnce(e + [38] + piece, 63) == Some((path, rest + [38] + piece))
  {
    SplitOnceShrinks(e, 63);
    path, rest := SplitOnce(e, 63).value.0, SplitOnce(e, 63).value.1;
    assert e + [38] + piece == path + [63] + (rest + [38] + piece);
    SplitOnceAt(path, 63, rest + [38] + piece);
  }

  lemma OnePiece(piece: Bytes)
    requires 38 !in piece
    ensures Split(piece, 38) == [piece]
  {
    SplitOnceShrinks(piece, 38);
  }

  lemma AddLast(lossy: Bytes -> Str, pairs: seq<Bytes>, pair: Bytes)
    ensures AddPairs(lossy, pairs + [pair]) ==
      var m := AddPairs(lossy, pairs); if m.Some? then AddPair(lossy, m.value, pair) else None
  {
    assert (pairs + [pair])[..|pairs|] == pairs;
  }

  lemma AppendedAs(e: Bytes, q: Str)
    ensures AppendQuery(e, PercentEncode(q)) == e + [if 63 in e then 38 else 63] + QueryPiece(q)
  {
    var front := e + [if 63 in e then 38 else 63];
    Assoc(front, QUERY_KEY, [61]);
    Assoc(front, QUERY_KEY + [61], PercentEncode(q));
  }

  lemma BareRoundTrip(lossy: Bytes -> Str, e: Bytes, q: Str)
    requires Lossy(lossy) && 63 !in e
    ensures SplitTarget(lossy, AppendQuery(e, PercentEncode(q))) == Some(Target(e, map[AsKey() := q]))
    ensures SplitTarget(lossy, e) == Some(Target(e, map[]))
  {
    AppendedAs(e, q);
    AppendedToBare(e, QueryPiece(q));
    QueryPieceSplits(q);
    OnePiece(QueryPiece(q));
    AddLast(lossy, [], QueryPiece(q));
    assert [] + [QueryPiece(q)] == [QueryPiece(q)];
    QueryPair(lossy, map[], q);
  }

  /** Adding the query pair after other pairs binds `query` and changes nothing else. */
  lemma PairsThenQuery(lossy: Bytes -> Str, rest: Bytes, q: Str)
    requires Lossy(lossy)
    ensures AddPairs(lossy, Split(rest + [38] + QueryPiece(q), 38)) ==
      match AddPairs(lossy, Split(rest, 38))
      case Some(m) => Some(m[AsKey() := q])
      case None => None
  {
    QueryPieceSplits(q);
    SplitLast(rest, 38, QueryPiece(q));
    AddLast(lossy, Split(rest, 38), QueryPiece(q));
    var m := AddPairs(lossy, Split(rest, 38));
    if m.Some? { QueryPair(lossy, m.value, q); }
  }

  /**
   * For every endpoint and query text, taking the sent target apart gives the endpoint's own path and parameters with
   * `query` bound to exactly the text, and it panics exactly when taking the endpoint itself apart does.
   */
  lemma QueryRoundTrip(lossy: Bytes -> Str, e: Bytes, q: Str)
    requires Lossy(lossy)
    ensures SplitTarget(lossy, AppendQuery(e, PercentEncode(q))) ==
      match SplitTarget(lossy, e)
      case Some(t) => Some(Target(t.path, t.params[AsKey() := q]))
      case None => None
  {
    if 63 in e {
      AppendedAs(e, q);
      var path, rest := AppendedToParams(e, QueryPiece(q));
      PairsThenQuery(lossy, rest, q);
    } else {
      BareRoundTrip(lossy, e, q);
    }
  }

  /** Distinct texts are sent as distinct strings. */
  lemma EncodingIsInjective(a: Bytes, b: Bytes)
    ensures PercentEncode(a) == PercentEncode(b) <==> a == b
  {
    DecodeEncoded(a);
    DecodeEncoded(b);
  }

  /** Somewhere a `%` stands three bytes before the inside of a character. */
  ghost predicate CutsCharacter(s: Bytes) {
    exists i :: 0 <= i < |s| - 3 && s[i] == 37 && IsContinuation(s[i + 3])
  }

  /** Skipping bytes that are not `%` changes nothing. */
  lemma CutsLater(s: Bytes, n: nat)
    requires n <= |s| && forall i :: 0 <= i < n && i < |s| - 3 ==> !(s[i] == 37 && IsContinuation(s[i + 3]))
    ensures CutsCharacter(s) <==> CutsCharacter(s[n..])
  {
    if CutsCharacter(s) {
      var i :| 0 <= i < |s| - 3 && s[i] == 37 && IsContinuation(s[i + 3]);
      assert s[n..][i - n] == 37 && s[n..][i - n + 3] == s[i + 3];
    }
    if CutsCharacter(s[n..]) {
      var i :| 0 <= i < |s[n..]| - 3 && s[n..][i] == 37 && IsContinuation(s[n..][i + 3]);
      assert s[i + n] == 37 && s[i + n + 3] == s[n..][i + 3];
    }
  }

  lemma HexIsNotPercent(a: U8, b: U8)
    requires FromRadix16(a, b).Some?
    ensures a != 37 && b != 37
  {
  }

  /** Decoding panics exactly when some `%` stands three bytes before the inside of a character. */
  lemma {:induction false} PanicsIff(s: Bytes)
    ensures DecodeRaw(s).None? <==> CutsCharacter(s)
  {
    if s == [] {
    } else if s[0] == 37 && |s| > 2 {
      if |s| > 3 && IsContinuation(s[3]) {
        assert s[0] == 37 && IsContinuation(s[0 + 3]);
      } else if FromRadix16(s[1], s[2]).Some? {
        HexIsNotPercent(s[1], s[2]);
        CutsLater(s, 3);
        PanicsIff(s[3..]);
      } else {
        CutsLater(s, 1);
        PanicsIff(s[1..]);
      }
    } else {
      CutsLater(s, 1);
      PanicsIff(s[1..]);
    }
  }

  /** ASCII input never panics. */
  lemma AsciiNeverPanics(s: Bytes)
    requires forall i :: 0 <= i < |s| ==> s[i] < 128
    ensures DecodeRaw(s).Some?
  {
    PanicsIff(s);
  }

  /** `%a` followed by a two-byte character does: the cut falls inside the character. */
  lemma CutInsideCharacterPanics() returns (s: Bytes)
    ensures ValidUtf8(s) && DecodeRaw(s).None?
  {
    s := [37, 97, 195, 169];
    assert s[1..] == [97, 195, 169] && s[1..][1..] == [195, 169];
    assert ValidUtf8([195, 169]) by { assert [195, 169][2..] == []; }
    assert ValidUtf8([97, 195, 169]) by { assert [97, 195, 169][1..] == [195, 169]; }
  }
}
