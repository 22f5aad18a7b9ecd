/** What encoding, decoding and splitting a query URL come to, said without their code. */
module QueryFacts {
  import opened Prelude
  import opened Text
  import opened QueryUrl

  // ---------- Encoding ----------

  /** Letters, digits and the four marks of RFC 3986, section 2.3. */
  ghost predicate StaysPlain(b: U8) {
    || 'A' as int <= b <= 'Z' as int || 'a' as int <= b <= 'z' as int || '0' as int <= b <= '9' as int
    || b == '-' as int || b == '.' as int || b == '_' as int || b == '~' as int
  }

  /** The upper-case hexadecimal digit `d`. */
  ghost predicate IsUpperDigit(b: U8, d: int) {
    (0 <= d < 10 && b as int == '0' as int + d) || (10 <= d < 16 && b as int == 'A' as int + d - 10)
  }

  /** What one byte is sent as. */
  ghost predicate SentAs(b: U8, u: Bytes) {
    if StaysPlain(b) then u == [b]
    else |u| == 3 && u[0] == 37 && IsUpperDigit(u[1], b / 16) && IsUpperDigit(u[2], b % 16)
  }

  lemma ByteIsSent(b: U8, u: Bytes)
    ensures PercentEncode([b]) == u <==> SentAs(b, u)
  {
    assert [b][1..] == [];
    assert PercentEncode([b]) == EncodedByte(b) + [];
    var e := EncodedByte(b);
    assert SentAs(b, e);
    if SentAs(b, u) && |u| == 3 { assert u == [u[0], u[1], u[2]]; }
  }

  lemma EncodesFirst(b: U8, rest: Bytes)
    ensures PercentEncode([b] + rest) == EncodedByte(b) + PercentEncode(rest)
  {
    assert ([b] + rest)[1..] == rest;
  }

  /** Text is sent byte by byte. */
  lemma {:induction false} EncodingJoins(a: Bytes, b: Bytes)
    ensures PercentEncode(a + b) == PercentEncode(a) + PercentEncode(b)
  {
    if a == [] {
      assert a + b == b;
    } else {
      var rest := a[1..];
      EncodingJoins(rest, b);
      EncodesFirst(a[0], rest);
      EncodesFirst(a[0], rest + b);
      assert a == [a[0]] + rest;
      Assoc([a[0]], rest, b);
      Assoc(EncodedByte(a[0]), PercentEncode(rest), PercentEncode(b));
    }
  }

  // ---------- Decoding ----------

  /** The hexadecimal digit `d`, in either case. */
  ghost predicate IsDigitOf(b: U8, d: int) {
    || (0 <= d < 10 && b as int == '0' as int + d)
    || (10 <= d < 16 && (b as int == 'A' as int + d - 10 || b as int == 'a' as int + d - 10))
  }

  /** The two bytes after a `%` that give `v`: two digits, or a plus and a digit. */
  ghost predicate IsPairOf(a: U8, b: U8, v: int) {
    exists d, e :: IsDigitOf(b, e) && ((IsDigitOf(a, d) && v == 16 * d + e) || (a == '+' as int && d == 0 && v == e))
  }

  lemma DigitIs(b: U8, d: int)
    ensures IsDigitOf(b, d) <==> d >= 0 && HexDigit(b) == Some(d)
  {
  }

  lemma PairIs(a: U8, b: U8, v: int)
    ensures IsPairOf(a, b, v) <==> v >= 0 && FromRadix16(a, b) == Some(v)
  {
    forall d ensures IsDigitOf(a, d) <==> d >= 0 && HexDigit(a) == Some(d) { DigitIs(a, d); }
    forall d ensures IsDigitOf(b, d) <==> d >= 0 && HexDigit(b) == Some(d) { DigitIs(b, d); }
    if FromRadix16(a, b) == Some(v) {
      var e := HexDigit(b).value;
      var d := if HexDigit(a).Some? then HexDigit(a).value else 0;
      assert IsDigitOf(b, e) && (IsDigitOf(a, d) || a == '+' as int);
    }
  }

  /** An escape at the front. */
  ghost predicate Escaped(s: Bytes) { |s| >= 3 && s[0] == '%' as int && exists v :: IsPairOf(s[1], s[2], v) }

  /** The first `n` bytes stand for the byte `b`. A `%` that begins no escape stands for itself. */
  ghost predicate FrontIs(s: Bytes, n: int, b: U8) {
    && s != []
    && if Escaped(s) then n == 3 && IsPairOf(s[1], s[2], b)
       else n == 1 && b as int == if s[0] == '+' as int then ' ' as int else s[0] as int
  }

  ghost predicate DecodedAs(s: Bytes, out: Bytes)
    decreases |s|
  {
    if s == [] then out == []
    else exists n :: 1 <= n <= |s| && out != [] && FrontIs(s, n, out[0]) && DecodedAs(s[n..], out[1..])
  }

  lemma FrontOf(s: Bytes) returns (n: nat, b: U8)
    requires s != [] && DecodeRaw(s).Some?
    ensures 1 <= n <= |s| && FrontIs(s, n, b) && DecodeRaw(s) == Cons(b, DecodeRaw(s[n..]))
    ensures forall n', b' :: FrontIs(s, n', b') ==> n' == n && b' == b
  {
    if |s| >= 3 {
      forall v ensures IsPairOf(s[1], s[2], v) <==> v >= 0 && FromRadix16(s[1], s[2]) == Some(v) {
        PairIs(s[1], s[2], v);
      }
    }
    if Escaped(s) {
      n, b := 3, FromRadix16(s[1], s[2]).value;
    } else {
      n, b := 1, if s[0] == 43 then 32 else s[0];
    }
  }

  /** Decoding that does not panic gives exactly the text that the pieces stand for. */
  lemma {:induction false} DecodeIff(s: Bytes, out: Bytes)
    ensures DecodeRaw(s) == Some(out) <==> DecodedAs(s, out) && !CutsCharacter(s)
    decreases |s|
  {
    PanicsIff(s);
    if s != [] && DecodeRaw(s).Some? {
      var n, b := FrontOf(s);
      PanicsIff(s[n..]);
      if out != [] {
        DecodeIff(s[n..], out[1..]);
        assert out == [out[0]] + out[1..];
      }
      if DecodeRaw(s) == Some(out) { assert out[1..] == DecodeRaw(s[n..]).value; }
    }
  }

  // ---------- Splitting ----------

  /** The cut is at the first separator. */
  lemma CutIff(s: Bytes, sep: U8, a: Bytes, b: Bytes)
    ensures SplitOnce(s, sep) == Some((a, b)) <==> s == a + [sep] + b && sep !in a
    ensures SplitOnce(s, sep) == None <==> sep !in s
  {
    SplitOnceShrinks(s, sep);
    if sep !in a { SplitOnceAt(a, sep, b); }
  }

  function Joined(pieces: seq<Bytes>, sep: U8): Bytes {
    if pieces == [] then []
    else if |pieces| == 1 then pieces[0]
    else pieces[0] + [sep] + Joined(pieces[1..], sep)
  }

  ghost predicate Without(pieces: seq<Bytes>, sep: U8) {
    forall i :: 0 <= i < |pieces| ==> sep !in pieces[i]
  }

  lemma {:induction false} SplitJoins(s: Bytes, sep: U8)
    ensures Without(Split(s, sep), sep) && Joined(Split(s, sep), sep) == s
    decreases |s|
  {
    SplitOnceShrinks(s, sep);
    var cut := SplitOnce(s, sep);
    if cut.Some? { SplitJoins(cut.value.1, sep); }
  }

  lemma {:induction false} SplitOfJoined(pieces: seq<Bytes>, sep: U8)
    requires pieces != [] && Without(pieces, sep)
    ensures Split(Joined(pieces, sep), sep) == pieces
  {
    if |pieces| == 1 {
      SplitOnceShrinks(pieces[0], sep);
    } else {
      assert Without(pieces[1..], sep) by {
        forall i | 0 <= i < |pieces[1..]| ensures sep !in pieces[1..][i] { assert pieces[1..][i] == pieces[i + 1]; }
      }
      SplitOfJoined(pieces[1..], sep);
      SplitOnceAt(pieces[0], sep, Joined(pieces[1..], sep));
    }
  }

  /** Splitting gives the one list of pieces without separators that joins to the text. */
  lemma SplitIff(s: Bytes, sep: U8, pieces: seq<Bytes>)
    requires pieces != []
    ensures Split(s, sep) == pieces <==> Without(pieces, sep) && Joined(pieces, sep) == s
  {
    SplitJoins(s, sep);
    if Without(pieces, sep) { SplitOfJoined(pieces, sep); }
  }

  // ---------- Parameters ----------

  /** The piece is a key and a value, at its first `=`, or a key alone, whose value is empty. */
  ghost predicate IsPair(pair: Bytes, k: Bytes, v: Bytes) {
    (pair == k + ['=' as int] + v && '=' as int !in k) || ('=' as int !in pair && k == pair && v == [])
  }

  /** The piece binds the key to the value. */
  ghost predicate Binds(lossy: Bytes -> Str, pair: Bytes, key: Str, value: Str) {
    && pair != []
    && exists k, v :: IsPair(pair, k, v) && UrlDecode(lossy, k) == Some(key)
         && if '=' as int in pair then UrlDecode(lossy, v) == Some(value) else value == []
  }

  lemma PairBindsIff(lossy: Bytes -> Str, m: Params, pair: Bytes, key: Str, value: Str)
    requires pair != []
    ensures Binds(lossy, pair, key, value) ==> AddPair(lossy, m, pair) == Some(m[key := value])
    ensures AddPair(lossy, m, pair) == None <==> forall k, v :: !Binds(lossy, pair, k, v)
  {
    SplitOnceShrinks(pair, 61);
    var cut := SplitOnce(pair, 61);
    var k, v := if cut.Some? then cut.value.0 else pair, if cut.Some? then cut.value.1 else [];
    assert IsPair(pair, k, v);
    forall k', v' | IsPair(pair, k', v') ensures k' == k && v' == v {
      if pair == k' + [61] + v' && 61 !in k' { SplitOnceAt(k', 61, v'); }
    }
    if AddPair(lossy, m, pair).Some? {
      var dk := UrlDecode(lossy, k).value;
      var dv := if cut.Some? then UrlDecode(lossy, v).value else [];
      assert Binds(lossy, pair, dk, dv);
    }
  }

  /** The last piece that binds the key is at `i`, and gives it the value. */
  ghost predicate LastBinds(lossy: Bytes -> Str, pairs: seq<Bytes>, i: int, key: Str, value: Str) {
    && 0 <= i < |pairs| && Binds(lossy, pairs[i], key, value)
    && forall j, v :: i < j < |pairs| ==> !Binds(lossy, pairs[j], key, v)
  }

  ghost predicate NoneBinds(lossy: Bytes -> Str, pairs: seq<Bytes>, key: Str) {
    forall j, v :: 0 <= j < |pairs| ==> !Binds(lossy, pairs[j], key, v)
  }

  /** For every key the last piece that binds it counts; empty pieces bind nothing. */
  lemma {:induction false} ParamsAre(lossy: Bytes -> Str, pairs: seq<Bytes>, key: Str, i: int, value: Str)
    requires AddPairs(lossy, pairs).Some?
    ensures var m := AddPairs(lossy, pairs).value;
      && (LastBinds(lossy, pairs, i, key, value) ==> key in m && m[key] == value)
      && (NoneBinds(lossy, pairs, key) ==> key !in m)
  {
    if pairs != [] {
      var n := |pairs| - 1;
      var m := AddPairs(lossy, pairs[..n]).value;
      ParamsAre(lossy, pairs[..n], key, i, value);
      OneMore(lossy, m, pairs[n], key, value);
      if LastBinds(lossy, pairs, i, key, value) && i < n { assert !Binds(lossy, pairs[n], key, value); }
    }
  }

  lemma OneMore(lossy: Bytes -> Str, m: Params, pair: Bytes, key: Str, value: Str)
    requires AddPair(lossy, m, pair).Some?
    ensures var next := AddPair(lossy, m, pair).value;
      if exists v :: Binds(lossy, pair, key, v) then Binds(lossy, pair, key, value) ==> key in next && next[key] == value
      else (key in next <==> key in m) && (key in m ==> next[key] == m[key])
  {
    if pair != [] {
      PairBindsIff(lossy, m, pair, key, value);
      var k, v :| Binds(lossy, pair, k, v);
      PairBindsIff(lossy, m, pair, k, v);
    }
  }

  ghost predicate BindsNothing(lossy: Bytes -> Str, pair: Bytes) {
    pair != [] && forall k, v :: !Binds(lossy, pair, k, v)
  }

  lemma PairPanicsIff(lossy: Bytes -> Str, m: Params, pair: Bytes)
    ensures AddPair(lossy, m, pair) == None <==> BindsNothing(lossy, pair)
  {
    if pair != [] { PairBindsIff(lossy, m, pair, [], []); }
  }

  /** Taking the pieces in panics exactly when some piece that is not empty binds nothing. */
  lemma {:induction false} ParamsPanicIff(lossy: Bytes -> Str, pairs: seq<Bytes>)
    ensures AddPairs(lossy, pairs) == None <==> exists i :: 0 <= i < |pairs| && BindsNothing(lossy, pairs[i])
  {
    if pairs != [] {
      var n := |pairs| - 1;
      ParamsPanicIff(lossy, pairs[..n]);
      var m := AddPairs(lossy, pairs[..n]);
      if m.Some? {
        PairPanicsIff(lossy, m.value, pairs[n]);
      } else {
        var i :| 0 <= i < n && BindsNothing(lossy, pairs[..n][i]);
        assert BindsNothing(lossy, pairs[i]);
      }
    }
  }

  // ---------- Targets ----------

  lemma NoQuestionMark(lossy: Bytes -> Str, target: Bytes)
    requires '?' as int !in target
    ensures SplitTarget(lossy, target) == Some(Target(target, map[]))
  {
    SplitOnceShrinks(target, 63);
  }

  /** After the first question mark the pieces between ampersands are the parameters. */
  lemma TargetIs(lossy: Bytes -> Str, path: Bytes, pairs: seq<Bytes>)
    requires '?' as int !in path && pairs != [] && Without(pairs, '&' as int)
    ensures SplitTarget(lossy, path + ['?' as int] + Joined(pairs, '&' as int)) ==
      match AddPairs(lossy, pairs)
      case Some(m) => Some(Target(path, m))
      case None => None
  {
    SplitOnceAt(path, 63, Joined(pairs, 38));
    SplitOfJoined(pairs, 38);
  }

  /** The query goes out as the parameter `query`, behind an ampersand when the endpoint has parameters. */
  lemma SentTarget(e: Bytes, encoded: Bytes)
    ensures AppendQuery(e, encoded) ==
      e + [if '?' as int in e then '&' as int else '?' as int]
        + ['q' as int, 'u' as int, 'e' as int, 'r' as int, 'y' as int, '=' as int] + encoded
    ensures AsKey() == ['q' as int, 'u' as int, 'e' as int, 'r' as int, 'y' as int]
  {
    var front := e + [if 63 in e then 38 else 63];
    assert front + QUERY_KEY + [61] == front + [113, 117, 101, 114, 121, 61];
  }
}
