/** The JSON parser reads exactly the texts of the grammar. */
module JsonReading {
  import opened Prelude
  import opened Text
  import opened Geometry
  import opened Json
  import opened JsonLaws
  import opened JsonGrammar

  // ---------- White space ----------

  lemma {:induction false} SkipBlank(w: Bytes, s: Bytes)
    requires Blank(w)
    ensures SkipSpace(w + s, false) == SkipSpace(s, false)
  {
    if w == [] {
      assert w + s == s;
    } else {
      SkipBlank(w[1..], s);
      assert (w + s)[1..] == w[1..] + s;
    }
  }

  /** What is skipped is white space. */
  lemma {:induction false} SkippedBlank(s: Bytes)
    ensures var n := |s| - |SkipSpace(s, false)|; Blank(s[..n]) && s[n..] == SkipSpace(s, false)
  {
    if s != [] && IsSpace(s[0], false) {
      SkippedBlank(s[1..]);
      var n := |s| - |SkipSpace(s, false)|;
      assert s[..n] == [s[0]] + s[1..][..n - 1];
    }
  }

  lemma BlankThen(w: Bytes, b: U8, rest: Bytes)
    requires Blank(w) && !IsSpace(b, false)
    ensures SkipSpace(w + ([b] + rest), false) == [b] + rest && ([b] + rest)[1..] == rest
  {
    SkipBlank(w, [b] + rest);
    Skip([b] + rest);
  }

  // ---------- Characters ----------

  lemma HexIs(b: U8, d: int)
    ensures IsHex(b, d) <==> d >= 0 && HexDigit(b) == Some(d)
  {
  }

  lemma Hex4Given(s: Bytes, d0: int, d1: int, d2: int, d3: int)
    requires |s| >= 4 && IsHex(s[0], d0) && IsHex(s[1], d1) && IsHex(s[2], d2) && IsHex(s[3], d3)
    ensures Hex4(s) == Some(((d0 * 16 + d1) * 16 + d2) * 16 + d3)
  {
    HexIs(s[0], d0);
    HexIs(s[1], d1);
    HexIs(s[2], d2);
    HexIs(s[3], d3);
  }

  lemma Hex4Taken(s: Bytes)
    requires Hex4(s).Some?
    ensures IsHexOf(s[..4], Hex4(s).value)
  {
    var d0, d1, d2, d3 := HexDigit(s[0]).value, HexDigit(s[1]).value, HexDigit(s[2]).value, HexDigit(s[3]).value;
    HexIs(s[0], d0);
    HexIs(s[1], d1);
    HexIs(s[2], d2);
    HexIs(s[3], d3);
  }

  lemma Hex4Is(u: Bytes, s: Bytes, code: int)
    requires |u| == 4
    ensures IsHexOf(u, code) <==> code >= 0 && Hex4(u + s) == Some(code)
  {
    assert (u + s)[..4] == u;
    if IsHexOf(u, code) {
      var d0, d1, d2, d3 :| IsHex(u[0], d0) && IsHex(u[1], d1) && IsHex(u[2], d2) && IsHex(u[3], d3)
        && code == ((d0 * 16 + d1) * 16 + d2) * 16 + d3;
      Hex4Given(u + s, d0, d1, d2, d3);
    }
    if Hex4(u + s).Some? { Hex4Taken(u + s); }
  }

  lemma CharOfCode(code: nat)
    requires CharBytes(code).Some?
    ensures var c := CharBytes(code).value; IsChar(c) && |c| <= 3 && CodePoint(c) == code
  {
  }

  lemma CodeOfChar(c: Bytes)
    requires IsChar(c) && |c| <= 3
    ensures CodePoint(c) >= 0 && CharBytes(CodePoint(c)) == Some(c)
  {
    var code := CodePoint(c);
    if |c| == 1 {
      assert c == [c[0]];
    } else if |c| == 2 {
      assert code / 64 == c[0] - 192 && code % 64 == c[1] - 128;
      assert c == [c[0], c[1]];
    } else {
      ThreeBytes(c[0], c[1], c[2]);
      assert c == [c[0], c[1], c[2]];
    }
  }

  lemma ThreeBytes(a: int, b: int, d: int)
    requires 128 <= b < 192 && 128 <= d < 192
    ensures var code := 4096 * (a - 0xE0) + 64 * (b - 0x80) + (d - 0x80);
      code / 4096 == a - 224 && code / 64 % 64 == b - 128 && code % 64 == d - 128
  {
    var code := 4096 * (a - 0xE0) + 64 * (b - 0x80) + (d - 0x80);
    assert code / 64 == 64 * (a - 224) + (b - 128);
  }

  ghost predicate NoCapitals(u: Bytes) { forall i :: 0 <= i < |u| ==> u[i] < 'A' as int || 'Z' as int < u[i] }

  /** How the server writes a character: five have a letter, control characters a lower-case code, the rest stand. */
  lemma EscapedIs(c: Bytes)
    requires IsChar(c)
    ensures var u := EscapedChar(c);
      if c == ['"' as int] then u == ['\\' as int, '"' as int]
      else if c == ['\\' as int] then u == ['\\' as int, '\\' as int]
      else if c == [10] then u == ['\\' as int, 'n' as int]
      else if c == [13] then u == ['\\' as int, 'r' as int]
      else if c == [9] then u == ['\\' as int, 't' as int]
      else if |c| <= 2 && (CodePoint(c) < 32 || 127 <= CodePoint(c) < 160) then
        && |u| == 6 && u[0] == '\\' as int && u[1] == 'u' as int
        && IsHexOf(u[2..], CodePoint(c)) && NoCapitals(u[2..])
      else u == c
  {
    ControlIs(c);
    var code := c[|c| - 1];
    LowerCode(code);
    assert [92, 117, 48, 48, LowerHex(code / 16), LowerHex(code % 16)][2..] ==
      [48, 48, LowerHex(code / 16), LowerHex(code % 16)];
  }

  lemma ControlIs(c: Bytes)
    requires IsChar(c)
    ensures IsControl(c) <==> |c| <= 2 && (CodePoint(c) < 32 || 127 <= CodePoint(c) < 160)
    ensures IsControl(c) ==> CodePoint(c) == c[|c| - 1]
  {
  }

  lemma LowerCode(code: U8)
    ensures var u := [48, 48, LowerHex(code / 16), LowerHex(code % 16)]; IsHexOf(u, code) && NoCapitals(u)
  {
    var u := [48, 48, LowerHex(code / 16), LowerHex(code % 16)];
    assert IsHex(u[0], 0) && IsHex(u[1], 0) && IsHex(u[2], code / 16) && IsHex(u[3], code % 16);
  }

  lemma LetterIs(e: U8, b: U8)
    ensures IsLetterFor(e, b) <==> Escape(e) == Some(b)
  {
  }

  lemma CodeRead(u: Bytes, c: Bytes, s: Bytes, text: Bytes, rest: Bytes)
    requires |u| == 6 && u[0] == 92 && u[1] == 117 && IsCode(u[2..], c) && TextAt(s, text, rest)
    ensures TextAt(u + s, c + text, rest)
  {
    CodeOfChar(c);
    Hex4Is(u[2..], s, CodePoint(c));
    assert (u + s)[2..] == u[2..] + s && (u + s)[6..] == s;
  }

  lemma UnitRead(u: Bytes, c: Bytes, s: Bytes, text: Bytes, rest: Bytes)
    requires StandsFor(u, c) && s != [] && TextAt(s, text, rest)
    ensures TextAt(u + s, c + text, rest)
  {
    if u == c && IsChar(c) && c[0] >= 32 && c[0] != 34 && c[0] != 92 {
      if |c| == 1 {
        assert c == [c[0]];
        PlainRead(c[0], s, text, rest);
      } else {
        WideRead(c, s, text, rest);
      }
    } else if |u| == 2 {
      LetterIs(u[1], c[0]);
      assert u == [92, u[1]] && c == [c[0]];
      EscapeRead(u[1], c[0], s, text, rest);
    } else {
      CodeRead(u, c, s, text, rest);
    }
  }

  lemma CharsStep(u: Bytes, c: Bytes, t: Bytes, text: Bytes, rest: Bytes)
    requires StandsFor(u, c) && TextAt(t + ([34] + rest), text, rest)
    ensures TextAt((u + t) + ([34] + rest), c + text, rest)
  {
    UnitRead(u, c, t + ([34] + rest), text, rest);
    Assoc(u, t, [34] + rest);
  }

  lemma FirstUnit(t: Bytes, text: Bytes) returns (n: nat, m: nat)
    requires CharsText(t, text) && (t != [] || text != [])
    ensures 0 < n <= |t| && 0 < m <= |text| && StandsFor(t[..n], text[..m]) && CharsText(t[n..], text[m..])
  {
    n, m :| 0 < n <= |t| && 0 < m <= |text| && StandsFor(t[..n], text[..m]) && CharsText(t[n..], text[m..]);
  }

  lemma NoChars(rest: Bytes)
    ensures TextAt([] + ([34] + rest), [], rest)
  {
    assert [] + ([34] + rest) == [34] + rest && ([34] + rest)[1..] == rest;
  }

  lemma Halves(s: Bytes, n: nat)
    requires n <= |s|
    ensures s[..n] + s[n..] == s
  {
  }

  lemma CharsFrom(t: Bytes, n: nat, text: Bytes, m: nat, rest: Bytes)
    requires n <= |t| && m <= |text| && StandsFor(t[..n], text[..m]) && Reads(t[n..] + ([34] + rest), text[m..], rest)
    ensures Reads(t + ([34] + rest), text, rest)
  {
    assert IsRead(ParseText(t[n..] + ([34] + rest)), t[n..] + ([34] + rest));
    CharsStep(t[..n], text[..m], t[n..], text[m..], rest);
    Halves(t, n);
    Halves(text, m);
  }

  // Named so that the induction does not unfold the parser.

  ghost predicate IsRead(p: Parsed<Bytes>, s: Bytes) { p == ParseText(s) }

  ghost predicate Reads(s: Bytes, text: Bytes, rest: Bytes) { forall p :: IsRead(p, s) ==> p == Ok((text, rest)) }

  lemma {:induction false} CharsRead(t: Bytes, text: Bytes, rest: Bytes)
    requires CharsText(t, text)
    ensures Reads(t + ([34] + rest), text, rest)
    decreases |t|
  {
    if t == [] && text == [] {
      NoChars(rest);
    } else {
      var n, m := FirstUnit(t, text);
      CharsRead(t[n..], text[m..], rest);
      CharsFrom(t, n, text, m, rest);
    }
  }

  lemma QuotedReads(t: Bytes, text: Bytes, rest: Bytes)
    requires QuotedText(t, text)
    ensures StartsWith(t + rest, 34) && TextAt((t + rest)[1..], text, rest)
  {
    var u := t[1..|t| - 1];
    CharsRead(u, text, rest);
    assert IsRead(ParseText(u + ([34] + rest)), u + ([34] + rest));
    assert (t + rest)[1..] == u + ([34] + rest);
  }

  // ---------- What is read as a string ----------

  lemma UnitInFront(u: Bytes, c: Bytes, t: Bytes, text: Bytes)
    requires u != [] && c != [] && StandsFor(u, c) && CharsText(t, text)
    ensures CharsText(u + t, c + text)
  {
    assert (u + t)[..|u|] == u && (u + t)[|u|..] == t && (c + text)[..|c|] == c && (c + text)[|c|..] == text;
  }

  lemma RunStep(c: Bytes, run: Bytes, t: Bytes, text: Bytes)
    requires IsChar(c) && c[0] >= 0x80 && CharsText(run + t, run + text)
    ensures CharsText((c + run) + t, (c + run) + text)
  {
    UnitInFront(c, c, run + t, run + text);
    Assoc(c, run, t);
    Assoc(c, run, text);
  }

  lemma {:induction false} RunInFront(run: Bytes, t: Bytes, text: Bytes)
    requires ValidUtf8(run) && (forall i :: 0 <= i < |run| ==> run[i] >= 0x80) && CharsText(t, text)
    ensures CharsText(run + t, run + text)
    decreases |run|
  {
    if run == [] {
      assert run + t == t && run + text == text;
    } else {
      var n := CharWidth(run);
      RunInFront(run[n..], t, text);
      FirstChar(run);
      RunStep(run[..n], run[n..], t, text);
      assert run[..n] + run[n..] == run;
    }
  }

  /** Up to the closing quote the text stands for the string. */
  ghost predicate Spelled(s: Bytes, text: Bytes, rest: Bytes) {
    exists t :: s == t + ([34] + rest) && CharsText(t, text)
  }

  lemma SpelledFrom(s: Bytes, n: nat, t: Bytes, text: Bytes, rest: Bytes)
    requires n <= |s| && s[n..] == t + ([34] + rest) && CharsText(s[..n] + t, text)
    ensures Spelled(s, text, rest)
  {
    Assoc(s[..n], t, [34] + rest);
    assert s == s[..n] + s[n..];
  }

  lemma SpelledUnit(s: Bytes, n: nat, c: Bytes, text: Bytes, rest: Bytes)
    requires 0 < n <= |s| && c != [] && StandsFor(s[..n], c) && Spelled(s[n..], text, rest)
    ensures Spelled(s, c + text, rest)
  {
    var t :| s[n..] == t + ([34] + rest) && CharsText(t, text);
    UnitInFront(s[..n], c, t, text);
    SpelledFrom(s, n, t, c + text, rest);
  }

  lemma SpelledRun(s: Bytes, n: nat, text: Bytes, rest: Bytes)
    requires n <= |s| && ValidUtf8(s[..n]) && (forall i :: 0 <= i < n ==> s[i] >= 0x80) && Spelled(s[n..], text, rest)
    ensures Spelled(s, s[..n] + text, rest)
  {
    var t :| s[n..] == t + ([34] + rest) && CharsText(t, text);
    RunInFront(s[..n], t, text);
    SpelledFrom(s, n, t, s[..n] + text, rest);
  }

  lemma SpelledCode(s: Bytes, text: Bytes, rest: Bytes)
    requires |s| >= 6 && s[0] == 92 && s[1] == 117 && Hex4(s[2..]).Some? && CharBytes(Hex4(s[2..]).value).Some?
    requires Spelled(s[6..], text, rest)
    ensures Spelled(s, CharBytes(Hex4(s[2..]).value).value + text, rest)
  {
    var code := Hex4(s[2..]).value;
    var c := CharBytes(code).value;
    CharOfCode(code);
    assert s[2..6] + s[6..] == s[2..] && s[..6][2..] == s[2..6];
    Hex4Is(s[2..6], s[6..], code);
    SpelledUnit(s, 6, c, text, rest);
  }

  lemma {:induction false} TextSpelled(s: Bytes)
    requires ParseText(s).Ok?
    ensures Spelled(s, ParseText(s).value.0, ParseText(s).value.1)
    decreases |s|
  {
    if s[0] == 34 {
      assert s == [] + ([34] + s[1..]) && CharsText([], []);
    } else if s[0] == 92 {
      if s[1] == 117 {
        TextSpelled(s[6..]);
        SpelledCode(s, ParseText(s[6..]).value.0, ParseText(s).value.1);
      } else {
        TextSpelled(s[2..]);
        LetterIs(s[1], Escape(s[1]).value);
        SpelledUnit(s, 2, [Escape(s[1]).value], ParseText(s[2..]).value.0, ParseText(s).value.1);
      }
    } else if s[0] >= 0x80 {
      var end := HighEnd(s, 1);
      HighEndRun(s, 1);
      TextSpelled(s[end..]);
      SpelledRun(s, end, ParseText(s[end..]).value.0, ParseText(s).value.1);
    } else {
      TextSpelled(s[1..]);
      SpelledUnit(s, 1, [s[0]], ParseText(s[1..]).value.0, ParseText(s).value.1);
    }
  }
}
