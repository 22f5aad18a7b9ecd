/** Which tokens are numbers, said without a scanner. */
module NumberTokens {
  import opened Prelude
  import opened Geometry

  ghost predicate AllDigits(s: Bytes) { forall i :: 0 <= i < |s| ==> 48 <= s[i] <= 57 }

  ghost predicate SomeDigits(s: Bytes) { s != [] && AllDigits(s) }

  /** Nothing, or a point and digits. */
  ghost predicate IsFraction(s: Bytes) { s == [] || (s[0] == 46 && SomeDigits(s[1..])) }

  /** Nothing, or `e` or `E`, a sign or none, and digits. */
  ghost predicate IsExponent(s: Bytes) {
    s == [] ||
    (&& (s[0] == 101 || s[0] == 69)
     && (SomeDigits(s[1..]) || (|s| > 1 && (s[1] == 43 || s[1] == 45) && SomeDigits(s[2..]))))
  }

  ghost predicate IsSign(s: Bytes, plus: bool) { s == [] || s == [45] || (plus && s == [43]) }

  /** A token in its four parts. Leading zeros are taken. */
  ghost predicate IsNumber(token: Bytes, wkt: bool) {
    exists a, b, c :: 0 <= a <= b <= c <= |token| && InParts(token, a, b, c, wkt)
  }

  ghost predicate InParts(token: Bytes, a: nat, b: nat, c: nat, wkt: bool)
    requires a <= b <= c <= |token|
  {
    && IsSign(token[..a], wkt) && AllDigits(token[a..b]) && IsExponent(token[c..])
    && (if wkt then IsBareFraction(token[b..c]) && (a < b || b + 1 < c)
        else a < b && IsFraction(token[b..c]))
  }

  /** In WKT the point may have nothing after it. */
  ghost predicate IsBareFraction(s: Bytes) { s == [] || (s[0] == 46 && AllDigits(s[1..])) }

  // ---------- Digits ----------

  lemma {:induction false} DigitsEnd(s: Bytes, i: nat, j: nat)
    requires i <= j <= |s| && (forall k :: i <= k < j ==> IsDigit(s[k])) && (j < |s| ==> !IsDigit(s[j]))
    ensures DigitEnd(s, i) == j
    decreases j - i
  {
    if i < j { DigitsEnd(s, i + 1, j); }
  }

  lemma {:induction false} DigitEndIs(s: Bytes, i: nat)
    requires i <= |s|
    ensures var j := DigitEnd(s, i); AllDigits(s[i..j]) && (j < |s| ==> !IsDigit(s[j]))
    decreases |s| - i
  {
    if i < |s| && IsDigit(s[i]) {
      DigitEndIs(s, i + 1);
      var j := DigitEnd(s, i);
      assert s[i..j] == [s[i]] + s[i + 1..j];
    }
  }

  // ---------- Scanned tokens are numbers ----------

  lemma FractionScanned(s: Bytes, b: nat)
    requires b <= |s|
    ensures var c := FractionEnd(s, b);
      && IsBareFraction(s[b..c]) && (c != b + 1 ==> IsFraction(s[b..c])) && (c == b + 1 ==> !IsFraction(s[b..c]))
  {
    var c := FractionEnd(s, b);
    if At(s, b, 46) {
      DigitEndIs(s, b + 1);
      assert s[b..c][1..] == s[b + 1..c];
    }
  }

  lemma ExponentScanned(s: Bytes, c: nat)
    requires c <= |s| && ExponentEnd(s, c).Some?
    ensures IsExponent(s[c..ExponentEnd(s, c).value])
  {
    var end := ExponentEnd(s, c).value;
    if At(s, c, 101) || At(s, c, 69) {
      var from := SignEnd(s, c + 1, true);
      DigitEndIs(s, from);
      assert s[c..end][from - c..] == s[from..end];
    }
  }

  lemma SignScanned(s: Bytes, plus: bool)
    ensures IsSign(s[..SignEnd(s, 0, plus)], plus)
  {
  }

  /** What the scanner takes is a number. */
  lemma ScannedIsNumber(s: Bytes, wkt: bool)
    requires ScanNumber(s, wkt).Some?
    ensures IsNumber(s[..ScanNumber(s, wkt).value], wkt)
  {
    var a := SignEnd(s, 0, wkt);
    var b := DigitEnd(s, a);
    var c := FractionEnd(s, b);
    var n := ExponentEnd(s, c).value;
    var token := s[..n];
    SignScanned(s, wkt);
    DigitEndIs(s, a);
    FractionScanned(s, b);
    ExponentScanned(s, c);
    SameParts(s, n, a, b, c);
    assert InParts(token, a, b, c, wkt);
  }

  lemma SameParts(s: Bytes, n: nat, a: nat, b: nat, c: nat)
    requires a <= b <= c <= n <= |s|
    ensures var token := s[..n];
      token[..a] == s[..a] && token[a..b] == s[a..b] && token[b..c] == s[b..c] && token[c..] == s[c..n]
  {
  }

  // ---------- And numbers are scanned to their end ----------

  ghost predicate HasPoint(token: Bytes) {
    exists k :: 0 <= k < |token| && (token[k] == 46 || token[k] == 101 || token[k] == 69)
  }

  /** Nothing that goes on the token: a point may follow one that had a point or an exponent. */
  ghost predicate Ends(token: Bytes, rest: Bytes) {
    rest == [] ||
    (!IsDigit(rest[0]) && rest[0] != 101 && rest[0] != 69 && (rest[0] == 46 ==> HasPoint(token)))
  }

  lemma DigitsInFront(token: Bytes, rest: Bytes, i: nat, j: nat)
    requires i <= j <= |token| && AllDigits(token[i..j])
    requires j < |token| ==> !IsDigit(token[j])
    requires j == |token| ==> rest == [] || !IsDigit(rest[0])
    ensures DigitEnd(token + rest, i) == j
  {
    var s := token + rest;
    forall k | i <= k < j ensures IsDigit(s[k]) { assert s[k] == token[i..j][k - i]; }
    DigitsEnd(s, i, j);
  }

  lemma ExponentInFront(token: Bytes, rest: Bytes, c: nat)
    requires c <= |token| && IsExponent(token[c..]) && Ends(token, rest)
    ensures ExponentEnd(token + rest, c) == Some(|token|)
  {
    var s, e := token + rest, token[c..];
    if e == [] {
      AtFront(token, rest, c, 101);
      AtFront(token, rest, c, 69);
    } else {
      assert s[c] == e[0] && s[c + 1] == e[1];
      var from := if 48 <= e[1] <= 57 then c + 1 else c + 2;
      assert token[from..] == e[from - c..] && token[from..|token|] == token[from..];
      assert SignEnd(s, c + 1, true) == from;
      DigitsInFront(token, rest, from, |token|);
    }
  }

  /** What may follow the digits before the point, and those after it. */
  lemma ExponentStart(token: Bytes, c: nat)
    requires c < |token| && IsExponent(token[c..])
    ensures token[c] == 101 || token[c] == 69
  {
    assert token[c..][0] == token[c];
  }

  lemma NoPoint(token: Bytes, a: nat)
    requires a <= |token| && (a == 0 || (a == 1 && (token[0] == 43 || token[0] == 45))) && AllDigits(token[a..])
    ensures !HasPoint(token)
  {
    forall k | 0 <= k < |token| ensures token[k] != 46 && token[k] != 101 && token[k] != 69 {
      if k >= a { assert token[k] == token[a..][k - a]; }
    }
  }

  lemma FractionInFront(token: Bytes, rest: Bytes, b: nat, c: nat)
    requires b <= c <= |token| && IsBareFraction(token[b..c]) && IsExponent(token[c..]) && Ends(token, rest)
    requires b == |token| ==> !HasPoint(token)
    ensures FractionEnd(token + rest, b) == c
  {
    var s := token + rest;
    if c < |token| { ExponentStart(token, c); }
    if b == c {
      AtFront(token, rest, b, 46);
    } else {
      assert token[b..c][0] == token[b] && token[b..c][1..] == token[b + 1..c];
      DigitsInFront(token, rest, b + 1, c);
    }
  }

  lemma WholeInFront(token: Bytes, rest: Bytes, a: nat, b: nat, c: nat)
    requires a <= b <= c <= |token| && AllDigits(token[a..b]) && Ends(token, rest)
    requires IsBareFraction(token[b..c]) && IsExponent(token[c..])
    ensures DigitEnd(token + rest, a) == b
  {
    if b < c {
      assert token[b..c][0] == token[b];
    } else if c < |token| {
      ExponentStart(token, c);
    }
    DigitsInFront(token, rest, a, b);
  }

  lemma SignInFront(token: Bytes, rest: Bytes, a: nat, wkt: bool)
    requires a < |token| && IsSign(token[..a], wkt) && (IsDigit(token[a]) || token[a] == 46)
    ensures SignEnd(token + rest, 0, wkt) == a && a <= 1 && (a == 1 ==> token[0] == 43 || token[0] == 45)
  {
    if a > 0 { assert token[..a][0] == token[0]; }
  }

  lemma NumberIsScanned(token: Bytes, rest: Bytes, wkt: bool)
    requires IsNumber(token, wkt) && Ends(token, rest)
    ensures ScanNumber(token + rest, wkt) == Some(|token|)
  {
    var a, b, c :| 0 <= a <= b <= c <= |token| && InParts(token, a, b, c, wkt);
    if a < b { assert token[a..b][0] == token[a]; } else { assert token[b..c][0] == token[b]; }
    SignInFront(token, rest, a, wkt);
    WholeInFront(token, rest, a, b, c);
    if b == |token| {
      assert token[a..b] == token[a..];
      NoPoint(token, a);
    }
    FractionInFront(token, rest, b, c);
    ExponentInFront(token, rest, c);
    if !wkt && b < c { assert token[b..c][1..] != []; }
  }

  /** The scanner stops only where the token ends. */
  lemma ScannedEnds(s: Bytes, wkt: bool)
    requires ScanNumber(s, wkt).Some?
    requires var n := ScanNumber(s, wkt).value; n < |s| ==> s[n] != 101 && s[n] != 69
    ensures var n := ScanNumber(s, wkt).value; Ends(s[..n], s[n..])
  {
    var a := SignEnd(s, 0, wkt);
    var b := DigitEnd(s, a);
    var c := FractionEnd(s, b);
    var n := ScanNumber(s, wkt).value;
    DigitEndIs(s, a);
    if b < c {
      DigitEndIs(s, b + 1);
      assert s[..n][b] == 46;
    }
    if c < n {
      DigitEndIs(s, SignEnd(s, c + 1, true));
      assert s[..n][c] == s[c];
    }
  }

  /** The scanner takes a whole token exactly when it is a number. */
  lemma WholeTokenIff(token: Bytes, wkt: bool)
    ensures ScanNumber(token, wkt) == Some(|token|) <==> IsNumber(token, wkt)
  {
    if ScanNumber(token, wkt) == Some(|token|) {
      ScannedIsNumber(token, wkt);
      assert token[..|token|] == token;
    }
    if IsNumber(token, wkt) {
      NumberIsScanned(token, [], wkt);
      assert token + [] == token;
    }
  }
}
