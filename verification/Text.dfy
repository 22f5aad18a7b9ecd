/** UTF-8 well-formedness (table 3-7 of the Unicode standard, as in RFC 3629) and text values. */
module Text {
  import opened Prelude

  type U64 = n: nat | n < 0x1_0000_0000_0000_0000

  predicate IsContinuation(b: U8) { 0x80 <= b < 0xC0 }

  /** Length of the well-formed character at the front of `s`, or 0 if there is none. */
  function CharWidth(s: Bytes): (n: nat)
    requires s != []
    ensures n <= |s|
  {
    if s[0] < 0x80 then 1
    else if |s| >= 2 && 0xC2 <= s[0] < 0xE0 && IsContinuation(s[1]) then 2
    else if |s| >= 3 && IsContinuation(s[1]) && IsContinuation(s[2]) && ThreeByteLead(s[0], s[1]) then 3
    else if |s| >= 4 && IsContinuation(s[1]) && IsContinuation(s[2]) && IsContinuation(s[3])
            && FourByteLead(s[0], s[1]) then 4
    else 0
  }

  predicate ThreeByteLead(a: U8, b: U8) {
    || (a == 0xE0 && b >= 0xA0)
    || 0xE1 <= a <= 0xEC
    || (a == 0xED && b < 0xA0)
    || 0xEE <= a <= 0xEF
  }

  predicate FourByteLead(a: U8, b: U8) {
    || (a == 0xF0 && b >= 0x90)
    || 0xF1 <= a <= 0xF3
    || (a == 0xF4 && b < 0x90)
  }

  predicate ValidUtf8(s: Bytes) {
    s == [] || (var n := CharWidth(s); n > 0 && ValidUtf8(s[n..]))
  }

  /** A string value: well-formed bytes whose length fits the 64-bit length field. */
  type Str = s: Bytes | ValidUtf8(s) && |s| < 0x1_0000_0000_0000_0000

  lemma {:induction false} AsciiIsText(s: Bytes)
    requires forall i :: 0 <= i < |s| ==> s[i] < 128
    ensures ValidUtf8(s)
  {
    if s != [] { AsciiIsText(s[1..]); }
  }

  lemma {:induction false} Utf8Join(a: Bytes, b: Bytes)
    requires ValidUtf8(a) && ValidUtf8(b)
    ensures ValidUtf8(a + b)
  {
    if a == [] {
      assert a + b == b;
    } else {
      var n := CharWidth(a);
      Utf8Join(a[n..], b);
      FirstWidth(a, b);
      TailJoin(a, n, b);
    }
  }

  lemma FirstWidth(a: Bytes, b: Bytes)
    requires a != [] && CharWidth(a) > 0
    ensures CharWidth(a + b) == CharWidth(a)
  {
  }

  lemma TailJoin(a: Bytes, n: nat, b: Bytes)
    requires n <= |a|
    ensures (a + b)[n..] == a[n..] + b
  {
  }

  // ---------- Little-endian integers ----------

  /** Byte `i` of `n`, counting from the least significant. */
  function Octet(n: nat, i: nat): U8
    decreases i
  {
    if i == 0 then n % 256 else Octet(n / 256, i - 1)
  }

  /** `k` bytes of `n`, least significant first. */
  function LE(n: nat, k: nat): (r: Bytes)
    ensures |r| == k
  {
    seq(k, i requires 0 <= i < k => Octet(n, i))
  }

  lemma LEStep(n: nat, k: nat)
    ensures LE(n, k + 1) == [n % 256] + LE(n / 256, k)
  {
    var r := [n % 256] + LE(n / 256, k);
    forall i | 0 <= i < k + 1 ensures LE(n, k + 1)[i] == r[i] {
      if i > 0 { assert r[i] == LE(n / 256, k)[i - 1]; }
    }
  }

  function FromLE(b: Bytes): nat {
    if b == [] then 0 else b[0] + 256 * FromLE(b[1..])
  }

  function Pow256(k: nat): nat { if k == 0 then 1 else 256 * Pow256(k - 1) }

  lemma {:induction false} FromLEOfLE(n: nat, k: nat)
    requires n < Pow256(k)
    ensures FromLE(LE(n, k)) == n
  {
    if k > 0 {
      FromLEOfLE(n / 256, k - 1);
      LEStep(n, k - 1);
      assert LE(n, k)[1..] == LE(n / 256, k - 1);
    }
  }

  lemma {:induction false} LEOfFromLE(b: Bytes)
    ensures LE(FromLE(b), |b|) == b && FromLE(b) < Pow256(|b|)
  {
    if b != [] {
      LEOfFromLE(b[1..]);
      LEStep(FromLE(b), |b| - 1);
      assert FromLE(b) % 256 == b[0] && FromLE(b) / 256 == FromLE(b[1..]);
    }
  }

  lemma EightBytes()
    ensures Pow256(8) == 0x1_0000_0000_0000_0000 && Pow256(4) == 0x1_0000_0000
  {
    assert Pow256(4) == 0x1_0000_0000;
    assert Pow256(6) == 0x1_0000_0000_0000;
  }

  lemma Assoc(a: Bytes, b: Bytes, c: Bytes)
    ensures (a + b) + c == a + (b + c)
  {
  }

  // ---------- Byte-wise order of strings ----------

  predicate LexLe(a: Bytes, b: Bytes) {
    a == [] || (b != [] && (a[0] < b[0] || (a[0] == b[0] && LexLe(a[1..], b[1..]))))
  }

  lemma LexTotal(a: Bytes, b: Bytes)
    ensures LexLe(a, b) || LexLe(b, a)
  {
  }

  lemma {:induction false} LexAntisymmetric(a: Bytes, b: Bytes)
    requires LexLe(a, b) && LexLe(b, a)
    ensures a == b
  {
    if a != [] && b != [] {
      LexAntisymmetric(a[1..], b[1..]);
      assert a == [a[0]] + a[1..] && b == [b[0]] + b[1..];
    }
  }

  lemma {:induction false} LexTransitive(a: Bytes, b: Bytes, c: Bytes)
    requires LexLe(a, b) && LexLe(b, c)
    ensures LexLe(a, c)
  {
    if a != [] && a[0] == b[0] == c[0] { LexTransitive(a[1..], b[1..], c[1..]); }
  }
}
