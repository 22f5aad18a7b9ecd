/** The equality that the derived comparison of terms gives, beside equality of bits. */
module TermEquality {
  import opened CanonicalSpec

  // ---------- Floating-point bits ----------

  const SIGN64: nat := 0x8000_0000_0000_0000
  const INFINITY64: nat := 0x7FF0_0000_0000_0000
  const SIGN32: nat := 0x8000_0000
  const INFINITY32: nat := 0x7F80_0000

  function Magnitude(bits: nat, sign: nat): nat { if bits < sign then bits else bits - sign }

  predicate NaNBits(bits: nat, sign: nat, infinity: nat) { Magnitude(bits, sign) > infinity }

  /** IEEE equality: NaN equals nothing, the two zeros are equal, everything else is equal to its own bits. */
  predicate EqualFloats(a: nat, b: nat, sign: nat, infinity: nat) {
    && !NaNBits(a, sign, infinity) && !NaNBits(b, sign, infinity)
    && (a == b || (Magnitude(a, sign) == 0 && Magnitude(b, sign) == 0))
  }

  /** In a double NaN is 11 exponent bits of 1 and a fraction; the two zeros have neither exponent nor fraction. */
  lemma DoubleFields(bits: nat)
    requires bits < 0x1_0000_0000_0000_0000
    ensures NaNBits(bits, SIGN64, INFINITY64) <==>
      bits / 0x10_0000_0000_0000 % 0x800 == 0x7FF && bits % 0x10_0000_0000_0000 != 0
    ensures Magnitude(bits, SIGN64) == 0 <==> bits == 0 || bits == 0x8000_0000_0000_0000
  {
  }

  /** In a float it is 8 exponent bits. */
  lemma FloatFields(bits: nat)
    requires bits < 0x1_0000_0000
    ensures NaNBits(bits, SIGN32, INFINITY32) <==> bits / 0x80_0000 % 0x100 == 0xFF && bits % 0x80_0000 != 0
    ensures Magnitude(bits, SIGN32) == 0 <==> bits == 0 || bits == 0x8000_0000
  {
  }

  // ---------- Terms ----------

  predicate SameValue(v: LiteralValue, w: LiteralValue) {
    match v
    case DecimalValue(bits) => w.DecimalValue? && EqualFloats(bits, w.bits, SIGN64, INFINITY64)
    case FloatValue(bits) => w.FloatValue? && EqualFloats(bits, w.bits32, SIGN32, INFINITY32)
    case DoubleValue(bits) => w.DoubleValue? && EqualFloats(bits, w.bits, SIGN64, INFINITY64)
    case _ => v == w
  }

  /** `a == b` as the program compares terms. */
  predicate Same(a: Term, b: Term): (r: bool)
    ensures r <==> !IsNaN(a) && Norm(a) == Norm(b)
  {
    if a.LiteralTerm? && b.LiteralTerm? then SameValue(a.value, b.value) else a == b
  }

  predicate IsNaN(t: Term) {
    && t.LiteralTerm?
    && match t.value
       case DecimalValue(bits) => NaNBits(bits, SIGN64, INFINITY64)
       case FloatValue(bits) => NaNBits(bits, SIGN32, INFINITY32)
       case DoubleValue(bits) => NaNBits(bits, SIGN64, INFINITY64)
       case _ => false
  }

  /** Which terms are NaN, by their exponent and fraction bits. */
  lemma IsNaNIff(t: Term)
    ensures IsNaN(t) <==>
      t.LiteralTerm? &&
      match t.value
      case DecimalValue(bits) => bits / 0x10_0000_0000_0000 % 0x800 == 0x7FF && bits % 0x10_0000_0000_0000 != 0
      case DoubleValue(bits) => bits / 0x10_0000_0000_0000 % 0x800 == 0x7FF && bits % 0x10_0000_0000_0000 != 0
      case FloatValue(bits) => bits / 0x80_0000 % 0x100 == 0xFF && bits % 0x80_0000 != 0
      case _ => false
  {
    if t.LiteralTerm? {
      match t.value
      case DecimalValue(bits) => DoubleFields(bits);
      case DoubleValue(bits) => DoubleFields(bits);
      case FloatValue(bits) => FloatFields(bits);
      case _ =>
    }
  }

  predicate NegativeZero(t: Term) {
    && t.LiteralTerm?
    && match t.value
       case DecimalValue(bits) => bits == SIGN64
       case FloatValue(bits) => bits == SIGN32
       case DoubleValue(bits) => bits == SIGN64
       case _ => false
  }

  function PlainZero(v: LiteralValue): LiteralValue {
    match v
    case DecimalValue(_) => DecimalValue(0)
    case FloatValue(_) => FloatValue(0)
    case _ => DoubleValue(0)
  }

  /** The term, or the plain zero for a negative one. */
  function Norm(t: Term): (r: Term)
    ensures IsNaN(r) <==> IsNaN(t)
    ensures r != t <==> NegativeZero(t)
    ensures !NegativeZero(r)
  {
    if NegativeZero(t) then LiteralTerm(PlainZero(t.value)) else t
  }

  /** Symmetric and transitive, and reflexive everywhere but at NaN. */
  lemma SameIsEquality(a: Term, b: Term, c: Term)
    ensures Same(a, a) <==> !IsNaN(a)
    ensures Same(a, b) <==> Same(b, a)
    ensures Same(a, b) && Same(b, c) ==> Same(a, c)
  {
  }

  /** Equal terms differ in bits exactly when they are the two zeros of one type. */
  lemma SameBitsIff(a: Term, b: Term)
    requires Same(a, b)
    ensures a != b <==> NegativeZero(a) != NegativeZero(b)
  {
  }

  // ---------- Lists ----------

  /** The search by `==`. */
  predicate Has(ts: seq<Term>, x: Term): (r: bool)
    ensures r <==> !IsNaN(x) && Listed(ts, x)
  {
    exists i :: 0 <= i < |ts| && Same(ts[i], x)
  }

  /** The list has the term's own bits, or the other zero. */
  ghost predicate Listed(ts: seq<Term>, x: Term) { exists i :: 0 <= i < |ts| && Norm(ts[i]) == Norm(x) }

  /** No two positions hold equal terms. */
  ghost predicate Apart(ts: seq<Term>) { forall i, j :: 0 <= i < j < |ts| ==> !Same(ts[i], ts[j]) }

  lemma ListedIn(ts: seq<Term>, x: Term)
    requires x in ts
    ensures Listed(ts, x)
  {
    var i :| 0 <= i < |ts| && ts[i] == x;
  }

  lemma ListedJoin(a: seq<Term>, b: seq<Term>, x: Term)
    ensures Listed(a + b, x) <==> Listed(a, x) || Listed(b, x)
  {
    if Listed(a, x) {
      var i :| 0 <= i < |a| && Norm(a[i]) == Norm(x);
      assert (a + b)[i] == a[i];
    }
    if Listed(b, x) {
      var i :| 0 <= i < |b| && Norm(b[i]) == Norm(x);
      assert (a + b)[|a| + i] == b[i];
    }
  }

  /** No other zero beside a listed one. */
  lemma ApartZeros(ts: seq<Term>, x: Term, y: Term)
    requires Apart(ts) && x in ts && y in ts && Norm(x) == Norm(y)
    ensures x == y
  {
    var i :| 0 <= i < |ts| && ts[i] == x;
    var j :| 0 <= j < |ts| && ts[j] == y;
    assert i < j ==> !Same(ts[i], ts[j]);
    assert j < i ==> !Same(ts[j], ts[i]);
  }
}
