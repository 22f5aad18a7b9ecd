/** The growing canonical buffer, proved to hold the specified bytes. */
module Canonical {
  import opened Prelude
  import opened Sorting
  import opened Text
  import opened KoTypes
  import opened CanonicalSpec

  class CanonicalWriter {
    var buf: Bytes

    constructor ()
      ensures buf == []
    {
      buf := [];
    }

    method WriteTag(tag: Bytes)
      modifies this
      ensures buf == old(buf) + tag
    {
      buf := buf + tag;
    }

    method WriteU64(value: U64)
      modifies this
      ensures buf == old(buf) + LE(value, 8)
    {
      buf := buf + LE(value, 8);
    }

    method WriteBytes(bytes: Bytes)
      modifies this
      ensures buf == old(buf) + Field(bytes)
    {
      var len := |bytes| % 0x1_0000_0000;
      buf := buf + LE(len, 4);
      buf := buf + bytes;
      Assoc(old(buf), LE(len, 4), bytes);
    }
  }

  method WriteValue(v: LiteralValue, out: CanonicalWriter)
    modifies out
    ensures out.buf == old(out.buf) + ValueBytes(v)
  {
    match v
    case StringValue(text) =>
      out.WriteTag([76, 83]);
      out.WriteBytes(text);
      Assoc(old(out.buf), [76, 83], Field(text));
    case LangValue(text, lang) =>
      out.WriteTag([76, 71]);
      out.WriteBytes(text);
      out.WriteBytes(lang);
      Join3(old(out.buf), [76, 71], Field(text), Field(lang));
    case TypedValue(text, iri) =>
      out.WriteTag([76, 84]);
      out.WriteBytes(text);
      out.WriteBytes(iri);
      Join3(old(out.buf), [76, 84], Field(text), Field(iri));
    case IntegerValue(number) =>
      out.WriteTag([76, 73]);
      out.WriteBytes(IntegerText(number));
      Assoc(old(out.buf), [76, 73], Field(IntegerText(number)));
    case DecimalValue(bits) =>
      out.WriteTag([76, 68]);
      out.WriteU64(bits);
      Assoc(old(out.buf), [76, 68], LE(bits, 8));
    case FloatValue(bits) =>
      out.WriteTag([76, 70]);
      out.WriteU64(bits);
      Assoc(old(out.buf), [76, 70], LE(bits, 8));
    case DoubleValue(bits) =>
      out.WriteTag([76, 81]);
      out.WriteU64(bits);
      Assoc(old(out.buf), [76, 81], LE(bits, 8));
    case BooleanValue(truth) =>
      out.WriteTag([76, 66]);
      out.WriteBytes(if truth then TRUE_TEXT else FALSE_TEXT);
      Assoc(old(out.buf), [76, 66], Field(if truth then TRUE_TEXT else FALSE_TEXT));
  }

  lemma Join3(buf: Bytes, a: Bytes, b: Bytes, c: Bytes)
    ensures buf + a + b + c == buf + (a + (b + c))
  {
    Assoc(buf + a, b, c);
    Assoc(buf, a, b + c);
  }

  method WriteLiteral(l: Literal, out: CanonicalWriter)
    modifies out
    ensures out.buf == old(out.buf) + LiteralBytes(l)
  {
    out.WriteTag([76]);
    WriteValue(l.value, out);
    out.WriteTag([94]);
    out.WriteBytes(l.datatypeIri);
    ghost var front := old(out.buf) + [76] + ValueBytes(l.value) + [94] + Field(l.datatypeIri);
    if l.language.Some? {
      out.WriteTag([64]);
      out.WriteBytes(l.language.value);
      Assoc(front, [64], Field(l.language.value));
    } else {
      assert front + [] == front;
    }
    assert out.buf == front + Suffix(l.language);
    Assoc(old(out.buf) + [76] + ValueBytes(l.value) + [94], Field(l.datatypeIri), Suffix(l.language));
    Assoc(old(out.buf) + [76] + ValueBytes(l.value), [94], Field(l.datatypeIri) + Suffix(l.language));
    Join3(old(out.buf), [76], ValueBytes(l.value), [94] + (Field(l.datatypeIri) + Suffix(l.language)));
  }

  method WriteResource(r: Resource, out: CanonicalWriter)
    modifies out
    ensures out.buf == old(out.buf) + ResourceBytes(r)
  {
    match r
    case IriResource(iri) =>
      out.WriteTag([73]);
      out.WriteBytes(iri);
      Assoc(old(out.buf), [73], Field(iri));
    case BlankResource(name) =>
      out.WriteTag([66]);
      out.WriteBytes(name);
      Assoc(old(out.buf), [66], Field(name));
    case LiteralResource(literal) =>
      WriteLiteral(literal, out);
  }

  method WriteTerm(t: Term, out: CanonicalWriter)
    modifies out
    ensures out.buf == old(out.buf) + TermBytes(t)
  {
    match t
    case IriTerm(iri) =>
      out.WriteTag([84, 73]);
      out.WriteBytes(iri);
      Assoc(old(out.buf), [84, 73], Field(iri));
    case BlankTerm(node) =>
      out.WriteTag([84, 66]);
      out.WriteU64(node);
      Assoc(old(out.buf), [84, 66], LE(node, 8));
    case LiteralTerm(value) =>
      out.WriteTag([84, 76]);
      WriteValue(value, out);
      Assoc(old(out.buf), [84, 76], ValueBytes(value));
  }

  lemma {:induction false} PairBytesSnoc(pairs: seq<Label>, x: Label)
    ensures PairBytes(pairs + [x]) == PairBytes(pairs) + (Field(x.key) + Field(x.value))
  {
    if pairs == [] {
      assert pairs + [x] == [x];
      assert Field(x.value) + PairBytes([x][1..]) == Field(x.value);
    } else {
      PairBytesSnoc(pairs[1..], x);
      assert (pairs + [x])[1..] == pairs[1..] + [x];
      Assoc(Field(pairs[0].value), PairBytes(pairs[1..]), Field(x.key) + Field(x.value));
      Assoc(Field(pairs[0].key), Field(pairs[0].value) + PairBytes(pairs[1..]), Field(x.key) + Field(x.value));
    }
  }

  method WritePairs(pairs: seq<Label>, out: CanonicalWriter)
    modifies out
    ensures out.buf == old(out.buf) + PairBytes(pairs)
  {
    for i := 0 to |pairs|
      invariant out.buf == old(out.buf) + PairBytes(pairs[..i])
    {
      ghost var front := out.buf;
      out.WriteBytes(pairs[i].key);
      out.WriteBytes(pairs[i].value);
      PairBytesSnoc(pairs[..i], pairs[i]);
      assert pairs[..i + 1] == pairs[..i] + [pairs[i]];
      Assoc(front, Field(pairs[i].key), Field(pairs[i].value));
      Assoc(old(out.buf), PairBytes(pairs[..i]), Field(pairs[i].key) + Field(pairs[i].value));
    }
    assert pairs[..|pairs|] == pairs;
  }

  method WriteMetadata(labels: Labels, out: CanonicalWriter)
    modifies out
    ensures out.buf == old(out.buf) + MetadataBytes(labels)
  {
    out.WriteTag([77]);
    out.WriteU64(|labels|);
    var pairs := Sort(LabelLe, labels);
    WritePairs(pairs, out);
    Join3(old(out.buf), [77], LE(|labels|, 8), PairBytes(pairs));
  }

  method CanonicalBytes(t: Term) returns (bytes: Bytes)
    ensures bytes == TermBytes(t)
  {
    var out := new CanonicalWriter();
    WriteTerm(t, out);
    bytes := out.buf;
  }

  method CanonicalResourceBytes(r: Resource) returns (bytes: Bytes)
    ensures bytes == ResourceBytes(r)
  {
    var out := new CanonicalWriter();
    WriteResource(r, out);
    bytes := out.buf;
  }
}
