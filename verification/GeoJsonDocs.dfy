/** Which GeoJSON texts are accepted and as what, said without the parser. */
module GeoJsonDocs {
  import opened Prelude
  import opened Geometry
  import opened Wkt
  import opened Json
  import opened JsonLaws
  import opened JsonGrammar
  import opened JsonReading
  import opened JsonExact
  import opened JsonAccepted
  import opened GeoJson
  import opened GeoJsonFacts

  // ---------- Texts ----------

  /** The input is a JSON text of the value, with white space around it. */
  ghost predicate IsDocument(nf: Numbers, input: Bytes, v: Value) {
    exists n :: 0 <= n <= |input| && JsonText(nf, input[..n], v) && Blank(input[n..])
  }

  lemma AllBlank(w: Bytes)
    ensures Blank(w) <==> SkipSpace(w, false) == []
  {
    if Blank(w) {
      SkipBlank(w, []);
      assert w + [] == w;
    }
    SkippedBlank(w);
    if SkipSpace(w, false) == [] { assert w[..|w|] == w; }
  }

  /** A text of a value is judged by the value. */
  lemma DocumentIsJudged(nf: Numbers, input: Bytes, v: Value)
    requires IsDocument(nf, input, v)
    ensures ParseGeoJson(nf, input) == ShapeOf(v)
  {
    var n :| 0 <= n <= |input| && JsonText(nf, input[..n], v) && Blank(input[n..]);
    JsonReads(nf, input[..n], v, input[n..]);
    Halves(input, n);
    assert IsValue(ParseValue(nf, input), nf, input);
    SkipTwice(input);
    SameSkipped(nf, input, SkipSpace(input, false));
    AllBlank(input[n..]);
  }

  /** And whatever is not the text of one value is malformed. */
  lemma OthersAreMalformed(nf: Numbers, input: Bytes)
    requires forall v :: !IsDocument(nf, input, v)
    ensures ParseGeoJson(nf, input) == Err(MalformedGeoJson)
  {
    SkipTwice(input);
    SameSkipped(nf, input, SkipSpace(input, false));
    var p := ParseValue(nf, input);
    if p.Ok? && SkipSpace(p.value.1, false) == [] {
      var n := ValueTaken(nf, input, p.value.0, p.value.1);
      AllBlank(input[n..]);
      assert IsDocument(nf, input, p.value.0);
    }
    ValueErrors(nf, input);
  }

  // ---------- Members ----------

  /** A type that is no string, or a reference system that is no object. */
  ghost predicate BadMember(m: Member) {
    (m.key == Ascii("type") && !m.value.Str?) || (m.key == Ascii("crs") && !m.value.Obj?)
  }

  ghost predicate AllGood(fields: seq<Member>) { forall i :: 0 <= i < |fields| ==> !BadMember(fields[i]) }

  /** The last member with the key is at `i`. */
  ghost predicate IsLast(fields: seq<Member>, i: int, key: Bytes) {
    && 0 <= i < |fields| && fields[i].key == key
    && forall j :: i < j < |fields| ==> fields[j].key != key
  }

  ghost predicate Missing(fields: seq<Member>, key: Bytes) {
    forall i :: 0 <= i < |fields| ==> fields[i].key != key
  }

  lemma {:induction false} NoteFailsIff(fields: seq<Member>)
    ensures NoteAll(fields).Ok? <==> AllGood(fields)
    ensures NoteAll(fields).Err? ==> NoteAll(fields).error == MalformedGeoJson
  {
    if fields != [] {
      var n := |fields| - 1;
      NoteFailsIff(fields[..n]);
      KeysDiffer();
      assert AllGood(fields) <==> AllGood(fields[..n]) && !BadMember(fields[n]);
    }
  }

  lemma {:induction false} KindNoted(fields: seq<Member>, i: nat)
    requires AllGood(fields) && NoteAll(fields).Ok?
    ensures Missing(fields, Ascii("type")) ==> NoteAll(fields).value.kind == None
    ensures IsLast(fields, i, Ascii("type")) ==> NoteAll(fields).value.kind == Some(fields[i].value.text)
  {
    if fields != [] {
      KindNoted(fields[..|fields| - 1], i);
      KeysDiffer();
    }
  }

  lemma {:induction false} CoordsNoted(fields: seq<Member>, i: nat)
    requires NoteAll(fields).Ok?
    ensures Missing(fields, Ascii("coordinates")) ==> NoteAll(fields).value.coords == None
    ensures IsLast(fields, i, Ascii("coordinates")) ==> NoteAll(fields).value.coords == Some(fields[i].value)
  {
    if fields != [] {
      CoordsNoted(fields[..|fields| - 1], i);
      KeysDiffer();
    }
  }

  lemma {:induction false} SystemNoted(fields: seq<Member>, i: nat)
    requires AllGood(fields) && NoteAll(fields).Ok?
    ensures Missing(fields, Ascii("crs")) ==> NoteAll(fields).value.crs == None
    ensures IsLast(fields, i, Ascii("crs")) ==> NoteAll(fields).value.crs == CrsName(fields[i].value.fields)
  {
    if fields != [] {
      SystemNoted(fields[..|fields| - 1], i);
      KeysDiffer();
    }
  }

  // ---------- The name of a reference system ----------

  /** Member `j` of the properties at `i` is the name `name`. */
  ghost predicate NamedAt(fields: seq<Member>, i: int, j: int, name: Bytes) {
    && 0 <= i < |fields| && fields[i].key == Ascii("properties") && fields[i].value.Obj?
    && 0 <= j < |fields[i].value.fields| && fields[i].value.fields[j] == Member(Ascii("name"), Str(name))
  }

  /** No name comes after member `j` of member `i`. */
  ghost predicate LastName(fields: seq<Member>, i: nat, j: nat) {
    forall i', j', name :: NamedAt(fields, i', j', name) ==> i' < i || (i' == i && j' <= j)
  }

  ghost predicate NameAt(props: seq<Member>, j: int, name: Bytes) {
    0 <= j < |props| && props[j] == Member(Ascii("name"), Str(name))
  }

  lemma {:induction false} NameInIs(props: seq<Member>, start: Option<Bytes>) returns (j: nat, name: Bytes)
    ensures NameIn(props, start) == (if NameAt(props, j, name) then Some(name) else start)
    ensures forall j', name' :: NameAt(props, j', name') ==> NameAt(props, j, name) && j' <= j
  {
    if props == [] {
      j, name := 0, [];
    } else {
      var n := |props| - 1;
      var last := props[n];
      if last.key == NAME_KEY && last.value.Str? {
        j, name := n, last.value.text;
      } else {
        j, name := NameInIs(props[..n], start);
        if !NameAt(props[..n], j, name) { j := n; }
        forall j', name' | NameAt(props, j', name') ensures NameAt(props, j, name) && j' <= j {
          assert NameAt(props[..n], j', name');
        }
      }
    }
  }

  lemma {:induction false} CrsNameIs(fields: seq<Member>) returns (i: nat, j: nat, name: Bytes)
    ensures CrsName(fields) == if NamedAt(fields, i, j, name) then Some(name) else None
    ensures forall i', j', name' :: NamedAt(fields, i', j', name') ==>
      NamedAt(fields, i, j, name) && (i' < i || (i' == i && j' <= j))
  {
    if fields == [] {
      i, j, name := 0, 0, [];
    } else {
      var n := |fields| - 1;
      var m := fields[n];
      i, j, name := CrsNameIs(fields[..n]);
      if !NamedAt(fields[..n], i, j, name) { i := n; }
      if m.key == PROPERTIES_KEY && m.value.Obj? {
        var k, last := NameInIs(m.value.fields, CrsName(fields[..n]));
        if NameAt(m.value.fields, k, last) {
          i, j, name := n, k, last;
        } else if i == n {
          j, name := k, last;
        }
      }
      forall i', j', name' | NamedAt(fields, i', j', name')
        ensures NamedAt(fields, i, j, name) && (i' < i || (i' == i && j' <= j))
      {
        if i' < n {
          assert NamedAt(fields[..n], i', j', name');
        } else {
          assert NameAt(m.value.fields, j', name');
        }
      }
    }
  }

  /** The last name in any properties counts, and there is none exactly when no properties have one. */
  lemma LastNameCounts(fields: seq<Member>, i: nat, j: nat, name: Bytes)
    ensures NamedAt(fields, i, j, name) && LastName(fields, i, j) ==> CrsName(fields) == Some(name)
    ensures CrsName(fields) == None <==> forall i', j', name' :: !NamedAt(fields, i', j', name')
  {
    var i', j', name' := CrsNameIs(fields);
  }

  // ---------- Documents ----------

  /** A bad member makes the document malformed. */
  lemma BadIsMalformed(fields: seq<Member>)
    requires !AllGood(fields)
    ensures ShapeOf(Obj(fields)) == Err(MalformedGeoJson)
  {
    NoteFailsIff(fields);
  }

  /** The last reference system decides first: one that is named and is not CRS84 is refused. */
  lemma OtherSystemIsRefused(fields: seq<Member>, i: nat, name: Bytes)
    requires AllGood(fields) && IsLast(fields, i, Ascii("crs")) && CrsName(fields[i].value.fields) == Some(name)
    requires name != Crs84Name()
    ensures ShapeOf(Obj(fields)) == Err(UnsupportedCrs(name))
  {
    NoteFailsIff(fields);
    SystemNoted(fields, i);
  }

  /** No reference system, one that is not named, or CRS84. */
  ghost predicate PlainSystem(fields: seq<Member>) {
    forall i :: IsLast(fields, i, Ascii("crs")) ==>
      fields[i].value.Obj? && var name := CrsName(fields[i].value.fields); name == None || name == Some(Crs84Name())
  }

  lemma {:induction false} LastOrMissing(fields: seq<Member>, key: Bytes) returns (i: nat)
    ensures Missing(fields, key) || IsLast(fields, i, key)
  {
    i := 0;
    if fields != [] {
      var n := |fields| - 1;
      if fields[n].key == key {
        i := n;
      } else {
        i := LastOrMissing(fields[..n], key);
        if IsLast(fields[..n], i, key) { assert IsLast(fields, i, key); }
      }
    }
  }

  lemma PlainNoted(fields: seq<Member>)
    requires AllGood(fields) && NoteAll(fields).Ok? && PlainSystem(fields)
    ensures NoteAll(fields).value.crs == None || NoteAll(fields).value.crs == Some(Crs84Name())
  {
    var i := LastOrMissing(fields, Ascii("crs"));
    SystemNoted(fields, i);
  }

  /** Without type or coordinates the document is malformed. */
  lemma IncompleteIsMalformed(fields: seq<Member>)
    requires AllGood(fields) && PlainSystem(fields)
    requires Missing(fields, Ascii("type")) || Missing(fields, Ascii("coordinates"))
    ensures ShapeOf(Obj(fields)) == Err(MalformedGeoJson)
  {
    NoteFailsIff(fields);
    PlainNoted(fields);
    KindNoted(fields, 0);
    CoordsNoted(fields, 0);
  }

  /** Otherwise only the last type and the last coordinates count; members of any other name do not. */
  lemma LastMembersCount(fields: seq<Member>, i: nat, k: nat)
    requires AllGood(fields) && PlainSystem(fields)
    requires IsLast(fields, i, Ascii("type")) && IsLast(fields, k, Ascii("coordinates"))
    ensures fields[i].value.Str? && ShapeOf(Obj(fields)) == ShapeOf(Document(fields[i].value.text, fields[k].value))
  {
    NoteFailsIff(fields);
    PlainNoted(fields);
    KindNoted(fields, i);
    CoordsNoted(fields, k);
    DocumentShape(fields[i].value.text, fields[k].value);
  }

  // ---------- Shapes ----------

  /** A point is an array of exactly two finite numbers. */
  lemma PointIff(v: Value, p: Position)
    ensures ShapeOf(Document(Ascii("Point"), v)) == Ok(Point(p.0, p.1)) <==> v == PositionValue(p)
    ensures (forall q :: v != PositionValue(q)) ==> ShapeOf(Document(Ascii("Point"), v)) == Err(MalformedGeoJson)
  {
    DocumentShape(Ascii("Point"), v);
    PairIs(v);
  }

  lemma PairIs(v: Value)
    ensures CoordPair(v).Ok? ==> v == PositionValue(CoordPair(v).value)
    ensures CoordPair(v).Err? ==> CoordPair(v).error == MalformedGeoJson && forall q :: v != PositionValue(q)
  {
    if CoordPair(v).Ok? { assert v.items == [v.items[0], v.items[1]]; }
  }

  lemma {:induction false} PositionsAre(items: seq<Value>)
    ensures Positions(items).Ok? ==> items == RingItems(Positions(items).value)
    ensures Positions(items).Err? ==> Positions(items).error == MalformedGeoJson
  {
    if items != [] {
      var n := |items| - 1;
      PositionsAre(items[..n]);
      PairIs(items[n]);
      if Positions(items).Ok? {
        var before, last := Positions(items[..n]).value, CoordPair(items[n]).value;
        assert RingItems(before + [last]) == RingItems(before) + [PositionValue(last)];
      }
    }
  }

  /** A polygon is an array of one ring, which decides; of more or fewer rings it is an unsupported shape. */
  lemma PolygonIff(v: Value, ring: seq<Position>)
    ensures var r := ShapeOf(Document(Ascii("Polygon"), v));
      && (v == Arr([Arr(RingItems(ring))]) ==> r == RectOfRing(ring, MalformedGeoJson))
      && (v.Arr? && |v.items| != 1 ==> r == Err(UnsupportedShape))
      && (!v.Arr? || (|v.items| == 1 && forall ring' :: v != Arr([Arr(RingItems(ring'))])) ==>
            r == Err(MalformedGeoJson))
  {
    KeysApart();
    DocumentShape(Ascii("Polygon"), v);
    if v == Arr([Arr(RingItems(ring))]) {
      RingPositions(ring);
    } else if v.Arr? && |v.items| == 1 && v.items[0].Arr? {
      var items := v.items[0].items;
      PositionsAre(items);
      assert v.items == [Arr(items)];
    }
  }

  lemma OtherKind(kind: Bytes, v: Value)
    requires kind != Ascii("Point") && kind != Ascii("Polygon")
    ensures ShapeOf(Document(kind, v)) == Err(UnsupportedShape)
  {
    DocumentShape(kind, v);
  }

  lemma OnlyObjects(v: Value)
    requires !v.Obj?
    ensures ShapeOf(v) == Err(MalformedGeoJson)
  {
  }

  // ---------- Errors of the parser ----------

  lemma {:induction false} TextErrors(s: Bytes)
    ensures ParseText(s).Err? ==> ParseText(s).error == MalformedGeoJson
    decreases |s|
  {
    if s != [] && s[0] != 34 {
      if s[0] == 92 {
        if |s| >= 6 && s[1] == 117 { TextErrors(s[6..]); }
        if |s| >= 2 { TextErrors(s[2..]); }
      } else if s[0] >= 0x80 {
        TextErrors(s[HighEnd(s, 1)..]);
      } else {
        TextErrors(s[1..]);
      }
    }
  }

  lemma {:induction false} ValueErrors(nf: Numbers, s: Bytes)
    ensures ParseValue(nf, s).Err? ==> ParseValue(nf, s).error == MalformedGeoJson
    decreases |s|, 2
  {
    var t := SkipSpace(s, false);
    if t != [] {
      TextErrors(t[1..]);
      var u := SkipSpace(t[1..], false);
      if t[0] == 91 && !StartsWith(u, 93) { ItemsErrors(nf, u); }
      if t[0] == 123 && !StartsWith(u, 125) { FieldsErrors(nf, u); }
    }
  }

  lemma {:induction false} ItemsErrors(nf: Numbers, u: Bytes)
    ensures ParseItems(nf, u).Err? ==> ParseItems(nf, u).error == MalformedGeoJson
    decreases |u|, 3
  {
    ValueErrors(nf, u);
    if ParseValue(nf, u).Ok? {
      var t := SkipSpace(ParseValue(nf, u).value.1, false);
      if StartsWith(t, 44) { ItemsErrors(nf, t[1..]); }
    }
  }

  lemma KeyErrors(s: Bytes)
    ensures ParseKey(s).Err? ==> ParseKey(s).error == MalformedGeoJson
  {
    var u := SkipSpace(s, false);
    if u != [] { TextErrors(u[1..]); }
  }

  lemma {:induction false} FieldsErrors(nf: Numbers, s: Bytes)
    ensures ParseFields(nf, s).Err? ==> ParseFields(nf, s).error == MalformedGeoJson
    decreases |s|, 3
  {
    KeyErrors(s);
    if ParseKey(s).Ok? {
      var u := ParseKey(s).value.1;
      ValueErrors(nf, u);
      if ParseValue(nf, u).Ok? {
        var t := SkipSpace(ParseValue(nf, u).value.1, false);
        if StartsWith(t, 44) { FieldsErrors(nf, t[1..]); }
      }
    }
  }
}
