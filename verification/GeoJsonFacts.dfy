/** What GeoJSON documents are accepted and refused, member by member. */
module GeoJsonFacts {
  import opened Prelude
  import opened Text
  import opened Geometry
  import opened Wkt
  import opened Json
  import opened GeoJson

  // ---------- Reference systems ----------

  function NameMember(name: Bytes): Member { Member(Ascii("name"), Str(name)) }

  function TypeNameMember(): Member { Member(Ascii("type"), Str(Ascii("name"))) }

  function PropertiesMember(name: Bytes): Member { Member(Ascii("properties"), Obj([NameMember(name)])) }

  /** `"crs":{"type":"name","properties":{"name":…}}` */
  function CrsMember(name: Bytes): Member {
    Member(Ascii("crs"), Obj([TypeNameMember(), PropertiesMember(name)]))
  }

  function Crs84Name(): Bytes { Ascii("urn:ogc:def:crs:OGC:1.3:CRS84") }

  lemma CrsNameIs(name: Bytes)
    ensures CrsName(CrsMember(name).value.fields) == Some(name)
  {
    var props, fields := [NameMember(name)], [TypeNameMember(), PropertiesMember(name)];
    assert fields[..1] == [fields[0]] && fields[..1][..0] == [];
    assert fields[0].key != PROPERTIES_KEY by { assert |fields[0].key| != |PROPERTIES_KEY|; }
    assert CrsName(fields[..1]) == None;
    assert NameIn(props, None) == Some(name);
  }

  /** The keys that a document is read for. */
  lemma KeysDiffer()
    ensures TYPE_KEY == Ascii("type") && COORDINATES_KEY == Ascii("coordinates") && CRS_KEY == Ascii("crs")
    ensures TYPE_KEY != COORDINATES_KEY && TYPE_KEY != CRS_KEY && COORDINATES_KEY != CRS_KEY
  {
    assert |TYPE_KEY| == 4 && |COORDINATES_KEY| == 11 && |CRS_KEY| == 3;
  }

  /** Members that name no reference system. */
  ghost predicate NoCrs(fields: seq<Member>) { forall i :: 0 <= i < |fields| ==> fields[i].key != Ascii("crs") }

  lemma {:induction false} NoCrsNoted(fields: seq<Member>)
    requires NoCrs(fields) && NoteAll(fields).Ok?
    ensures NoteAll(fields).value.crs == None
  {
    if fields != [] { NoCrsNoted(fields[..|fields| - 1]); }
  }

  /** Adding the member notes the name, and nothing else. */
  lemma {:induction false} CrsNoted(fields: seq<Member>, more: seq<Member>, name: Bytes)
    requires NoCrs(fields) && NoCrs(more)
    ensures var with, without := NoteAll(fields + [CrsMember(name)] + more), NoteAll(fields + more);
      if without.Ok? then with == Ok(without.value.(crs := Some(name))) else with == without
    decreases |more|
  {
    KeysDiffer();
    if more == [] {
      var all := fields + [CrsMember(name)];
      assert fields + [CrsMember(name)] + more == all && fields + more == fields && all[..|fields|] == fields;
      CrsNameIs(name);
    } else {
      var n := |more| - 1;
      CrsNoted(fields, more[..n], name);
      var with, without := fields + [CrsMember(name)] + more, fields + more;
      assert with[..|with| - 1] == fields + [CrsMember(name)] + more[..n];
      assert without[..|without| - 1] == fields + more[..n];
      if NoteAll(without).Ok? { NoCrsNoted(without); }
    }
  }

  /**
   * A reference system named anywhere in a document is accepted exactly when it is CRS84, and then changes nothing; a
   * document that is malformed without it stays so.
   */
  lemma CrsDecides(fields: seq<Member>, more: seq<Member>, name: Bytes)
    requires NoCrs(fields) && NoCrs(more)
    ensures ShapeOf(Obj(fields + [CrsMember(name)] + more)) ==
      if name == Crs84Name() then ShapeOf(Obj(fields + more))
      else if NoteAll(fields + more).Err? then Err(MalformedGeoJson)
      else Err(UnsupportedCrs(name))
  {
    CrsNoted(fields, more, name);
    NoteErrors(fields + more);
    if NoteAll(fields + more).Ok? { NoCrsNoted(fields + more); }
  }

  lemma {:induction false} NoteErrors(fields: seq<Member>)
    ensures NoteAll(fields).Err? ==> NoteAll(fields).error == MalformedGeoJson
  {
    if fields != [] { NoteErrors(fields[..|fields| - 1]); }
  }

  /** The document that a shape is printed as. */
  function DocumentOf(g: Shape): Value {
    match g
    case Point(x, y) => Document(POINT_TYPE, PositionValue((x, y)))
    case Rect(_, _, _, _) => RingDocument(Around(g, 0, false))
  }

  lemma PrintsDocument(nf: Numbers, g: Shape)
    ensures DocumentOf(g).Obj? && Printable(DocumentOf(g)) && AsGeoJson(nf, g) == PrintTo(nf, DocumentOf(g), [])
  {
    match g
    case Point(x, y) => PointText(nf, (x, y));
    case Rect(_, _, _, _) => RectText(nf, g);
  }

  lemma AsciiText(s: string)
    requires forall i :: 0 <= i < |s| ==> s[i] < 128 as char
    ensures ValidUtf8(Ascii(s))
  {
    AsciiIsText(Ascii(s));
  }

  lemma OnePrintable(m: Member)
    requires ValidUtf8(m.key) && Printable(m.value)
    ensures Printable(Obj([m]))
  {
    AddedPrintable([], m);
    assert [] + [m] == [m];
  }

  lemma TwoPrintable(m: Member, n: Member)
    requires ValidUtf8(m.key) && Printable(m.value) && ValidUtf8(n.key) && Printable(n.value)
    ensures Printable(Obj([m, n]))
  {
    OnePrintable(m);
    AddedPrintable([m], n);
    assert [m] + [n] == [m, n];
  }

  lemma PropertiesPrintable(name: Bytes)
    requires ValidUtf8(name)
    ensures ValidUtf8(PropertiesMember(name).key) && Printable(PropertiesMember(name).value)
  {
    AsciiText("name");
    AsciiText("properties");
    OnePrintable(NameMember(name));
  }

  lemma TypeNamePrintable()
    ensures ValidUtf8(TypeNameMember().key) && Printable(TypeNameMember().value)
  {
    AsciiText("type");
    AsciiText("name");
  }

  lemma CrsPrintable(name: Bytes)
    requires ValidUtf8(name)
    ensures ValidUtf8(CrsMember(name).key) && Printable(CrsMember(name).value)
  {
    AsciiText("crs");
    TypeNamePrintable();
    PropertiesPrintable(name);
    TwoPrintable(TypeNameMember(), PropertiesMember(name));
  }

  lemma AddedPrintable(fields: seq<Member>, m: Member)
    requires Printable(Obj(fields)) && ValidUtf8(m.key) && Printable(m.value)
    ensures Printable(Obj(fields + [m]))
  {
    var all := fields + [m];
    forall i | 0 <= i < |all| ensures ValidUtf8(all[i].key) && Printable(all[i].value) {
      if i < |fields| { assert all[i] == fields[i]; }
    }
  }

  /** The same for any printed document that is read without an error when the member is left out. */
  lemma CrsAdded(nf: Numbers, fields: seq<Member>, name: Bytes)
    requires Faithful(nf) && ValidUtf8(name) && Printable(Obj(fields)) && NoCrs(fields) && NoteAll(fields).Ok?
    ensures Printable(Obj(fields + [CrsMember(name)]))
    ensures ParseGeoJson(nf, PrintTo(nf, Obj(fields + [CrsMember(name)]), [])) ==
      if name == Crs84Name() then ParseGeoJson(nf, PrintTo(nf, Obj(fields), []))
      else Err(UnsupportedCrs(name))
  {
    CrsPrintable(name);
    AddedPrintable(fields, CrsMember(name));
    PrintedShape(nf, Obj(fields + [CrsMember(name)]));
    PrintedShape(nf, Obj(fields));
    CrsDecides(fields, [], name);
    assert fields + [CrsMember(name)] + [] == fields + [CrsMember(name)] && fields + [] == fields;
  }

  /**
   * Every printed shape with a reference system added is read as without it when that is CRS84, and refused with the
   * name otherwise.
   */
  lemma CrsIff(nf: Numbers, g: Shape, name: Bytes)
    requires Faithful(nf) && ValidUtf8(name)
    ensures var v := WithCrs(DocumentOf(g), name);
      && Printable(v)
      && ParseGeoJson(nf, PrintTo(nf, v, [])) ==
           if name == Crs84Name() then ParseGeoJson(nf, AsGeoJson(nf, g))
           else Err(UnsupportedCrs(name))
  {
    PrintsDocument(nf, g);
    DocumentNoted(g);
    var fields := DocumentOf(g).fields;
    assert DocumentOf(g) == Obj(fields);
    CrsAdded(nf, fields, name);
  }

  function WithCrs(v: Value, name: Bytes): Value {
    if v.Obj? then Obj(v.fields + [CrsMember(name)]) else v
  }

  lemma DocumentNoted(g: Shape)
    ensures DocumentOf(g).Obj? && NoCrs(DocumentOf(g).fields) && NoteAll(DocumentOf(g).fields).Ok?
  {
    KeysDiffer();
    var fields := DocumentOf(g).fields;
    assert fields[..1] == [fields[0]] && fields[..1][..0] == [];
    assert NoteAll([]) == Ok(Found(None, None, None));
    assert NoteAll(fields[..1]).Ok?;
  }
}
