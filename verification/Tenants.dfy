/** The tenant column family: records under `t:<id>`, and the owner of each key digest under `k:<digest>`. */
module Tenants {
  import opened Prelude

  datatype TenantError = BadRecord

  /** `details` stands for the fields the index does not look at. */
  datatype Tenant = Tenant(id: Bytes, digests: seq<Bytes>, details: Bytes)

  /** 1 to 64 characters of `[a-z0-9_-]`, and not `system`. */
  predicate ValidId(id: Bytes) {
    && 1 <= |id| <= 64
    && (forall i :: 0 <= i < |id| ==> 97 <= id[i] <= 122 || 48 <= id[i] <= 57 || id[i] == 45 || id[i] == 95)
    && id != [115, 121, 115, 116, 101, 109]
  }

  /** The record format: reading back what was written gives the tenant, provided its id is valid. */
  datatype RecordFormat = RecordFormat(write: Tenant -> Bytes, read: Bytes -> Result<Tenant, TenantError>)

  ghost predicate Inverse(f: RecordFormat) {
    forall t :: f.read(f.write(t)) == if ValidId(t.id) then Ok(t) else Err(BadRecord)
  }

  /** Bytes marked one by one, with an end mark, so that what follows is not mistaken for more of them. */
  function Marked(b: Bytes): Bytes { if b == [] then [0] else [1, b[0]] + Marked(b[1..]) }

  function MarkedList(bs: seq<Bytes>): Bytes {
    if bs == [] then [0] else [1] + (Marked(bs[0]) + MarkedList(bs[1..]))
  }

  lemma {:induction false} MarkedSplit(a: Bytes, s: Bytes, b: Bytes, t: Bytes)
    requires Marked(a) + s == Marked(b) + t
    ensures a == b && s == t
  {
    assert (Marked(a) + s)[0] == (Marked(b) + t)[0];
    if a == [] {
      SplitEqual([0], s, [0], t);
    } else {
      assert [1, a[0]] + (Marked(a[1..]) + s) == Marked(a) + s == [1, b[0]] + (Marked(b[1..]) + t);
      SplitEqual([1, a[0]], Marked(a[1..]) + s, [1, b[0]], Marked(b[1..]) + t);
      assert [1, a[0]][1] == [1, b[0]][1];
      MarkedSplit(a[1..], s, b[1..], t);
      assert a == [a[0]] + a[1..] && b == [b[0]] + b[1..];
    }
  }

  lemma {:induction false} MarkedListSplit(a: seq<Bytes>, s: Bytes, b: seq<Bytes>, t: Bytes)
    requires MarkedList(a) + s == MarkedList(b) + t
    ensures a == b && s == t
  {
    assert (MarkedList(a) + s)[0] == (MarkedList(b) + t)[0];
    if a == [] {
      SplitEqual([0], s, [0], t);
    } else {
      var x, y := MarkedList(a[1..]) + s, MarkedList(b[1..]) + t;
      assert [1] + (Marked(a[0]) + x) == MarkedList(a) + s == [1] + (Marked(b[0]) + y);
      SplitEqual([1], Marked(a[0]) + x, [1], Marked(b[0]) + y);
      MarkedSplit(a[0], x, b[0], y);
      MarkedListSplit(a[1..], s, b[1..], t);
      assert a == [a[0]] + a[1..] && b == [b[0]] + b[1..];
    }
  }

  function MarkedRecord(t: Tenant): Bytes { Marked(t.id) + (MarkedList(t.digests) + Marked(t.details)) }

  lemma MarkedRecordInjective(t: Tenant, u: Tenant)
    requires MarkedRecord(t) == MarkedRecord(u)
    ensures t == u
  {
    MarkedSplit(t.id, MarkedList(t.digests) + Marked(t.details), u.id, MarkedList(u.digests) + Marked(u.details));
    MarkedListSplit(t.digests, Marked(t.details), u.digests, Marked(u.details));
    assert Marked(t.details) + [] == Marked(t.details) && Marked(u.details) + [] == Marked(u.details);
    MarkedSplit(t.details, [], u.details, []);
  }

  /** Such a format exists, so nothing below holds emptily. */
  lemma InverseExists() returns (f: RecordFormat)
    ensures Inverse(f)
  {
    f := RecordFormat(
      t => MarkedRecord(t),
      s => if exists t :: MarkedRecord(t) == s
           then var t :| MarkedRecord(t) == s; if ValidId(t.id) then Ok(t) else Err(BadRecord)
           else Err(BadRecord));
    forall t ensures f.read(f.write(t)) == if ValidId(t.id) then Ok(t) else Err(BadRecord) {
      forall u | MarkedRecord(u) == MarkedRecord(t) ensures u == t { MarkedRecordInjective(u, t); }
    }
  }

  type Family = map<Bytes, Bytes>

  function TenantKey(id: Bytes): Bytes { [116, 58] + id }

  function DigestKey(digest: Bytes): Bytes { [107, 58] + digest }

  lemma KeysApart(a: Bytes, b: Bytes)
    ensures TenantKey(a) != DigestKey(b)
    ensures TenantKey(a) == TenantKey(b) <==> a == b
    ensures DigestKey(a) == DigestKey(b) <==> a == b
  {
    assert TenantKey(a)[0] != DigestKey(b)[0];
    assert TenantKey(a)[2..] == a && TenantKey(b)[2..] == b;
    assert DigestKey(a)[2..] == a && DigestKey(b)[2..] == b;
  }

  // ---------- Batches ----------

  datatype Op = Put(key: Bytes, value: Bytes) | Delete(key: Bytes)

  function ApplyOp(cf: Family, op: Op): Family {
    match op
    case Put(key, value) => cf[key := value]
    case Delete(key) => cf - {key}
  }

  function ApplyOps(cf: Family, ops: seq<Op>): Family {
    if ops == [] then cf else ApplyOp(ApplyOps(cf, ops[..|ops| - 1]), ops[|ops| - 1])
  }

  lemma {:induction false} ApplyConcat(cf: Family, a: seq<Op>, b: seq<Op>)
    ensures ApplyOps(cf, a + b) == ApplyOps(ApplyOps(cf, a), b)
  {
    if b == [] {
      assert a + b == a;
    } else {
      var n := |b| - 1;
      assert (a + b)[..|a + b| - 1] == a + b[..n];
      ApplyConcat(cf, a, b[..n]);
    }
  }

  function Deletions(digests: seq<Bytes>): (r: seq<Op>)
    ensures |r| == |digests| && forall i :: 0 <= i < |r| ==> r[i] == Delete(DigestKey(digests[i]))
  {
    seq(|digests|, i requires 0 <= i < |digests| => Delete(DigestKey(digests[i])))
  }

  function Insertions(digests: seq<Bytes>, id: Bytes): (r: seq<Op>)
    ensures |r| == |digests| && forall i :: 0 <= i < |r| ==> r[i] == Put(DigestKey(digests[i]), id)
  {
    seq(|digests|, i requires 0 <= i < |digests| => Put(DigestKey(digests[i]), id))
  }

  function Value(cf: Family, key: Bytes): Option<Bytes> { if key in cf then Some(cf[key]) else None }

  lemma {:induction false} AfterDeletions(cf: Family, digests: seq<Bytes>, key: Bytes)
    ensures Value(ApplyOps(cf, Deletions(digests)), key) ==
      if exists d :: d in digests && DigestKey(d) == key then None else Value(cf, key)
  {
    if digests != [] {
      var n := |digests| - 1;
      assert Deletions(digests)[..n] == Deletions(digests[..n]);
      AfterDeletions(cf, digests[..n], key);
      assert digests == digests[..n] + [digests[n]];
    }
  }

  lemma {:induction false} AfterInsertions(cf: Family, digests: seq<Bytes>, id: Bytes, key: Bytes)
    ensures Value(ApplyOps(cf, Insertions(digests, id)), key) ==
      if exists d :: d in digests && DigestKey(d) == key then Some(id) else Value(cf, key)
  {
    if digests != [] {
      var n := |digests| - 1;
      assert Insertions(digests, id)[..n] == Insertions(digests[..n], id);
      AfterInsertions(cf, digests[..n], id, key);
      assert digests == digests[..n] + [digests[n]];
    }
  }

  // ---------- Records ----------

  function Get(f: RecordFormat, cf: Family, id: Bytes): Result<Option<Tenant>, TenantError> {
    if TenantKey(id) !in cf then Ok(None)
    else
      var t :- f.read(cf[TenantKey(id)]);
      Ok(Some(t))
  }

  function DigestsOf(f: RecordFormat, cf: Family, id: Bytes): seq<Bytes> {
    var t := Get(f, cf, id);
    if t.Ok? && t.value.Some? then t.value.value.digests else []
  }

  function PutOps(f: RecordFormat, cf: Family, t: Tenant): seq<Op> {
    Deletions(DigestsOf(f, cf, t.id)) + [Put(TenantKey(t.id), f.write(t))] + Insertions(t.digests, t.id)
  }

  function DeleteOps(f: RecordFormat, cf: Family, id: Bytes): seq<Op> {
    Deletions(DigestsOf(f, cf, id)) + [Delete(TenantKey(id))]
  }

  /** Writing fails, changing nothing, when the record it replaces cannot be read. */
  function AfterPut(f: RecordFormat, cf: Family, t: Tenant): Family {
    if Get(f, cf, t.id).Err? then cf else ApplyOps(cf, PutOps(f, cf, t))
  }

  function AfterDelete(f: RecordFormat, cf: Family, id: Bytes): Family {
    if Get(f, cf, id).Err? then cf else ApplyOps(cf, DeleteOps(f, cf, id))
  }

  function Resolve(f: RecordFormat, cf: Family, digest: Bytes): Result<Option<Tenant>, TenantError> {
    if DigestKey(digest) !in cf then Ok(None) else Get(f, cf, cf[DigestKey(digest)])
  }

  lemma PutLookup(f: RecordFormat, cf: Family, t: Tenant, key: Bytes)
    ensures Value(ApplyOps(cf, PutOps(f, cf, t)), key) ==
      if exists d :: d in t.digests && DigestKey(d) == key then Some(t.id)
      else if key == TenantKey(t.id) then Some(f.write(t))
      else if exists d :: d in DigestsOf(f, cf, t.id) && DigestKey(d) == key then None
      else Value(cf, key)
  {
    var gone, record, added :=
      Deletions(DigestsOf(f, cf, t.id)), [Put(TenantKey(t.id), f.write(t))], Insertions(t.digests, t.id);
    ApplyConcat(cf, gone + record, added);
    ApplyConcat(cf, gone, record);
    assert record[..0] == [];
    AfterDeletions(cf, DigestsOf(f, cf, t.id), key);
    AfterInsertions(ApplyOps(cf, gone + record), t.digests, t.id, key);
  }

  lemma DeleteLookup(f: RecordFormat, cf: Family, id: Bytes, key: Bytes)
    ensures Value(ApplyOps(cf, DeleteOps(f, cf, id)), key) ==
      if key == TenantKey(id) || exists d :: d in DigestsOf(f, cf, id) && DigestKey(d) == key then None
      else Value(cf, key)
  {
    var gone, record := Deletions(DigestsOf(f, cf, id)), [Delete(TenantKey(id))];
    ApplyConcat(cf, gone, record);
    assert record[..0] == [];
    AfterDeletions(cf, DigestsOf(f, cf, id), key);
  }

  // ---------- The index agrees with the records ----------

  /** Every record can be read and is stored under its own id. */
  ghost predicate Readable(f: RecordFormat, cf: Family) { forall id :: GoodRecord(f, cf, id) }

  predicate GoodRecord(f: RecordFormat, cf: Family, id: Bytes) {
    var t := Get(f, cf, id);
    t.Ok? && (t.value.Some? ==> t.value.value.id == id)
  }

  predicate Lists(f: RecordFormat, cf: Family, id: Bytes, digest: Bytes) { digest in DigestsOf(f, cf, id) }

  /** `k:<digest>` names a tenant exactly when that tenant's record lists the digest. */
  ghost predicate Indexed(f: RecordFormat, cf: Family) {
    forall id, d :: Value(cf, DigestKey(d)) == Some(id) <==> Lists(f, cf, id, d)
  }

  /** No other tenant lists one of this tenant's digests. */
  ghost predicate SharesNothing(f: RecordFormat, cf: Family, t: Tenant) {
    forall id, d :: d in t.digests && Lists(f, cf, id, d) ==> id == t.id
  }

  lemma PutDigests(f: RecordFormat, cf: Family, t: Tenant, id: Bytes)
    requires Inverse(f) && ValidId(t.id)
    ensures var after := ApplyOps(cf, PutOps(f, cf, t));
      Get(f, after, id) == (if id == t.id then Ok(Some(t)) else Get(f, cf, id))
      && DigestsOf(f, after, id) == if id == t.id then t.digests else DigestsOf(f, cf, id)
  {
    PutLookup(f, cf, t, TenantKey(id));
    KeysApart(id, t.id);
    forall d ensures DigestKey(d) != TenantKey(id) { KeysApart(id, d); }
  }

  lemma DeleteDigests(f: RecordFormat, cf: Family, gone: Bytes, id: Bytes)
    ensures var after := ApplyOps(cf, DeleteOps(f, cf, gone));
      Get(f, after, id) == (if id == gone then Ok(None) else Get(f, cf, id))
      && DigestsOf(f, after, id) == if id == gone then [] else DigestsOf(f, cf, id)
  {
    DeleteLookup(f, cf, gone, TenantKey(id));
    KeysApart(id, gone);
    forall d ensures DigestKey(d) != TenantKey(id) { KeysApart(id, d); }
  }

  lemma ReadableGet(f: RecordFormat, cf: Family, id: Bytes)
    requires Readable(f, cf)
    ensures Get(f, cf, id).Ok?
    ensures Get(f, cf, id).value.Some? ==> Get(f, cf, id).value.value.id == id
  {
    assert GoodRecord(f, cf, id);
  }

  lemma PutReadable(f: RecordFormat, cf: Family, t: Tenant)
    requires Inverse(f) && ValidId(t.id) && Readable(f, cf)
    ensures Readable(f, AfterPut(f, cf, t))
  {
    ReadableGet(f, cf, t.id);
    var after := AfterPut(f, cf, t);
    forall id ensures GoodRecord(f, after, id) {
      PutDigests(f, cf, t, id);
      ReadableGet(f, cf, id);
    }
  }

  lemma DeleteReadable(f: RecordFormat, cf: Family, gone: Bytes)
    requires Readable(f, cf)
    ensures Readable(f, AfterDelete(f, cf, gone))
  {
    ReadableGet(f, cf, gone);
    var after := AfterDelete(f, cf, gone);
    forall id ensures GoodRecord(f, after, id) {
      DeleteDigests(f, cf, gone, id);
      ReadableGet(f, cf, id);
    }
  }

  lemma PutOwner(f: RecordFormat, cf: Family, t: Tenant, d: Bytes)
    ensures Value(ApplyOps(cf, PutOps(f, cf, t)), DigestKey(d)) ==
      if d in t.digests then Some(t.id)
      else if d in DigestsOf(f, cf, t.id) then None
      else Value(cf, DigestKey(d))
  {
    PutLookup(f, cf, t, DigestKey(d));
    KeysApart(t.id, d);
    forall e ensures DigestKey(e) == DigestKey(d) <==> e == d { KeysApart(e, d); }
  }

  lemma DeleteOwner(f: RecordFormat, cf: Family, gone: Bytes, d: Bytes)
    ensures Value(ApplyOps(cf, DeleteOps(f, cf, gone)), DigestKey(d)) ==
      if d in DigestsOf(f, cf, gone) then None else Value(cf, DigestKey(d))
  {
    DeleteLookup(f, cf, gone, DigestKey(d));
    KeysApart(gone, d);
    forall e ensures DigestKey(e) == DigestKey(d) <==> e == d { KeysApart(e, d); }
  }

  /** A write keeps the index right exactly when the tenant shares no digest with another. */
  lemma PutIndexedIff(f: RecordFormat, cf: Family, t: Tenant)
    requires Inverse(f) && ValidId(t.id) && Readable(f, cf) && Indexed(f, cf)
    ensures Indexed(f, AfterPut(f, cf, t)) <==> SharesNothing(f, cf, t)
  {
    ReadableGet(f, cf, t.id);
    var after := AfterPut(f, cf, t);
    forall id, d
      ensures (Value(after, DigestKey(d)) == Some(id) <==> Lists(f, after, id, d))
              <==> (d in t.digests && Lists(f, cf, id, d) ==> id == t.id)
    {
      PutOwner(f, cf, t, d);
      PutDigests(f, cf, t, id);
      assert Value(cf, DigestKey(d)) == Some(id) <==> Lists(f, cf, id, d);
      assert Value(cf, DigestKey(d)) == Some(t.id) <==> Lists(f, cf, t.id, d);
    }
  }

  lemma DeleteIndexed(f: RecordFormat, cf: Family, gone: Bytes)
    requires Readable(f, cf) && Indexed(f, cf)
    ensures Indexed(f, AfterDelete(f, cf, gone))
  {
    ReadableGet(f, cf, gone);
    var after := AfterDelete(f, cf, gone);
    forall id, d ensures Value(after, DigestKey(d)) == Some(id) <==> Lists(f, after, id, d) {
      DeleteOwner(f, cf, gone, d);
      DeleteDigests(f, cf, gone, id);
      assert Value(cf, DigestKey(d)) == Some(id) <==> Lists(f, cf, id, d);
      assert Value(cf, DigestKey(d)) == Some(gone) <==> Lists(f, cf, gone, d);
    }
  }

  /** With the index right, resolving a key finds exactly the tenant whose record lists its digest. */
  lemma ResolveIsSearch(f: RecordFormat, cf: Family, digest: Bytes, t: Tenant)
    requires Readable(f, cf) && Indexed(f, cf)
    ensures Resolve(f, cf, digest) == Ok(Some(t)) <==> Get(f, cf, t.id) == Ok(Some(t)) && digest in t.digests
    ensures Resolve(f, cf, digest) == Ok(None) <==> forall id :: !Lists(f, cf, id, digest)
    ensures Resolve(f, cf, digest).Ok?
  {
    if DigestKey(digest) in cf {
      var owner := cf[DigestKey(digest)];
      assert Value(cf, DigestKey(digest)) == Some(owner);
      assert Lists(f, cf, owner, digest);
      ReadableGet(f, cf, owner);
    }
    if Get(f, cf, t.id) == Ok(Some(t)) && digest in t.digests {
      assert Lists(f, cf, t.id, digest);
    }
  }

  // ---------- Runs ----------

  datatype Call = PutTenant(tenant: Tenant) | DeleteTenant(id: Bytes)

  function After(f: RecordFormat, calls: seq<Call>): Family {
    if calls == [] then map[]
    else
      var before := After(f, calls[..|calls| - 1]);
      match calls[|calls| - 1]
      case PutTenant(t) => AfterPut(f, before, t)
      case DeleteTenant(id) => AfterDelete(f, before, id)
  }

  /** Every tenant written has a valid id and shares no digest with another tenant at that time. */
  ghost predicate KeepApart(f: RecordFormat, calls: seq<Call>) {
    forall i :: 0 <= i < |calls| && calls[i].PutTenant? ==>
      ValidId(calls[i].tenant.id) && SharesNothing(f, After(f, calls[..i]), calls[i].tenant)
  }

  /** Over any run of puts and deletes that keeps digests apart, the index agrees with the records. */
  lemma {:induction false} RunsStayIndexed(f: RecordFormat, calls: seq<Call>)
    requires Inverse(f) && KeepApart(f, calls)
    ensures Readable(f, After(f, calls)) && Indexed(f, After(f, calls))
  {
    if calls != [] {
      var n := |calls| - 1;
      assert forall i :: 0 <= i < n ==> calls[..n][i] == calls[i] && calls[..n][..i] == calls[..i];
      RunsStayIndexed(f, calls[..n]);
      var before := After(f, calls[..n]);
      match calls[n]
      case PutTenant(t) =>
        PutReadable(f, before, t);
        PutIndexedIff(f, before, t);
      case DeleteTenant(id) =>
        DeleteReadable(f, before, id);
        DeleteIndexed(f, before, id);
    }
  }

  /** Two tenants with one digest: deleting the later one takes the index entry of both. */
  lemma SharedDigestIsLost(f: RecordFormat, a: Tenant, b: Tenant, d: Bytes)
    requires Inverse(f) && ValidId(a.id) && ValidId(b.id) && a.id != b.id && d in a.digests && d in b.digests
    ensures var cf := After(f, [PutTenant(a), PutTenant(b), DeleteTenant(b.id)]);
      Lists(f, cf, a.id, d) && Resolve(f, cf, d) == Ok(None)
  {
    var calls := [PutTenant(a), PutTenant(b), DeleteTenant(b.id)];
    var first, second := [PutTenant(a)], [PutTenant(a), PutTenant(b)];
    assert calls[..2] == second && second[..1] == first && first[..0] == [];
    var one := AfterPut(f, map[], a);
    assert After(f, first) == one;
    var two := AfterPut(f, one, b);
    assert After(f, second) == two;
    var cf := AfterDelete(f, two, b.id);
    assert After(f, calls) == cf;
    PutDigests(f, map[], a, a.id);
    PutDigests(f, map[], a, b.id);
    PutDigests(f, one, b, a.id);
    PutDigests(f, one, b, b.id);
    DeleteDigests(f, two, b.id, a.id);
    DeleteOwner(f, two, b.id, d);
  }

  // ---------- The store ----------

  class RocksTenantStore {
    const format: RecordFormat
    var cf: Family

    constructor (format: RecordFormat)
      ensures cf == map[] && this.format == format
    {
      this.format := format;
      cf := map[];
    }

    method WriteBatch(ops: seq<Op>)
      modifies this
      ensures cf == ApplyOps(old(cf), ops)
    {
      for i := 0 to |ops|
        invariant cf == ApplyOps(old(cf), ops[..i])
      {
        assert ops[..i + 1][..i] == ops[..i];
        match ops[i] {
          case Put(key, value) => cf := cf[key := value];
          case Delete(key) => cf := cf - {key};
        }
      }
      assert ops[..|ops|] == ops;
    }

    method StaleDigests(prev: Tenant) returns (ops: seq<Op>)
      ensures ops == Deletions(prev.digests)
    {
      ops := [];
      for i := 0 to |prev.digests|
        invariant ops == Deletions(prev.digests)[..i]
      {
        ops := ops + [Delete(DigestKey(prev.digests[i]))];
      }
    }

    method PutTenant(t: Tenant) returns (r: Result<(), TenantError>)
      modifies this
      ensures cf == AfterPut(format, old(cf), t)
      ensures r.Ok? <==> Get(format, old(cf), t.id).Ok?
    {
      var existing :- GetTenant(t.id);
      var ops: seq<Op> := [];
      if existing.Some? { ops := StaleDigests(existing.value); }
      assert ops == Deletions(DigestsOf(format, cf, t.id));
      ops := ops + [Put(TenantKey(t.id), format.write(t))];
      var front := ops;
      for i := 0 to |t.digests|
        invariant ops == front + Insertions(t.digests, t.id)[..i]
      {
        ops := ops + [Put(DigestKey(t.digests[i]), t.id)];
      }
      assert ops == PutOps(format, cf, t);
      WriteBatch(ops);
      r := Ok(());
    }

    method DeleteTenant(id: Bytes) returns (r: Result<(), TenantError>)
      modifies this
      ensures cf == AfterDelete(format, old(cf), id)
      ensures r.Ok? <==> Get(format, old(cf), id).Ok?
    {
      var existing :- GetTenant(id);
      var ops: seq<Op> := [];
      if existing.Some? { ops := StaleDigests(existing.value); }
      assert ops == Deletions(DigestsOf(format, cf, id));
      ops := ops + [Delete(TenantKey(id))];
      WriteBatch(ops);
      r := Ok(());
    }

    method GetTenant(id: Bytes) returns (r: Result<Option<Tenant>, TenantError>)
      ensures r == Get(format, cf, id)
    {
      if TenantKey(id) !in cf { return Ok(None); }
      var t :- format.read(cf[TenantKey(id)]);
      r := Ok(Some(t));
    }

    /** `digest` is the digest of the presented key. */
    method ResolveKey(digest: Bytes) returns (r: Result<Option<Tenant>, TenantError>)
      ensures r == Resolve(format, cf, digest)
    {
      if DigestKey(digest) !in cf { return Ok(None); }
      r := GetTenant(cf[DigestKey(digest)]);
    }
  }
}
