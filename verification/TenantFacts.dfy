/** Key by key, what writing and deleting a tenant do to the column family. */
module TenantFacts {
  import opened Prelude
  import opened Tenants

  /** `t:` and the id. */
  function RecordKey(id: Bytes): Bytes { ['t' as int, ':' as int] + id }

  /** `k:` and the digest. */
  function IndexKey(digest: Bytes): Bytes { ['k' as int, ':' as int] + digest }

  /** There is no record of the tenant and no digest, or a record that lists the digests. */
  ghost predicate Listed(f: RecordFormat, cf: Family, id: Bytes, digests: seq<Bytes>) {
    if RecordKey(id) in cf then
      var r := f.read(cf[RecordKey(id)]); r.Ok? && r.value.digests == digests
    else digests == []
  }

  ghost predicate Indexes(digests: seq<Bytes>, key: Bytes) { exists d :: d in digests && key == IndexKey(d) }

  lemma KeysOf(id: Bytes, digests: seq<Bytes>, key: Bytes)
    ensures key == RecordKey(id) ==> !Indexes(digests, key)
    ensures Indexes(digests, key) <==> exists d :: d in digests && DigestKey(d) == key
  {
    if key == RecordKey(id) { assert key[0] == 't' as int; }
  }

  /** Writing puts the record and one entry for each of its digests, and removes the entries it no longer has. */
  lemma PutExactly(f: RecordFormat, cf: Family, t: Tenant, digests: seq<Bytes>, key: Bytes)
    requires Listed(f, cf, t.id, digests)
    ensures Value(AfterPut(f, cf, t), key) ==
      if key == RecordKey(t.id) then Some(f.write(t))
      else if Indexes(t.digests, key) then Some(t.id)
      else if Indexes(digests, key) then None
      else Value(cf, key)
  {
    PutLookup(f, cf, t, key);
    KeysOf(t.id, t.digests, key);
    KeysOf(t.id, digests, key);
  }

  /** Deleting removes the record and the entries of its digests. */
  lemma DeleteExactly(f: RecordFormat, cf: Family, id: Bytes, digests: seq<Bytes>, key: Bytes)
    requires Listed(f, cf, id, digests)
    ensures Value(AfterDelete(f, cf, id), key) ==
      if key == RecordKey(id) || Indexes(digests, key) then None else Value(cf, key)
  {
    DeleteLookup(f, cf, id, key);
    KeysOf(id, digests, key);
  }

  /** A record that cannot be read stays, and so does everything else. */
  lemma UnreadableStays(f: RecordFormat, cf: Family, t: Tenant)
    requires RecordKey(t.id) in cf && f.read(cf[RecordKey(t.id)]).Err?
    ensures AfterPut(f, cf, t) == cf && AfterDelete(f, cf, t.id) == cf
  {
  }

  /** A key leads to its entry, and that to a record. */
  lemma ResolveFollows(f: RecordFormat, cf: Family, digest: Bytes, owner: Bytes)
    ensures Value(cf, IndexKey(digest)) == None ==> Resolve(f, cf, digest) == Ok(None)
    ensures Value(cf, IndexKey(digest)) == Some(owner) && RecordKey(owner) !in cf ==> Resolve(f, cf, digest) == Ok(None)
    ensures Value(cf, IndexKey(digest)) == Some(owner) && RecordKey(owner) in cf ==>
      Resolve(f, cf, digest) ==
        match f.read(cf[RecordKey(owner)])
        case Ok(t) => Ok(Some(t))
        case Err(e) => Err(e)
  {
  }

  /** The characters of ids. */
  function IdCharacters(): string { "abcdefghijklmnopqrstuvwxyz0123456789_-" }

  ghost predicate IsIdCharacter(b: U8) {
    exists k :: 0 <= k < |IdCharacters()| && b as int == IdCharacters()[k] as int
  }

  lemma CharacterIff(b: U8)
    ensures IsIdCharacter(b) <==> 97 <= b <= 122 || 48 <= b <= 57 || b == 45 || b == 95
  {
    var cs := IdCharacters();
    if 97 <= b <= 122 {
      Letters(b - 97);
    } else if 48 <= b <= 57 {
      Digits(b - 48);
    } else if b == 95 {
      assert cs[36] as int == b;
    } else if b == 45 {
      assert cs[37] as int == b;
    }
  }

  lemma Letters(k: nat)
    requires k < 26
    ensures IdCharacters()[k] as int == 97 + k
  {
  }

  lemma Digits(k: nat)
    requires k < 10
    ensures IdCharacters()[26 + k] as int == 48 + k
  {
  }

  /** A record reads back exactly when the id has 1 to 64 of those characters and is not `system`. */
  lemma ReadsBackIff(f: RecordFormat, t: Tenant)
    requires Inverse(f)
    ensures f.read(f.write(t)) == Ok(t) <==>
      1 <= |t.id| <= 64 && (forall i :: 0 <= i < |t.id| ==> IsIdCharacter(t.id[i]))
      && t.id != ['s' as int, 'y' as int, 's' as int, 't' as int, 'e' as int, 'm' as int]
  {
    forall i | 0 <= i < |t.id|
      ensures IsIdCharacter(t.id[i]) <==>
        97 <= t.id[i] <= 122 || 48 <= t.id[i] <= 57 || t.id[i] == 45 || t.id[i] == 95
    {
      CharacterIff(t.id[i]);
    }
    var name := ['s' as int, 'y' as int, 's' as int, 't' as int, 'e' as int, 'm' as int];
    assert name == [115, 121, 115, 116, 101, 109];
    assert ValidId(t.id) <==>
      1 <= |t.id| <= 64 && (forall i :: 0 <= i < |t.id| ==> IsIdCharacter(t.id[i])) && t.id != name;
  }
}
