/** The MongoDB store's documents: updates by `$set`, and a bulk delete without a transaction. */
module MongoStore {
  import opened Wrappers
  import opened Resources
  import opened SqlMeaning
  import opened StoreSpec

  /******* Documents *******/

  /** Whether a document has all the given string fields: the filters of get, update and delete. */
  predicate HasFields(doc: Row, fields: map<string, string>) {
    forall c :: c in fields ==> c in doc && doc[c] == Str(fields[c])
  }

  class Collection {
    const r: ResourceMeta
    var docs: map<string, Row>

    /** Documents are keyed by their primary key, a string; the tenant is a string where present. */
    ghost predicate Valid()
      reads this
    {
      WellFormed(r) && forall id :: id in docs ==>
        r.primaryKey in docs[id] && docs[id][r.primaryKey] == Str(id) && !Field(docs[id], r.tenantKey).Int?
    }

    function KeyFields(id: string, tenant: string, role: string): map<string, string> {
      var filter := map[r.primaryKey := id];
      if r.tenantKey != "" && role != SUPER_ADMIN then filter[r.tenantKey := tenant] else filter
    }

    ghost predicate SeesDoc(id: string, tenant: string, role: string)
      reads this
    {
      id in docs && InScope(r, docs[id], tenant, role)
    }

    /** A key filter has the one document the actor sees under that id, or none. */
    lemma KeyFieldsMatch(id: string, tenant: string, role: string)
      requires Valid()
      ensures forall k :: k in docs ==>
        (HasFields(docs[k], KeyFields(id, tenant, role)) <==> k == id && SeesDoc(id, tenant, role))
    {
      var fields := KeyFields(id, tenant, role);
      forall k | k in docs ensures HasFields(docs[k], fields) <==> k == id && SeesDoc(id, tenant, role) {
        assert fields[r.primaryKey] == id;
        if Scoped(r, role) { assert fields[r.tenantKey] == tenant; }
      }
    }

    /** Any one document with the given fields. */
    method FindOne(fields: map<string, string>) returns (found: Option<string>)
      ensures found.Some? ==> found.value in docs && HasFields(docs[found.value], fields)
      ensures found.None? ==> forall id :: id in docs ==> !HasFields(docs[id], fields)
    {
      var matches := set id | id in docs && HasFields(docs[id], fields);
      if matches == {} {
        assert forall id :: id in docs && HasFields(docs[id], fields) ==> id in matches;
        return None;
      }
      var id :| id in matches;
      return Some(id);
    }

    method Get(id: string, tenant: string, role: string) returns (res: Result<Row, StoreError>)
      requires Valid()
      ensures res == if SeesDoc(id, tenant, role) then Success(docs[id]) else Failure(NotFound)
    {
      KeyFieldsMatch(id, tenant, role);
      var found := FindOne(KeyFields(id, tenant, role));
      if found.None? { return Failure(NotFound); }
      res := Success(docs[found.value]);
    }

    method DeleteOne(fields: map<string, string>)
      modifies this`docs
      ensures (forall id :: id in old(docs) ==> !HasFields(old(docs)[id], fields)) ==> docs == old(docs)
      ensures (exists id :: id in old(docs) && HasFields(old(docs)[id], fields)) ==>
        exists id :: id in old(docs) && HasFields(old(docs)[id], fields) && docs == old(docs) - {id}
    {
      var found := FindOne(fields);
      if found.Some? { docs := docs - {found.value}; }
    }

    /** Deletes the document the actor sees under an id, and shows it. */
    method DeleteSeen(id: string, tenant: string, role: string, failing: bool) returns (res: Result<Row, StoreError>)
      requires Valid()
      modifies this`docs
      ensures Valid()
      ensures res.Success? <==> old(SeesDoc(id, tenant, role)) && !failing
      ensures res.Success? ==> id in old(docs) && res.value == old(docs)[id] && docs == old(docs) - {id}
      ensures res.Failure? ==> docs == old(docs)
    {
      res := Get(id, tenant, role);
      if res.Failure? { return; }
      if failing { return Failure(Rejected("delete")); }
      KeyFieldsMatch(id, tenant, role);
      DeleteOne(KeyFields(id, tenant, role));
    }

    /** Deletes one document at a time: a failure leaves exactly the documents before the failing
        id deleted.  The i-th deletion fails in the database when faulty(i). */
    method DeleteMany(ids: seq<string>, tenant: string, role: string, faulty: nat -> bool)
      returns (res: Result<seq<Row>, StoreError>, ghost done: nat)
      requires Valid()
      modifies this`docs
      ensures Valid() && done <= |ids| && docs == old(docs) - Elements(ids[..done])
      ensures Prefix(old(docs), ids, done, tenant, role)
      ensures res.Success? <==> done == |ids|
      ensures res.Success? ==> |res.value| == |ids| && forall i :: 0 <= i < |ids| ==> res.value[i] == old(docs)[ids[i]]
      ensures done < |ids| ==> faulty(done) || !Prefix(old(docs), ids, done + 1, tenant, role)
    {
      var deleted: seq<Row> := [];
      done := 0;
      assert Elements(ids[..0]) == {} && docs - {} == docs;
      hide Elements, InScope, WellFormed, Prefix;
      PrefixStart(docs, ids, tenant, role);
      for i := 0 to |ids|
        invariant done == i && Valid() && docs == old(docs) - Elements(ids[..i])
        invariant Prefix(old(docs), ids, i, tenant, role)
        invariant |deleted| == i && forall j :: 0 <= j < i ==> deleted[j] == old(docs)[ids[j]]
      {
        DocsWithout(old(docs), ids, i);
        PrefixStep(old(docs), ids, i, tenant, role);
        var record := DeleteSeen(ids[i], tenant, role, faulty(i));
        if record.Failure? { return Failure(record.error), i; }
        deleted := deleted + [record.value];
        done := i + 1;
      }
      res := Success(deleted);
    }

    /** The first n ids were seen by the actor and do not repeat. */
    ghost predicate Prefix(docs: map<string, Row>, ids: seq<string>, n: nat, tenant: string, role: string)
      requires n <= |ids|
    {
      forall i :: 0 <= i < n ==> ids[i] in docs && InScope(r, docs[ids[i]], tenant, role) && ids[i] !in ids[..i]
    }

    lemma PrefixStart(docs: map<string, Row>, ids: seq<string>, tenant: string, role: string)
      ensures Prefix(docs, ids, 0, tenant, role)
    {}

    lemma PrefixStep(docs: map<string, Row>, ids: seq<string>, n: nat, tenant: string, role: string)
      requires n < |ids|
      ensures Prefix(docs, ids, n + 1, tenant, role)
         <==> (&& Prefix(docs, ids, n, tenant, role)
               && ids[n] in docs && InScope(r, docs[ids[n]], tenant, role) && ids[n] !in ids[..n])
      ensures Prefix(docs, ids, n, tenant, role) ==> forall i :: 0 <= i < n ==> ids[i] in docs
    {}

    /** `$set` of the writable input, with the stamp laid over it; never a clash. */
    method Update(id: string, tenant: string, role: string, input: Row, now: int)
      returns (res: Result<(Row, Row), StoreError>)
      requires Valid()
      modifies this`docs
      ensures Valid()
      ensures !old(SeesDoc(id, tenant, role)) ==> res == Failure(NotFound) && docs == old(docs)
      ensures old(SeesDoc(id, tenant, role)) ==>
        var doc := old(docs)[id] + SetDoc(r, input, now);
        docs == old(docs)[id := doc] && res == Success((old(docs)[id], doc))
    {
      hide InScope, SetDoc;
      var oldRecord := Get(id, tenant, role);
      if oldRecord.Failure? { return Failure(oldRecord.error); }
      var sets := SetParts(r, input, now);
      KeyFieldsMatch(id, tenant, role);
      SetKeepsKeys(r, input, now);
      var found := FindOne(KeyFields(id, tenant, role));
      var doc := docs[id] + sets;
      docs := docs[id := doc];
      res := Success((oldRecord.value, doc));
    }
  }

  function Elements(ids: seq<string>): set<string> { set i | 0 <= i < |ids| :: ids[i] }

  lemma ElementsOneMore(ids: seq<string>, i: nat)
    requires i < |ids|
    ensures Elements(ids[..i + 1]) == Elements(ids[..i]) + {ids[i]}
    ensures ids[i] in ids[..i] <==> ids[i] in Elements(ids[..i])
  {
    assert ids[..i + 1] == ids[..i] + [ids[i]];
    assert forall j :: 0 <= j < i ==> ids[..i][j] in Elements(ids[..i]);
    assert ids[..i + 1][i] in Elements(ids[..i + 1]);
    assert forall j :: 0 <= j < i ==> ids[..i][j] == ids[..i + 1][j] && ids[..i + 1][j] in Elements(ids[..i + 1]);
  }

  lemma DocsWithout(docs: map<string, Row>, ids: seq<string>, i: nat)
    requires i < |ids|
    ensures docs - Elements(ids[..i]) - {ids[i]} == docs - Elements(ids[..i + 1])
    ensures ids[i] in docs - Elements(ids[..i]) <==> ids[i] in docs && ids[i] !in ids[..i]
    ensures ids[i] in docs - Elements(ids[..i]) ==> (docs - Elements(ids[..i]))[ids[i]] == docs[ids[i]]
  {
    ElementsOneMore(ids, i);
  }

  /** The `$set` document of an update. */
  ghost function SetDoc(r: ResourceMeta, input: Row, now: int): Row {
    var sets := map c | c in input &&
      (exists i :: 0 <= i < |r.fields| && r.fields[i].sqlName == c && Writes(r, r.fields[i], input)) :: input[c];
    if HasColumn(r, "updated_at") then sets["updated_at" := Int(now)] else sets
  }

  method SetParts(r: ResourceMeta, input: Row, now: int) returns (sets: Row)
    ensures sets == SetDoc(r, input, now)
  {
    sets := map[];
    for k := 0 to |r.fields|
      invariant sets == map c | c in input &&
        (exists i :: 0 <= i < k && r.fields[i].sqlName == c && Writes(r, r.fields[i], input)) :: input[c]
    {
      var f := r.fields[k];
      if f.readonly || f.hidden || f.sqlName == r.primaryKey || f.sqlName == r.tenantKey { continue; }
      if f.sqlName in input { sets := sets[f.sqlName := input[f.sqlName]]; }
    }
    if HasColumn(r, "updated_at") { sets := sets["updated_at" := Int(now)]; }
  }

  lemma SetKeepsKeys(r: ResourceMeta, input: Row, now: int)
    requires WellFormed(r)
    ensures r.primaryKey !in SetDoc(r, input, now) && r.tenantKey !in SetDoc(r, input, now)
  {}

  /** The columns an update writes, the stamp among them. */
  predicate Assigns(r: ResourceMeta, c: string, input: Row) {
    (c == "updated_at" && HasColumn(r, c)) || WritesColumn(r, c, input)
  }

  /** `$set` leaves the overlay of the SQL stores exactly when the document has every assigned column
      and no assigned password is changed by hashing: `$set` adds missing columns and hashes nothing. */
  lemma SetIsOverlay(r: ResourceMeta, doc: Row, input: Row, hash: Hasher, now: int)
    requires WellFormed(r)
    ensures doc + SetDoc(r, input, now) == UpdatedRow(r, doc, input, hash, now)
       <==> (forall c :: Assigns(r, c, input) ==>
               c in doc && (c != "updated_at" && FieldBySQLName(r.fields, c).value.password ==>
                              input[c] == Str(hash(c, Sprint(input[c])))))
  {
    hide SetDoc, WellFormed;
    var sets := SetDoc(r, input, now);
    var after, overlay := doc + sets, UpdatedRow(r, doc, input, hash, now);
    forall c ensures (c in sets <==> Assigns(r, c, input))
      && (c in sets ==> sets[c] == if c == "updated_at" && HasColumn(r, c) then Int(now) else input[c])
    {
      SetWrites(r, input, now, c);
    }
    assert after.Keys == doc.Keys + sets.Keys && overlay.Keys == doc.Keys;
    if after == overlay {
      forall c | Assigns(r, c, input) ensures c in doc && after[c] == overlay[c] { assert c in after; }
    }
  }

  /** Which columns `$set` assigns, and to what. */
  lemma SetWrites(r: ResourceMeta, input: Row, now: int, c: string)
    requires WellFormed(r)
    ensures c in SetDoc(r, input, now) <==> (c == "updated_at" && HasColumn(r, c)) || WritesColumn(r, c, input)
    ensures c in SetDoc(r, input, now) ==>
      SetDoc(r, input, now)[c] == if c == "updated_at" && HasColumn(r, c) then Int(now) else input[c]
  {
    var f := FieldBySQLName(r.fields, c);
    if f.Some? {
      var j :| 0 <= j < |r.fields| && r.fields[j] == f.value;
      assert forall i :: 0 <= i < |r.fields| && r.fields[i].sqlName == c ==> i == j;
    } else {
      assert forall i :: 0 <= i < |r.fields| ==> r.fields[i].sqlName != c;
    }
  }
}
