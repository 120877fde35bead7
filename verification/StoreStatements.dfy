/** The statements behind the store operations: which rows a key filter selects, and what an
    insert, update or delete of the emitted shape does to the table. */
module StoreStatements {
  import opened Wrappers
  import opened Text
  import opened Resources
  import opened SqlSyntax
  import opened SqlText
  import opened SqlMeaning
  import opened ListFilters
  import opened StoreSpec

  /** `pk = $n`, and `tenant = $n+1` for a scoped actor. */
  function KeyForms(r: ResourceMeta, role: string, n: nat): seq<Clause> {
    [Single(Test(Col(r.primaryKey), Eq, Arg(n)))]
      + (if Scoped(r, role) then [Single(Test(Col(r.tenantKey), Eq, Arg(n + 1)))] else [])
  }

  function KeyArgs(r: ResourceMeta, role: string, id: string, tenant: string): seq<Value> {
    [Str(id)] + (if Scoped(r, role) then [Str(tenant)] else [])
  }

  lemma ColumnTestHolds(c: string, n: nat, row: Row, args: seq<Value>, le: Order)
    requires 1 <= n <= |args| && args[n - 1].Str?
    ensures ClauseHolds(Single(Test(Col(c), Eq, Arg(n))), row, args, le)
       <==> !Field(row, c).Null? && TextOf(Field(row, c)) == args[n - 1].text
  {
    SideValue(c, n, row, args);
  }

  lemma KeyHolds(r: ResourceMeta, role: string, n: nat, row: Row, id: string, tenant: string, args: seq<Value>,
                 le: Order)
    requires n >= 1 && |args| == n - 1 + |KeyArgs(r, role, id, tenant)| && args[n - 1..] == KeyArgs(r, role, id, tenant)
    ensures WritableClauses(KeyForms(r, role, n))
    ensures Selected(FilterExpr(KeyForms(r, role, n)), row, args, le)
       <==> !Field(row, r.primaryKey).Null? && TextOf(Field(row, r.primaryKey)) == id && InScope(r, row, tenant, role)
  {
    var forms := KeyForms(r, role, n);
    assert args[n - 1] == args[n - 1..][0];
    ColumnTestHolds(r.primaryKey, n, row, args, le);
    assert forms[0] == Single(Test(Col(r.primaryKey), Eq, Arg(n)));
    if Scoped(r, role) {
      assert args[n] == args[n - 1..][1];
      ColumnTestHolds(r.tenantKey, n + 1, row, args, le);
      assert forms[1] == Single(Test(Col(r.tenantKey), Eq, Arg(n + 1)));
    }
    assert WritableClauses(forms);
    AllHold(forms, row, args, le);
  }

  /** A key filter selects the one row the actor sees under that id, or none. */
  lemma KeySelects(r: ResourceMeta, t: Table, role: string, n: nat, id: string, tenant: string, args: seq<Value>,
                   le: Order)
    requires Fits(r, t)
    requires n >= 1 && |args| == n - 1 + |KeyArgs(r, role, id, tenant)| && args[n - 1..] == KeyArgs(r, role, id, tenant)
    ensures WritableClauses(KeyForms(r, role, n))
    ensures forall k :: k in t.rows ==>
      (Selected(FilterExpr(KeyForms(r, role, n)), t.rows[k], args, le) <==> k == id && Sees(r, t, id, tenant, role))
    ensures Matching(t, FilterExpr(KeyForms(r, role, n)), args, le) == if Sees(r, t, id, tenant, role) then {id} else {}
  {
    assert WritableClauses(KeyForms(r, role, n)) by { KeyHolds(r, role, n, map[], id, tenant, args, le); }
    forall k | k in t.rows
      ensures Selected(FilterExpr(KeyForms(r, role, n)), t.rows[k], args, le) <==>
        k == id && Sees(r, t, id, tenant, role)
    {
      assert ValidRow(t, k, t.rows[k]);
      KeyHolds(r, role, n, t.rows[k], id, tenant, args, le);
    }
  }

  lemma KeyAnswer(r: ResourceMeta, t: Table, role: string, id: string, tenant: string, le: Order, scan: seq<string>)
    requires Fits(r, t) && IsScan(scan, t)
    ensures WritableClauses(KeyForms(r, role, 1))
    ensures Limited(Answer(t, FilterExpr(KeyForms(r, role, 1)), [], KeyArgs(r, role, id, tenant), le, scan), First,
                    KeyArgs(r, role, id, tenant))
         == if Sees(r, t, id, tenant, role) then [id] else []
  {
    var args := KeyArgs(r, role, id, tenant);
    assert args[0..] == args;
    KeySelects(r, t, role, 1, id, tenant, args, le);
    var filter := FilterExpr(KeyForms(r, role, 1));
    var answer := Answer(t, filter, [], args, le, scan);
    AnswerIsExact(t, filter, [], args, le, scan);
    if Sees(r, t, id, tenant, role) {
      assert |answer| == 1 && answer[0] in answer;
      assert answer == [id];
    }
  }

  lemma DeleteMeans(r: ResourceMeta, t: Table, role: string, id: string, tenant: string, le: Order)
    requires Fits(r, t)
    ensures WritableClauses(KeyForms(r, role, 1))
    ensures RunDelete(t, FilterExpr(KeyForms(r, role, 1)), KeyArgs(r, role, id, tenant), le)
         == if Sees(r, t, id, tenant, role) then Without(t, [id]) else t
  {
    var args := KeyArgs(r, role, id, tenant);
    assert args[0..] == args;
    KeySelects(r, t, role, 1, id, tenant, args, le);
    var rows := RunDelete(t, FilterExpr(KeyForms(r, role, 1)), args, le).rows;
    if Sees(r, t, id, tenant, role) {
      assert rows == Without(t, [id]).rows;
    } else {
      assert rows == t.rows;
    }
  }

  /******* Assignments *******/

  function Numbered(fields: seq<FieldMeta>): seq<(string, nat)> {
    seq(|fields|, i requires 0 <= i < |fields| => (fields[i].sqlName, i + 1))
  }

  predicate HasAll(input: Row, fields: seq<FieldMeta>) { forall i :: 0 <= i < |fields| ==> fields[i].sqlName in input }

  function StoredArgs(fields: seq<FieldMeta>, input: Row, hash: Hasher): seq<Value>
    requires HasAll(input, fields)
  {
    seq(|fields|, i requires 0 <= i < |fields| => Stored(fields[i], input[fields[i].sqlName], hash))
  }

  /** The fields an update writes, in field order. */
  function Written(r: ResourceMeta, fields: seq<FieldMeta>, input: Row): (w: seq<FieldMeta>)
    ensures HasAll(input, w)
  {
    if fields == [] then []
    else
      var f := fields[|fields| - 1];
      Written(r, fields[..|fields| - 1], input) + (if Writes(r, f, input) then [f] else [])
  }

  /** The fields an insert lists, in field order. */
  function Inserted(r: ResourceMeta, fields: seq<FieldMeta>, input: Row): (w: seq<FieldMeta>)
    ensures HasAll(input, w)
  {
    if fields == [] then []
    else
      var f := fields[|fields| - 1];
      Inserted(r, fields[..|fields| - 1], input) + (if Insertable(r, f, input) then [f] else [])
  }

  lemma {:induction false} WrittenAre(r: ResourceMeta, fields: seq<FieldMeta>, input: Row)
    requires forall i, j :: 0 <= i < j < |fields| ==> fields[i].sqlName != fields[j].sqlName
    ensures var w := Written(r, fields, input);
      && (forall f :: f in w <==> f in fields && Writes(r, f, input))
      && forall i, j :: 0 <= i < j < |w| ==> w[i].sqlName != w[j].sqlName
  {
    if fields != [] {
      var n := |fields| - 1;
      WrittenAre(r, fields[..n], input);
      assert fields == fields[..n] + [fields[n]];
      var w := Written(r, fields[..n], input);
      forall i | 0 <= i < |w| ensures w[i].sqlName != fields[n].sqlName { assert w[i] in fields[..n]; }
    }
  }

  lemma {:induction false} InsertedAre(r: ResourceMeta, fields: seq<FieldMeta>, input: Row)
    requires forall i, j :: 0 <= i < j < |fields| ==> fields[i].sqlName != fields[j].sqlName
    ensures var w := Inserted(r, fields, input);
      && (forall f :: f in w <==> f in fields && Insertable(r, f, input))
      && forall i, j :: 0 <= i < j < |w| ==> w[i].sqlName != w[j].sqlName
  {
    if fields != [] {
      var n := |fields| - 1;
      InsertedAre(r, fields[..n], input);
      assert fields == fields[..n] + [fields[n]];
      var w := Inserted(r, fields[..n], input);
      forall i | 0 <= i < |w| ensures w[i].sqlName != fields[n].sqlName { assert w[i] in fields[..n]; }
    }
  }

  lemma FieldIsFirst(r: ResourceMeta, f: FieldMeta)
    requires DistinctColumns(r) && f in r.fields
    ensures FieldBySQLName(r.fields, f.sqlName) == Some(f)
  {
    var g := FieldBySQLName(r.fields, f.sqlName);
    var i :| 0 <= i < |r.fields| && r.fields[i] == f;
    var j :| 0 <= j < |r.fields| && r.fields[j] == g.value;
  }

  /** The value a field list binds to a column. */
  lemma BoundField(fields: seq<FieldMeta>, input: Row, hash: Hasher, more: seq<Value>, i: nat)
    requires HasAll(input, fields) && i < |fields|
    requires forall i, j :: 0 <= i < j < |fields| ==> fields[i].sqlName != fields[j].sqlName
    ensures Bound(Numbered(fields), StoredArgs(fields, input, hash) + more, fields[i].sqlName)
         == Some(Stored(fields[i], input[fields[i].sqlName], hash))
  {
    BoundAt(Numbered(fields), StoredArgs(fields, input, hash) + more, i);
    assert Numbered(fields)[i] == (fields[i].sqlName, i + 1);
  }

  lemma InsertBinds(r: ResourceMeta, input: Row, hash: Hasher, c: string)
    requires WellFormed(r)
    ensures var w := Inserted(r, r.fields, input);
      Bound(Numbered(w), StoredArgs(w, input, hash), c) ==
      (var f := FieldBySQLName(r.fields, c);
       if f.Some? && Insertable(r, f.value, input) then Some(Stored(f.value, input[c], hash)) else None)
  {
    hide Stored;
    var w := Inserted(r, r.fields, input);
    var args := StoredArgs(w, input, hash);
    InsertedAre(r, r.fields, input);
    assert args + [] == args;
    var f := FieldBySQLName(r.fields, c);
    if f.Some? && Insertable(r, f.value, input) {
      assert f.value in w;
      var i :| 0 <= i < |w| && w[i] == f.value;
      BoundField(w, input, hash, [], i);
    } else {
      forall i | 0 <= i < |w| ensures Numbered(w)[i].0 != c { assert w[i] in w; FieldIsFirst(r, w[i]); }
      BoundNowhere(Numbered(w), args, c);
    }
  }

  lemma InsertNames(r: ResourceMeta, t: Table, input: Row)
    requires WellFormed(r) && Fits(r, t) && !Missing(input, r.primaryKey)
    ensures var w := Inserted(r, r.fields, input);
      var names := seq(|w|, i requires 0 <= i < |w| => w[i].sqlName);
      w != [] && Distinct(names) && Zip(names, Upto(1, |w|)) == Numbered(w) && forall c :: c in names ==> c in t.columns
  {
    var w := Inserted(r, r.fields, input);
    var names := seq(|w|, i requires 0 <= i < |w| => w[i].sqlName);
    InsertedAre(r, r.fields, input);
    assert FieldBySQLName(r.fields, r.primaryKey).value in w;
    forall c | c in names ensures c in t.columns {
      var i :| 0 <= i < |names| && names[i] == c;
      assert w[i] in w && w[i] in r.fields;
    }
    assert Distinct(names);
  }

  lemma InsertMeans(r: ResourceMeta, t: Table, input: Row, hash: Hasher)
    requires WellFormed(r) && Fits(r, t) && !Missing(input, r.primaryKey)
    ensures var w := Inserted(r, r.fields, input);
      var names, ns := seq(|w|, i requires 0 <= i < |w| => w[i].sqlName), Upto(1, |w|);
      var id := TextOf(input[r.primaryKey]);
      w != [] && RunInsert(t, names, ns, StoredArgs(w, input, hash)) ==
        if id in t.rows then Failure("duplicate key")
        else Success(t.(rows := t.rows[id := NewRow(r, t, input, hash)]))
  {
    hide DistinctColumns;
    var w := Inserted(r, r.fields, input);
    var args := StoredArgs(w, input, hash);
    InsertNames(r, t, input);
    forall c { InsertBinds(r, input, hash, c); }
    var row := map c | c in t.columns ::
      var b := Bound(Numbered(w), args, c);
      if b.Some? then b.value else DefaultOf(t, c);
    assert row == NewRow(r, t, input, hash);
    assert Bound(Numbered(w), args, t.key) == Some(input[r.primaryKey]);
  }

  /** The assignments of an update: the written fields, then the stamp when there is one. */
  function UpdateSets(r: ResourceMeta, input: Row): seq<(string, nat)> {
    var w := Written(r, r.fields, input);
    Numbered(w) + (if HasColumn(r, "updated_at") then [("updated_at", |w| + 1)] else [])
  }

  function UpdateArgs(r: ResourceMeta, input: Row, hash: Hasher, now: int): seq<Value> {
    StoredArgs(Written(r, r.fields, input), input, hash) + (if HasColumn(r, "updated_at") then [Int(now)] else [])
  }

  /** What an update binds to the column of a written field: its value, unless the stamp follows. */
  lemma WrittenBinds(r: ResourceMeta, input: Row, hash: Hasher, now: int, more: seq<Value>, i: nat)
    requires WellFormed(r) && i < |Written(r, r.fields, input)|
    requires HasColumn(r, "updated_at") ==> Written(r, r.fields, input)[i].sqlName != "updated_at"
    ensures var f := Written(r, r.fields, input)[i];
      Bound(UpdateSets(r, input), UpdateArgs(r, input, hash, now) + more, f.sqlName) ==
        Some(Stored(f, input[f.sqlName], hash))
  {
    hide Stored;
    WrittenAre(r, r.fields, input);
    var w := Written(r, r.fields, input);
    var stamp := if HasColumn(r, "updated_at") then [Int(now)] else [];
    BoundField(w, input, hash, stamp + more, i);
    Assoc(StoredArgs(w, input, hash), stamp, more);
    hide WellFormed, Written, Writes, StoredArgs, Numbered;
    var front := Numbered(w);
    assert (front + [("updated_at", |w| + 1)])[..|front|] == front && front + [] == front;
  }

  lemma UpdateBinds(r: ResourceMeta, input: Row, hash: Hasher, now: int, more: seq<Value>, c: string)
    requires WellFormed(r)
    ensures Bound(UpdateSets(r, input), UpdateArgs(r, input, hash, now) + more, c) ==
      (if c == "updated_at" && HasColumn(r, c) then Some(Int(now))
       else if WritesColumn(r, c, input) then Some(Stored(FieldBySQLName(r.fields, c).value, input[c], hash)) else None)
  {
    hide Stored, Written;
    var w := Written(r, r.fields, input);
    var sets, args := UpdateSets(r, input), UpdateArgs(r, input, hash, now) + more;
    WrittenAre(r, r.fields, input);
    if c == "updated_at" && HasColumn(r, c) {
      BoundAt(sets, args, |w|);
    } else if WritesColumn(r, c, input) {
      var i :| 0 <= i < |w| && w[i] == FieldBySQLName(r.fields, c).value;
      WrittenBinds(r, input, hash, now, more, i);
    } else {
      forall i | 0 <= i < |sets| ensures sets[i].0 != c {
        if i < |w| { assert w[i] in w; FieldIsFirst(r, w[i]); }
      }
      BoundNowhere(sets, args, c);
    }
  }

  lemma WrittenName(r: ResourceMeta, input: Row, i: nat)
    requires WellFormed(r) && i < |Written(r, r.fields, input)|
    ensures var f := Written(r, r.fields, input)[i];
      f in r.fields && Writes(r, f, input) && FieldBySQLName(r.fields, f.sqlName) == Some(f)
      && f.sqlName != r.primaryKey && f.sqlName != r.tenantKey
  {
    var w := Written(r, r.fields, input);
    WrittenAre(r, r.fields, input);
    assert w[i] in w;
    FieldIsFirst(r, w[i]);
  }

  /** No column is assigned twice unless the input writes the stamp. */
  lemma UpdateNames(r: ResourceMeta, input: Row)
    requires WellFormed(r)
    ensures Distinct(NamesOf(UpdateSets(r, input))) <==> !StampClash(r, input)
    ensures forall c :: c in NamesOf(UpdateSets(r, input)) ==> HasColumn(r, c) && c != r.primaryKey && c != r.tenantKey
  {
    hide Written;
    var w := Written(r, r.fields, input);
    var names := NamesOf(UpdateSets(r, input));
    forall c | c in names ensures HasColumn(r, c) && c != r.primaryKey && c != r.tenantKey {
      var i :| 0 <= i < |names| && names[i] == c;
      if i < |w| { WrittenName(r, input, i); }
    }
    WrittenAre(r, r.fields, input);
    if StampClash(r, input) {
      var f := FieldBySQLName(r.fields, "updated_at").value;
      assert f in w;
      var i :| 0 <= i < |w| && w[i] == f;
      assert names[i] == names[|w|];
    } else {
      forall i, j | 0 <= i < j < |names| ensures names[i] != names[j] {
        if j == |w| { WrittenName(r, input, i); }
      }
    }
  }

  lemma UpdateMeans(pg: bool, r: ResourceMeta, t: Table, input: Row, hash: Hasher, now: int, role: string, id: string,
                    tenant: string, le: Order)
    requires WellFormed(r) && Fits(r, t)
    ensures var n := |UpdateArgs(r, input, hash, now)| + 1;
      var args := UpdateArgs(r, input, hash, now) + KeyArgs(r, role, id, tenant);
      WritableClauses(KeyForms(r, role, n)) &&
      var result := RunUpdate(pg, t, UpdateSets(r, input), FilterExpr(KeyForms(r, role, n)), args, le);
      if pg && StampClash(r, input) then result == Failure("update rejected")
      else result == Success(if Sees(r, t, id, tenant, role)
                             then t.(rows := t.rows[id := UpdatedRow(r, t.rows[id], input, hash, now)]) else t)
  {
    hide Stored, WellFormed, UpdateArgs, UpdateSets, KeyForms, KeyArgs;
    var n := |UpdateArgs(r, input, hash, now)| + 1;
    var args := UpdateArgs(r, input, hash, now) + KeyArgs(r, role, id, tenant);
    assert args[n - 1..] == KeyArgs(r, role, id, tenant);
    KeySelects(r, t, role, n, id, tenant, args, le);
    UpdateNames(r, input);
    var sets := UpdateSets(r, input);
    forall c | c in NamesOf(sets) ensures c in t.columns && c != t.key {
      assert FieldBySQLName(r.fields, c).value in r.fields;
    }
    if !(pg && StampClash(r, input)) {
      forall row: Row ensures Overlay(row, sets, args) == UpdatedRow(r, row, input, hash, now) {
        forall c | c in row ensures Overlay(row, sets, args)[c] == UpdatedRow(r, row, input, hash, now)[c] {
          UpdateBinds(r, input, hash, now, KeyArgs(r, role, id, tenant), c);
        }
      }
      var result := RunUpdate(pg, t, sets, FilterExpr(KeyForms(r, role, n)), args, le);
      if Sees(r, t, id, tenant, role) {
        assert result.value.rows == t.rows[id := UpdatedRow(r, t.rows[id], input, hash, now)];
      } else {
        assert result.value.rows == t.rows;
      }
    }
  }

  /******* The operations keep the table well formed *******/

  lemma UpdateKeepsValid(r: ResourceMeta, t: Table, id: string, input: Row, hash: Hasher, now: int)
    requires WellFormed(r) && Fits(r, t) && id in t.rows
    ensures Fits(r, t.(rows := t.rows[id := UpdatedRow(r, t.rows[id], input, hash, now)]))
  {
    assert ValidRow(t, id, t.rows[id]);
  }

  lemma InsertKeepsValid(r: ResourceMeta, t: Table, input: Row, hash: Hasher)
    requires WellFormed(r) && Fits(r, t) && !Missing(input, r.primaryKey)
    ensures Fits(r, t.(rows := t.rows[TextOf(input[r.primaryKey]) := NewRow(r, t, input, hash)]))
  {
    assert Insertable(r, FieldBySQLName(r.fields, r.primaryKey).value, input);
  }

  lemma DeleteKeepsValid(r: ResourceMeta, t: Table, ids: seq<string>)
    requires Fits(r, t)
    ensures Fits(r, Without(t, ids))
  {}
}
