/** The store operations in plain terms: rows, columns, tenants and roles as a caller knows them, said
    without the functions by which the operations are specified elsewhere. */
module StoreOutcomes {
  import opened Text
  import opened Patterns
  import opened Resources
  import opened SqlSyntax
  import opened SqlText
  import opened SqlMeaning
  import opened ListFilters
  import opened StoreSpec
  import opened StoreStatements
  import opened StoreText
  import Pagination

  /******* Who sees what *******/

  /** An actor sees its tenant's rows; `super_admin`, and anybody where there is no tenant key, sees all. */
  lemma SeesExactly(r: ResourceMeta, t: Table, id: string, tenant: string, role: string)
    ensures Sees(r, t, id, tenant, role) <==>
      (id in t.rows &&
       (r.tenantKey == "" || role == "super_admin" ||
        (!Field(t.rows[id], r.tenantKey).Null? && TextOf(Field(t.rows[id], r.tenantKey)) == tenant)))
  {}

  /** What is shown of a row: the columns of fields that are not hidden. */
  lemma ShowsExactly(r: ResourceMeta, row: Row)
    ensures forall c :: c in Shows(r, row) <==>
      exists i :: 0 <= i < |r.fields| && r.fields[i].sqlName == c && !r.fields[i].hidden
    ensures forall c :: c in Shows(r, row) ==> Shows(r, row)[c] == Field(row, c)
  {}

  /** What a get answers. */
  lemma GetExactly(r: ResourceMeta, t: Table, id: string, tenant: string, role: string)
    ensures var res := GetSpec(r, t, id, tenant, role);
      && (res.Success? <==>
            (id in t.rows &&
             var owner := Field(t.rows[id], r.tenantKey);
             r.tenantKey == "" || role == "super_admin" || (!owner.Null? && TextOf(owner) == tenant)))
      && (res.Success? ==>
            forall c ::
              if exists i :: 0 <= i < |r.fields| && r.fields[i].sqlName == c && !r.fields[i].hidden
              then c in res.value && res.value[c] == Field(t.rows[id], c) else c !in res.value)
  {
    hide Shows;
    if id in t.rows { ShowsExactly(r, t.rows[id]); }
  }

  /** When an update goes through: the actor sees the row and, on Postgres, the input does not itself write
      the stamp. */
  lemma UpdateExactly(pg: bool, r: ResourceMeta, t: Table, a: Actor, id: string, input: Row, now: int, hash: Hasher)
    requires WellFormed(r)
    ensures Answers(pg, r, t, a, DoUpdate(id, input, now, hash)) != Failed <==>
      (&& id in t.rows
       && (var owner := Field(t.rows[id], r.tenantKey);
           r.tenantKey == "" || a.role == "super_admin" || (!owner.Null? && TextOf(owner) == a.tenant))
       && !(pg && "updated_at" in input && exists i ::
              0 <= i < |r.fields| && r.fields[i].sqlName == "updated_at" && !r.fields[i].readonly &&
                !r.fields[i].hidden))
  {
    hide UpdatedRow, Shows;
    if i :| 0 <= i < |r.fields| && r.fields[i].sqlName == "updated_at" { FieldIsFirst(r, r.fields[i]); }
  }

  /** A delete goes through on a row the actor sees, and takes that row away. */
  lemma DeleteExactly(pg: bool, r: ResourceMeta, t: Table, a: Actor, id: string)
    requires WellFormed(r)
    ensures Answers(pg, r, t, a, DoDelete(id)) != Failed <==>
      (id in t.rows &&
       var owner := Field(t.rows[id], r.tenantKey);
       r.tenantKey == "" || a.role == "super_admin" || (!owner.Null? && TextOf(owner) == a.tenant))
    ensures After(pg, r, t, a, DoDelete(id)) ==
      if Answers(pg, r, t, a, DoDelete(id)) == Failed then t else t.(rows := t.rows - {id})
  {
    hide Shows;
    assert Without(t, [id]).rows == t.rows - {id};
  }

  /** A bulk delete goes through on rows the actor sees, without repeats on Postgres, and takes those away. */
  lemma BulkExactly(pg: bool, r: ResourceMeta, t: Table, a: Actor, ids: seq<string>)
    requires WellFormed(r)
    ensures Answers(pg, r, t, a, DoDeleteMany(ids)) != Failed <==>
      (&& (pg ==> forall i, j :: 0 <= i < j < |ids| ==> ids[i] != ids[j])
       && forall i :: 0 <= i < |ids| ==>
            (ids[i] in t.rows &&
             var owner := Field(t.rows[ids[i]], r.tenantKey);
             r.tenantKey == "" || a.role == "super_admin" || (!owner.Null? && TextOf(owner) == a.tenant)))
    ensures var op := DoDeleteMany(ids);
      var after := After(pg, r, t, a, op);
      if Answers(pg, r, t, a, op) == Failed then after == t
      else
        forall id ::
          if id in t.rows && id !in ids then id in after.rows && after.rows[id] == t.rows[id] else id !in after.rows
  {
    hide Shows;
  }

  lemma BulkIs(pg: bool, r: ResourceMeta, t: Table, a: Actor, ids: seq<string>)
    requires WellFormed(r)
    ensures var op, ok := DoDeleteMany(ids), (pg ==> Distinct(ids)) && SeesAll(r, t, ids, a.tenant, a.role);
      && (Deletable(pg, r, t, ids, a) <==> ok)
      && After(pg, r, t, a, op) == (if ok then Without(t, ids) else t)
      && Answers(pg, r, t, a, op) == (if ok then Shown(ShowsAll(r, t, ids)) else Failed)
  {}

  lemma OneIs(pg: bool, r: ResourceMeta, t: Table, a: Actor, id: string)
    requires WellFormed(r)
    ensures var op, ok := DoDelete(id), Sees(r, t, id, a.tenant, a.role);
      && (ok <==> SeesAll(r, t, [id], a.tenant, a.role))
      && After(pg, r, t, a, op) == (if ok then Without(t, [id]) else t)
      && Answers(pg, r, t, a, op) == (if ok then Shown(ShowsAll(r, t, [id])) else Failed)
  {
    assert Sees(r, t, [id][0], a.tenant, a.role) <==> SeesAll(r, t, [id], a.tenant, a.role);
  }

  lemma PageCut(r: ResourceMeta, t: Table, ids: seq<string>, p: int, n: int)
    requires 1 <= p && 1 <= n && forall i :: 0 <= i < |ids| ==> ids[i] in t.rows
    ensures var records, from, rest := PageFrom(r, t, ids, p, n).records, (p - 1) * n, |ids| - (p - 1) * n;
      && PageFrom(r, t, ids, p, n).total == |ids| && from >= 0
      && (from <= 0x7fff_ffff_ffff_ffff ==>
            && OffsetOf(p, n) >= 0 && |records| == (if rest < 0 then 0 else if rest < n then rest else n)
            && forall i :: 0 <= i < |records| ==> records[i] == Shows(r, t.rows[ids[from + i]]))
  {
    hide Shows;
    OffsetExactly(p, n);
    Pagination.ProductNatural(p - 1, n);
  }

  lemma ShownColumn(r: ResourceMeta, row: Row, c: string)
    ensures if exists k :: 0 <= k < |r.fields| && r.fields[k].sqlName == c && !r.fields[k].hidden
            then c in Shows(r, row) && Shows(r, row)[c] == Field(row, c) else c !in Shows(r, row)
  {
    hide Shows;
    ShowsExactly(r, row);
  }

  /** A page of a listing: the total, and where the offset fits 64 bits the rows from it on, as many as
      there are up to n, each in its shown columns. */
  lemma PageExactly(r: ResourceMeta, t: Table, ids: seq<string>, p: int, n: int)
    requires 1 <= p && 1 <= n && forall i :: 0 <= i < |ids| ==> ids[i] in t.rows
    ensures var records, from, rest := PageFrom(r, t, ids, p, n).records, (p - 1) * n, |ids| - (p - 1) * n;
      && PageFrom(r, t, ids, p, n).total == |ids|
      && (from <= 0x7fff_ffff_ffff_ffff ==>
            && OffsetOf(p, n) >= 0
            && |records| == (if rest < 0 then 0 else if rest < n then rest else n)
            && forall i, c :: 0 <= i < |records| ==>
                 if exists k :: 0 <= k < |r.fields| && r.fields[k].sqlName == c && !r.fields[k].hidden
                 then c in records[i] && records[i][c] == Field(t.rows[ids[from + i]], c)
                 else c !in records[i])
  {
    hide *;
    PageCut(r, t, ids, p, n);
    var records, from := PageFrom(r, t, ids, p, n).records, (p - 1) * n;
    if from <= 0x7fff_ffff_ffff_ffff {
      forall i, c | 0 <= i < |records|
        ensures if exists k :: 0 <= k < |r.fields| && r.fields[k].sqlName == c && !r.fields[k].hidden
                then c in records[i] && records[i][c] == Field(t.rows[ids[from + i]], c) else c !in records[i]
      {
        ShownColumn(r, t.rows[ids[from + i]], c);
      }
    }
  }

  /** A listing has only rows the actor sees. */
  lemma ListingOwned(pg: bool, le: Order, r: ResourceMeta, t: Table, tenant: string, role: string, search: string,
                     filters: map<string, string>, ids: seq<string>)
    requires IsListing(pg, le, r, t, tenant, role, search, filters, ids)
    ensures forall i :: 0 <= i < |ids| ==> ids[i] in t.rows
    ensures r.tenantKey != "" && role != "super_admin" ==>
      forall i :: 0 <= i < |ids| ==>
        var owner := Field(t.rows[ids[i]], r.tenantKey);
        !owner.Null? && TextOf(owner) == tenant
  {
    forall i | 0 <= i < |ids| ensures Wanted(pg, r, tenant, role, search, filters, t.rows[ids[i]], le) {
      assert ids[i] in ids;
    }
  }

  /******* Which rows a listing is about *******/

  lemma {:induction false} SearchColumnsAre(fields: seq<FieldMeta>)
    ensures forall c :: c in SearchColumns(fields) <==>
      exists i :: 0 <= i < |fields| && fields[i].searchable && !fields[i].hidden && fields[i].sqlName == c
  {
    if fields != [] {
      var n, f := |fields| - 1, fields[|fields| - 1];
      var last := if f.searchable && !f.hidden then [f.sqlName] else [];
      SearchColumnsAre(fields[..n]);
      assert SearchColumns(fields) == SearchColumns(fields[..n]) + last;
      hide SearchColumns;
      assert forall i :: 0 <= i < n ==> fields[..n][i] == fields[i];
    }
  }

  /** A search looks at the searchable columns that are shown. */
  lemma SearchExactly(r: ResourceMeta, search: string, row: Row)
    ensures SearchColumns(r.fields) != [] <==>
      exists i :: 0 <= i < |r.fields| && r.fields[i].searchable && !r.fields[i].hidden
    ensures Found(SearchColumns(r.fields), search, row) <==>
      exists i :: 0 <= i < |r.fields| && r.fields[i].searchable && !r.fields[i].hidden &&
        var v := Field(row, r.fields[i].sqlName);
        !v.Null? && if MetaFree(search) then Contains(Fold(TextOf(v)), Fold(search))
                    else LikeMatch(Fold("%" + search + "%"), Fold(TextOf(v)))
  {
    hide LikeMatch, Contains, Fold, MetaFree;
    var columns := SearchColumns(r.fields);
    SearchColumnsAre(r.fields);
    if columns != [] { assert columns[0] in columns; }
    if i :| 0 <= i < |r.fields| && r.fields[i].searchable && !r.fields[i].hidden {
      assert r.fields[i].sqlName in columns;
    }
    var hit := (c: string) => !Field(row, c).Null? && Has(search, TextOf(Field(row, c)));
    if i :| 0 <= i < |columns| && hit(columns[i]) { assert columns[i] in columns; }
    if i :| 0 <= i < |r.fields| && r.fields[i].searchable && !r.fields[i].hidden && hit(r.fields[i].sqlName) {
      assert r.fields[i].sqlName in columns;
      var j :| 0 <= j < |columns| && columns[j] == r.fields[i].sqlName;
    }
  }

  /** What a filter `field::operator`, or `field` for equality, asks of a row. */
  lemma FilterExactly(pg: bool, key: string, value: string, row: Row, le: Order)
    ensures Meets(pg, OpOf(key), value, Field(row, FieldOf(key)), le) <==>
      (var cut := Cut(key, "::");
       var v, op := Field(row, cut.before), if cut.found then cut.after else "eq";
       !v.Null? &&
       var text, side := TextOf(v), if pg then Str(TextOf(v)) else v;
       if op == "contains" then
         (if MetaFree(value) then Contains(Fold(text), Fold(value)) else LikeMatch(Fold("%" + value + "%"), Fold(text)))
       else if op == "starts_with" then
         (if MetaFree(value) then HasPrefix(Fold(text), Fold(value)) else LikeMatch(Fold(value + "%"), Fold(text)))
       else if op == "ends_with" then
         (if MetaFree(value) then HasSuffix(Fold(text), Fold(value)) else LikeMatch(Fold("%" + value), Fold(text)))
       else if op == "gte" then le(Str(value), side)
       else if op == "lte" then le(side, Str(value))
       else if op == "gt" then !le(side, Str(value))
       else if op == "lt" then !le(Str(value), side)
       else text == value)
  {
    hide LikeMatch, Contains, Fold, MetaFree, HasPrefix, HasSuffix, TextOf, Cut;
  }

  /** The rows a listing is about: in a tenant-scoped resource those of the actor's tenant unless the actor
      is `super_admin`, that are found by the search and meet every filter with a value. */
  lemma WantedExactly(pg: bool, r: ResourceMeta, tenant: string, role: string, search: string,
                      filters: map<string, string>, row: Row, le: Order)
    ensures Wanted(pg, r, tenant, role, search, filters, row, le) <==>
      (&& (r.tenantKey != "" && role != "super_admin" ==>
             !Field(row, r.tenantKey).Null? && TextOf(Field(row, r.tenantKey)) == tenant)
       && (search != "" && (exists i :: 0 <= i < |r.fields| && r.fields[i].searchable && !r.fields[i].hidden) ==>
             Found(SearchColumns(r.fields), search, row))
       && forall key :: key in filters && filters[key] != "" ==>
            Meets(pg, OpOf(key), filters[key], Field(row, FieldOf(key)), le))
  {
    hide Meets, Found, FieldOf, OpOf;
    SearchExactly(r, search, row);
  }

  /** A filter is refused unless its field is declared filterable and its operator is one of eight. */
  lemma RefusedExactly(r: ResourceMeta, key: string, value: string)
    requires DistinctColumns(r)
    ensures Refused(r, key, value) <==>
      value != "" &&
      var cut := Cut(key, "::");
      !((exists i :: 0 <= i < |r.fields| && r.fields[i].sqlName == cut.before && r.fields[i].filterable)
        && (cut.found ==>
              cut.after in ["eq", "contains", "starts_with", "ends_with", "gte", "lte", "gt", "lt"]))
  {
    hide Cut;
    var c := Cut(key, "::").before;
    var f := FieldBySQLName(r.fields, c);
    if i :| 0 <= i < |r.fields| && r.fields[i].sqlName == c && r.fields[i].filterable {
      FieldIsFirst(r, r.fields[i]);
    }
  }

  /******* In which order *******/

  /** The sort asked for: by the given column, else by the default one, else on Postgres the newest first;
      descending after a minus sign, and none when the column is unknown or not sortable. */
  lemma SortExactly(d: Dialect, r: ResourceMeta, sortBy: string)
    requires DistinctColumns(r)
    ensures var s := if sortBy != "" then sortBy else if r.defaultSort != "" then r.defaultSort
                     else if d.Postgres? then "-created_at" else "";
      var desc := s != "" && s[0] == '-';
      var c := if desc then s[1..] else s;
      if exists i :: 0 <= i < |r.fields| && r.fields[i].sqlName == c && r.fields[i].sortable
      then SortKeys(d, r, sortBy) == [OrderKey(c, desc)]
        && OrderClause(d, r, sortBy) == " order by " + QuoteIdent(d, c) + " " + (if desc then "desc" else "asc")
      else SortKeys(d, r, sortBy) == [] && OrderClause(d, r, sortBy) == ""
  {
    hide QuoteIdent;
    var s := if sortBy != "" then sortBy else if r.defaultSort != "" then r.defaultSort
             else if d.Postgres? then "-created_at" else "";
    var desc := s != "" && s[0] == '-';
    var c := if desc then s[1..] else s;
    assert HasPrefix(s, "-") <==> desc;
    assert TrimPrefix(s, "-") == c;
    if i :| 0 <= i < |r.fields| && r.fields[i].sqlName == c && r.fields[i].sortable {
      FieldIsFirst(r, r.fields[i]);
    }
  }

  /** Rows sorted by one column: not decreasing, or not increasing where the sort is descending. */
  lemma SortedExactly(ids: seq<string>, c: string, desc: bool, rows: map<string, Row>, le: Order)
    requires TotalPreorder(le) && (forall i :: 0 <= i < |ids| ==> ids[i] in rows)
    requires InOrder(ids, [OrderKey(c, desc)], rows, le)
    ensures forall i, j :: 0 <= i < j < |ids| ==>
      var x, y := Field(rows[ids[i]], c), Field(rows[ids[j]], c);
      if desc then le(y, x) else le(x, y)
  {
    forall i, j | 0 <= i < j < |ids|
      ensures var x, y := Field(rows[ids[i]], c), Field(rows[ids[j]], c); if desc then le(y, x) else le(x, y)
    {
      OrderMeans([OrderKey(c, desc)], rows[ids[i]], rows[ids[j]], le, 0);
    }
  }

  /** So a listing is sorted as asked. */
  lemma OrderExactly(d: Dialect, r: ResourceMeta, sortBy: string, ids: seq<string>, rows: map<string, Row>, le: Order)
    requires DistinctColumns(r) && TotalPreorder(le) && (forall i :: 0 <= i < |ids| ==> ids[i] in rows)
    requires InOrder(ids, SortKeys(d, r, sortBy), rows, le)
    ensures var s := if sortBy != "" then sortBy else if r.defaultSort != "" then r.defaultSort
                     else if d.Postgres? then "-created_at" else "";
      var desc := s != "" && s[0] == '-';
      var c := if desc then s[1..] else s;
      (exists i :: 0 <= i < |r.fields| && r.fields[i].sqlName == c && r.fields[i].sortable) ==>
        forall i, j :: 0 <= i < j < |ids| ==>
          var x, y := Field(rows[ids[i]], c), Field(rows[ids[j]], c);
          if desc then le(y, x) else le(x, y)
  {
    hide InOrder, TotalPreorder, DistinctColumns, SortKeys, OrderClause, Field;
    var s := if sortBy != "" then sortBy else if r.defaultSort != "" then r.defaultSort
             else if d.Postgres? then "-created_at" else "";
    var desc := s != "" && s[0] == '-';
    var c := if desc then s[1..] else s;
    SortExactly(d, r, sortBy);
    if exists i :: 0 <= i < |r.fields| && r.fields[i].sqlName == c && r.fields[i].sortable {
      SortedExactly(ids, c, desc, rows, le);
    }
  }

  /******* What a create stores and shows *******/

  lemma CompletedKey(r: ResourceMeta, tenant: string, input: Row, now: int, freshId: string)
    requires WellFormed(r)
    ensures var full := Completed(r, tenant, input, now, freshId);
      r.primaryKey in full && full[r.primaryKey] ==
        if r.primaryKey in input && !input[r.primaryKey].Null? then input[r.primaryKey] else Str(freshId)
  {}

  lemma StampColumn(row: Row, has: bool, name: string, now: int, c: string)
    requires c == name ==> has
    ensures var next := if has && Missing(row, name) then row[name := Int(now)] else row;
      if c == name && Missing(row, c) then c in next && next[c] == Int(now)
      else (c in next <==> c in row) && (c in row ==> next[c] == row[c])
  {}

  lemma CompletedColumn(r: ResourceMeta, tenant: string, input: Row, now: int, freshId: string, c: string)
    requires WellFormed(r) && c != r.primaryKey && HasColumn(r, c)
    ensures var full := Completed(r, tenant, input, now, freshId);
      if r.tenantKey != "" && c == r.tenantKey then c in full && full[c] == Str(tenant)
      else if (c == "created_at" || c == "updated_at") && (c !in input || input[c].Null?)
      then c in full && full[c] == Int(now)
      else (c in full <==> c in input) && (c in input ==> full[c] == input[c])
  {
    hide HasColumn, WellFormed;
    var a := if Missing(input, r.primaryKey) then input[r.primaryKey := Str(freshId)] else input;
    var b := if r.tenantKey != "" then a[r.tenantKey := Str(tenant)] else a;
    var d := if HasColumn(r, "created_at") && Missing(b, "created_at") then b["created_at" := Int(now)] else b;
    StampColumn(b, HasColumn(r, "created_at"), "created_at", now, c);
    StampColumn(d, HasColumn(r, "updated_at"), "updated_at", now, c);
    assert Completed(r, tenant, input, now, freshId) ==
      if HasColumn(r, "updated_at") && Missing(d, "updated_at") then d["updated_at" := Int(now)] else d;
    hide Completed;
  }

  /** The key a create stores under: the client's when one is sent, else the fresh id.  A key already
      taken makes it fail; otherwise one row is added, with every column of the table, and shown. */
  lemma CreateExactly(pg: bool, r: ResourceMeta, t: Table, a: Actor, input: Row, now: int, freshId: string,
                      hash: Hasher)
    requires WellFormed(r)
    ensures var op, sent := DoCreate(input, now, freshId, hash),
      r.primaryKey in input && !input[r.primaryKey].Null?;
      var after, answer := After(pg, r, t, a, op), Answers(pg, r, t, a, op);
      var id := if sent then TextOf(input[r.primaryKey]) else freshId;
      if id in t.rows then after == t && answer == Failed
      else
        && after == t.(rows := after.rows) && after.rows.Keys == t.rows.Keys + {id}
        && (forall other :: other in t.rows ==> after.rows[other] == t.rows[other])
        && after.rows[id].Keys == t.columns && answer == Shown([Shows(r, after.rows[id])])
  {
    CompletedKey(r, a.tenant, input, now, freshId);
    hide Shows, WellFormed, Completed;
  }

  /** Column by column: the client's values, passwords hashed; the key; the creator's tenant; the time
      where a stamp is missing; and the table's default in every other column. */
  lemma CreatedColumn(pg: bool, r: ResourceMeta, t: Table, a: Actor, input: Row, now: int, freshId: string,
                      hash: Hasher, id: string, c: string)
    requires WellFormed(r) && id !in t.rows && c in t.columns
    requires id in After(pg, r, t, a, DoCreate(input, now, freshId, hash)).rows
    ensures var row, declared := After(pg, r, t, a, DoCreate(input, now, freshId, hash)).rows[id],
      FieldBySQLName(r.fields, c);
      var sent, default := c in input && !input[c].Null?, if c in t.defaults then t.defaults[c] else Null;
      c in row && row[c] ==
        if c == r.primaryKey then (if sent then input[c] else Str(freshId))
        else if r.tenantKey != "" && c == r.tenantKey then Str(a.tenant)
        else if declared.None? || (declared.value.hidden && c != r.tenantKey) then default
        else
          var stamped := !sent && (c == "created_at" || c == "updated_at");
          if !stamped && c !in input then default
          else
            var v := if stamped then Int(now) else input[c];
            if declared.value.password then Str(hash(c, if v.Null? then "<nil>" else TextOf(v))) else v
  {
    hide TextOf;
    var declared := FieldBySQLName(r.fields, c);
    CompletedKey(r, a.tenant, input, now, freshId);
    if c != r.primaryKey && declared.Some? { CompletedColumn(r, a.tenant, input, now, freshId, c); }
    hide Completed, FieldBySQLName, DistinctColumns;
  }

  /******* When passwords are hashed and columns assigned *******/

  lemma CompletedKeeps(r: ResourceMeta, tenant: string, input: Row, now: int, freshId: string, c: string)
    requires c in input
    ensures c in Completed(r, tenant, input, now, freshId)
  {
    hide HasColumn, Missing;
  }

  /** A create hashes when a password that is not hidden is sent. */
  lemma CreateHashes(r: ResourceMeta, tenant: string, input: Row, now: int, freshId: string, i: nat)
    requires i < |r.fields| && r.fields[i].password && !r.fields[i].hidden && r.fields[i].sqlName in input
    ensures HashesInserted(r, Completed(r, tenant, input, now, freshId))
  {
    hide Completed;
    CompletedKeeps(r, tenant, input, now, freshId, r.fields[i].sqlName);
    assert Insertable(r, r.fields[i], Completed(r, tenant, input, now, freshId));
  }

  /** An update hashes exactly when a password is sent that is neither readonly, hidden, key nor tenant. */
  lemma UpdateHashes(r: ResourceMeta, input: Row)
    ensures HashesWritten(r, input) <==> exists i ::
      0 <= i < |r.fields| && r.fields[i].password && !r.fields[i].readonly && !r.fields[i].hidden &&
      r.fields[i].sqlName != r.primaryKey && r.fields[i].sqlName != r.tenantKey && r.fields[i].sqlName in input
  {}

  lemma {:induction false} WrittenSome(r: ResourceMeta, fields: seq<FieldMeta>, input: Row)
    ensures Written(r, fields, input) != [] <==> exists i :: 0 <= i < |fields| && Writes(r, fields[i], input)
  {
    hide Writes;
    if fields != [] {
      var n := |fields| - 1;
      WrittenSome(r, fields[..n], input);
      assert forall i :: 0 <= i < n ==> fields[..n][i] == fields[i];
    }
  }

  /** It assigns something exactly when there is a stamp or a field is sent that is none of these. */
  lemma UpdateAssigns(r: ResourceMeta, input: Row)
    ensures UpdateSets(r, input) != [] <==>
      (|| (exists i :: 0 <= i < |r.fields| && r.fields[i].sqlName == "updated_at")
       || exists i ::
            0 <= i < |r.fields| && !r.fields[i].readonly && !r.fields[i].hidden &&
            r.fields[i].sqlName != r.primaryKey && r.fields[i].sqlName != r.tenantKey && r.fields[i].sqlName in input)
  {
    hide Written;
    WrittenSome(r, r.fields, input);
    var f := FieldBySQLName(r.fields, "updated_at");
    if f.Some? { var i :| 0 <= i < |r.fields| && r.fields[i] == f.value; }
  }
}
