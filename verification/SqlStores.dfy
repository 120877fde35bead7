/** The SQL stores over a database: list, get, create, update, delete and bulk delete.  Every
    method builds statement text and arguments and hands them to the database; its contract
    says what comes back and what the tables hold afterwards. */
module SqlStores {
  import opened Wrappers
  import opened Text
  import opened Resources
  import opened SqlSyntax
  import opened SqlText
  import opened SqlMeaning
  import opened ListFilters
  import opened StoreSpec
  import opened StoreStatements
  import opened StoreText
  import opened StoreOutcomes
  import opened WhereBuilder
  import Pagination

  /** The order in which a database happens to visit the rows of a table. */
  method AnyScan(t: Table) returns (scan: seq<string>)
    ensures IsScan(scan, t)
  {
    scan := [];
    var remaining := t.rows.Keys;
    while remaining != {}
      invariant Distinct(scan) && remaining <= t.rows.Keys
      invariant forall id :: id in scan <==> id in t.rows && id !in remaining
      decreases |remaining|
    {
      var id :| id in remaining;
      remaining := remaining - {id};
      scan := scan + [id];
    }
    assert forall i :: 0 <= i < |scan| ==> scan[i] in scan;
  }

  /** Only SQLite takes a negative offset, for none. */
  predicate OffsetRefused(d: Dialect, page: int, perPage: int) { !d.SQLite? && OffsetOf(page, perPage) < 0 }

  lemma OffsetFits(d: Dialect, page: int, perPage: int)
    requires 1 <= page && 1 <= perPage
    ensures 0 <= (page - 1) * perPage
    ensures (page - 1) * perPage <= 0x7fff_ffff_ffff_ffff ==> !OffsetRefused(d, page, perPage)
  {
    Pagination.ProductNatural(page - 1, perPage);
    OffsetExactly(page, perPage);
  }

  class Store {
    const dialect: Dialect
    const resources: map<string, ResourceMeta>
    const le: Order
    var db: Tables

    ghost predicate Valid()
      reads this
    {
      forall table :: table in resources ==> Ready(table)
    }

    ghost predicate Ready(table: string)
      requires table in resources
      reads this
    {
      var r := resources[table];
      WellFormed(r) && r.table == table && table in db && Fits(r, db[table])
    }

    constructor (dialect: Dialect, resources: map<string, ResourceMeta>, le: Order, db: Tables)
      requires forall table :: table in resources ==>
        WellFormed(resources[table]) && resources[table].table == table && table in db &&
          Fits(resources[table], db[table])
      ensures Valid() && this.db == db && this.resources == resources && this.dialect == dialect && this.le == le
    {
      this.dialect, this.resources, this.le, this.db := dialect, resources, le, db;
    }

    /** One page of the rows wanted: `ids` is the whole answer, each wanted row once and in
        the requested order, and p and n are the page and the size that count; the page is the
        slice of it, and the total its length.  The k-th statement of a call fails in the database
        when faulty(k), here and below. */
    method List(table: string, tenant: string, role: string, search: string, sortBy: string,
                filters: map<string, string>, page: int, perPage: int, faulty: nat -> bool)
      returns (res: Result<Listing, StoreError>, ghost ids: seq<string>, ghost p: int, ghost n: int)
      requires Valid()
      ensures p == (if page > 0 then page else 1) && n == if 1 <= perPage <= 100 then perPage else 25
      ensures table !in resources ==> res == Failure(NotFound)
      ensures table in resources ==>
        (res.Failure? <==> (|| !NoneRefused(resources[table], filters) || faulty(0) || faulty(1)
                            || OffsetRefused(dialect, p, n)))
      ensures (p - 1) * n <= 0x7fff_ffff_ffff_ffff ==> !OffsetRefused(dialect, p, n)
      ensures res.Success? ==>
        table in resources
        && IsListing(dialect.Postgres?, le, resources[table], db[table], tenant, role, search, filters, ids)
        && res.value == PageFrom(resources[table], db[table], ids, p, n)
      ensures res.Success? && TotalPreorder(le) ==>
        InOrder(ids, SortKeys(dialect, resources[table], sortBy), db[table].rows, le)
      ensures res.Success? ==>
        var r, records, from, rest := resources[table], res.value.records, (p - 1) * n, |ids| - (p - 1) * n;
        && res.value.total == |ids|
        && (0 <= from <= 0x7fff_ffff_ffff_ffff ==>
              && |records| == (if rest < 0 then 0 else if rest < n then rest else n)
              && forall i, c :: 0 <= i < |records| ==>
                   if exists k :: 0 <= k < |r.fields| && r.fields[k].sqlName == c && !r.fields[k].hidden
                   then c in records[i] && records[i][c] == Field(db[table].rows[ids[from + i]], c)
                   else c !in records[i])
      ensures res.Success? && resources[table].tenantKey != "" && role != "super_admin" ==>
        forall i :: 0 <= i < |ids| ==>
          var owner := Field(db[table].rows[ids[i]], resources[table].tenantKey);
          !owner.Null? && TextOf(owner) == tenant
    {
      var q, pp := page, perPage;
      if q <= 0 { q := 1; }
      if pp <= 0 || pp > 100 { pp := 25; }
      ids, p, n := [], q, pp;
      OffsetFits(dialect, p, n);
      if table !in resources { return Failure(NotFound), ids, p, n; }
      assert Ready(table);
      assert WellFormed(resources[table]) && resources[table].table == table && table in db;
      hide *;
      var r := resources[table];
      var built;
      ghost var walk;
      built, walk := BuildWhere(dialect, r, tenant, role, search, filters);
      if built.Failure? { return Failure(built.error), ids, p, n; }
      KeyIsVisible(r);
      res, ids := ListPage(r, tenant, role, search, sortBy, filters, q, pp, built.value.0, built.value.1, walk, faulty);
      if res.Failure? { return; }
      ListingOwned(dialect.Postgres?, le, r, db[table], tenant, role, search, filters, ids);
    }

    /** The count and the page, for a WHERE text already built. */
    method ListPage(r: ResourceMeta, tenant: string, role: string, search: string, sortBy: string,
                    filters: map<string, string>, p: int, pp: int, where: string, given: seq<Value>,
                    ghost walk: seq<string>, faulty: nat -> bool)
      returns (res: Result<Listing, StoreError>, ghost ids: seq<string>)
      requires VisibleColumns(r.fields) != [] && r.table in db && 1 <= p && 1 <= pp
      requires IsWalk(walk, filters) && NoneRefused(r, filters)
      requires given == Args(r, tenant, role, search, filters, Active(filters, walk))
      requires SpellsFilter(dialect, where, Forms(dialect.Postgres?, r, role, search, Active(filters, walk)))
      ensures res.Failure? <==> faulty(0) || faulty(1) || OffsetRefused(dialect, p, pp)
      ensures IsListing(dialect.Postgres?, le, r, db[r.table], tenant, role, search, filters, ids)
      ensures res.Success? ==> res.value == PageFrom(r, db[r.table], ids, p, pp)
      ensures res.Success? ==>
        var records, from, rest := res.value.records, (p - 1) * pp, |ids| - (p - 1) * pp;
        && res.value.total == |ids|
        && (0 <= from <= 0x7fff_ffff_ffff_ffff ==>
              && |records| == (if rest < 0 then 0 else if rest < pp then rest else pp)
              && forall i, c :: 0 <= i < |records| ==>
                   if exists k :: 0 <= k < |r.fields| && r.fields[k].sqlName == c && !r.fields[k].hidden
                   then c in records[i] && records[i][c] == Field(db[r.table].rows[ids[from + i]], c)
                   else c !in records[i])
      ensures TotalPreorder(le) ==> InOrder(ids, SortKeys(dialect, r, sortBy), db[r.table].rows, le)
    {
      ghost var forms := Forms(dialect.Postgres?, r, role, search, Active(filters, walk));
      PlaceholdersCount(dialect.Postgres?, r, tenant, role, search, filters, Active(filters, walk));
      var scan := AnyScan(db[r.table]);
      var offset := OffsetOf(p, pp);
      ids := AnswerLists(r, db[r.table], tenant, role, search, sortBy, filters, walk, forms, given,
                         [Int(pp), Int(offset)], scan);
      if faulty(0) { return Failure(Rejected("count")), ids; }
      var total := RunCount(r, where, given, forms);
      if faulty(1) { return Failure(Rejected("query")), ids; }
      var rows := RunSelect(r, sortBy, offset, pp, where, given, forms, scan);
      if rows.Failure? { return Failure(Rejected(rows.error)), ids; }
      SliceOfAnswer(db[r.table], FilterExpr(forms), SortKeys(dialect, r, sortBy), given + [Int(pp), Int(offset)],
                    le, scan, offset, pp);
      res := Success(Listing(ShowsAll(r, db[r.table], rows.value), total));
      PageExactly(r, db[r.table], ids, p, pp);
    }

    /** Runs the count statement of a list request. */
    method RunCount(r: ResourceMeta, where: string, args: seq<Value>, ghost forms: seq<Clause>) returns (total: nat)
      requires r.table in db
      requires SpellsFilter(dialect, where, forms) && WritableClauses(forms) && ClausesArgs(forms) == Upto(1, |args|)
      ensures total == |Matching(db[r.table], FilterExpr(forms), args, le)|
    {
      CountStatementReads(dialect, r.table, where, forms, "select count(*) from ");
      var counted := QueryCount(db, "select count(*) from " + QuoteIdent(dialect, r.table) + where, args, le);
      total := counted.value;
    }

    /** Runs the select statement of a list request, unless the database refuses its offset. */
    method RunSelect(r: ResourceMeta, sortBy: string, offset: int, pp: int, where: string, given: seq<Value>,
                     ghost forms: seq<Clause>, scan: seq<string>)
      returns (rows: Result<seq<string>, string>)
      requires VisibleColumns(r.fields) != [] && r.table in db && IsScan(scan, db[r.table])
      requires SpellsFilter(dialect, where, forms) && WritableClauses(forms) && ClausesArgs(forms) == Upto(1, |given|)
      ensures rows.Failure? <==> !dialect.SQLite? && offset < 0
      ensures rows.Success? ==>
        rows.value == Slice(Answer(db[r.table], FilterExpr(forms), SortKeys(dialect, r, sortBy),
                                   given + [Int(pp), Int(offset)], le, scan), offset, pp)
    {
      var order := OrderClause(dialect, r, sortBy);
      var limitN, offsetN := |given| + 1, |given| + 2;
      var args := given + [Int(pp), Int(offset)];
      var sql := "select " + SelectCols(dialect, r) + " from " + QuoteIdent(dialect, r.table) + where + order
                 + (" limit " + Placeholder(dialect, limitN) + " offset " + Placeholder(dialect, offsetN));
      ListReads(dialect, r, where, forms, sortBy, |given|, " limit ", " offset ");
      QueryIs(!dialect.SQLite?, db, sql, SqlSyntax.Named(VisibleColumns(r.fields)), r.table, FilterExpr(forms),
              SortKeys(dialect, r, sortBy), given, pp, offset, le, scan);
      var queried := Query(!dialect.SQLite?, db, sql, args, le, scan);
      if queried.Failure? { return Failure(queried.error); }
      rows := Success(queried.value.0);
    }

    method Get(table: string, id: string, tenant: string, role: string, failing: bool)
      returns (res: Result<Row, StoreError>)
      requires Valid()
      ensures table !in resources ==> res == Failure(NotFound)
      ensures table in resources && failing ==> res == Failure(Rejected("query"))
      ensures table in resources && !failing ==> res == GetSpec(resources[table], db[table], id, tenant, role)
      ensures table in resources && !failing ==>
        OneRow(res) == Answers(dialect.Postgres?, resources[table], db[table], Actor(tenant, role), DoGet(id))
      ensures table in resources && !failing ==>
        var r, t := resources[table], db[table];
        && (res.Success? <==>
              (id in t.rows &&
               var owner := Field(t.rows[id], r.tenantKey);
               r.tenantKey == "" || role == "super_admin" || (!owner.Null? && TextOf(owner) == tenant)))
        && (res.Success? ==>
              forall c ::
                if exists i :: 0 <= i < |r.fields| && r.fields[i].sqlName == c && !r.fields[i].hidden
                then c in res.value && res.value[c] == Field(t.rows[id], c) else c !in res.value)
    {
      if table !in resources { return Failure(NotFound); }
      assert Ready(table);
      if failing { return Failure(Rejected("query")); }
      GetExactly(resources[table], db[table], id, tenant, role);
      var records := SelectOne(dialect, le, db, resources[table], id, tenant, role);
      if records == [] { return Failure(NotFound); }
      res := Success(records[0]);
    }

    /** Stores the completed input under its key, unless the key is taken, and shows it.  Step 0 hashes
        the passwords, step 1 inserts and step 2 reads back: a failure there leaves the row stored. */
    method Create(table: string, tenant: string, input: Row, now: int, freshId: string, hash: Hasher,
                  faulty: nat -> bool)
      returns (res: Result<Row, StoreError>)
      requires Valid()
      modifies this`db
      ensures Valid()
      ensures table !in resources ==> res == Failure(NotFound) && db == old(db)
      ensures table in resources ==>
        var r, t, a, op := resources[table], old(db)[table], Actor(tenant, SUPER_ADMIN),
          DoCreate(input, now, freshId, hash);
        var stopped := faulty(1) || (faulty(0) && HashesInserted(r, Completed(r, tenant, input, now, freshId)));
        && db == (if stopped then old(db) else old(db)[table := After(dialect.Postgres?, r, t, a, op)])
        && OneRow(res) == if stopped || faulty(2) then Failed else Answers(dialect.Postgres?, r, t, a, op)
    {
      hide NewRow, Completed, ValidTable, WellFormed, Shows, HashesInserted;
      if table !in resources { return Failure(NotFound); }
      var r := resources[table];
      assert Ready(table);
      var full := Complete(r, tenant, input, now, freshId);
      var after := InsertOne(dialect, le, db, r, full, hash, faulty(0), faulty(1));
      if after.Failure? { return Failure(Rejected(after.error)); }
      InsertKeepsValid(r, db[table], full, hash);
      db := after.value;
      assert Ready(table);
      assert forall other :: other in resources ==> old(Ready(other));
      res := Get(table, TextOf(full[r.primaryKey]), tenant, SUPER_ADMIN, faulty(2));
    }

    /** Overlays the writable input on the row the actor sees, and stamps it; other rows stay.
        Postgres refuses an input that itself writes the stamp; elsewhere the stamp wins.  Step 0
        reads, step 1 hashes, step 2 updates and step 3 reads back, unless nothing is assigned. */
    method Update(table: string, id: string, tenant: string, role: string, input: Row, now: int, hash: Hasher,
                  faulty: nat -> bool)
      returns (res: Result<(Row, Row), StoreError>)
      requires Valid()
      modifies this`db
      ensures Valid()
      ensures table !in resources ==> res == Failure(NotFound) && db == old(db)
      ensures table in resources ==>
        var r, t, a, op := resources[table], old(db)[table], Actor(tenant, role), DoUpdate(id, input, now, hash);
        var assigns := UpdateSets(r, input) != [];
        var stopped := faulty(0) || (faulty(1) && HashesWritten(r, input)) || (faulty(2) && assigns);
        && db == (if stopped then old(db) else old(db)[table := After(dialect.Postgres?, r, t, a, op)])
        && TwoRows(res) == (if stopped || (faulty(3) && assigns) then Failed
                            else Answers(dialect.Postgres?, r, t, a, op))
        && (!faulty(0) && !Sees(r, t, id, tenant, role) ==> res == Failure(NotFound))
      ensures table in resources ==>
        var r, t := resources[table], old(db)[table];
        var seen := id in t.rows &&
          var owner := Field(t.rows[id], r.tenantKey);
          r.tenantKey == "" || role == "super_admin" || (!owner.Null? && TextOf(owner) == tenant);
        var clash := dialect.Postgres? && "updated_at" in input && exists i ::
          0 <= i < |r.fields| && r.fields[i].sqlName == "updated_at" && !r.fields[i].readonly && !r.fields[i].hidden;
        && (res.Success? ==> seen && !clash)
        && (seen && !clash && (forall k: nat :: k <= 3 ==> !faulty(k)) ==> res.Success?)
    {
      hide UpdatedRow, WellFormed, Fits, InScope, Shows, Completed, NewRow, StampClash, HashesWritten, UpdateSets;
      if table in resources {
        assert Ready(table);
        UpdateExactly(dialect.Postgres?, resources[table], db[table], Actor(tenant, role), id, input, now, hash);
      }
      var oldRecord := Get(table, id, tenant, role, faulty(0));
      if oldRecord.Failure? { return Failure(oldRecord.error); }
      var r := resources[table];
      assert Ready(table);
      var assigns, after := UpdateOne(dialect, le, db, r, id, tenant, role, input, now, hash, faulty(1), faulty(2));
      if after.Failure? { return Failure(Rejected(after.error)); }
      UpdateKeepsValid(r, db[table], id, input, hash, now);
      UpdateKeepsScope(r, db[table].rows[id], tenant, role, input, hash, now);
      if !assigns { return Success((oldRecord.value, oldRecord.value)); }
      db := after.value;
      assert Ready(table);
      assert forall other :: other in resources ==> old(Ready(other));
      var newRecord := Get(table, id, tenant, role, faulty(3));
      if newRecord.Failure? { return Failure(newRecord.error); }
      res := Success((oldRecord.value, newRecord.value));
    }

    /** The Postgres store's delete: a read, then a delete statement. */
    method Delete(table: string, id: string, tenant: string, role: string, faulty: nat -> bool)
      returns (res: Result<Row, StoreError>)
      requires Valid()
      modifies this`db
      ensures Valid()
      ensures table !in resources ==> res == Failure(NotFound) && db == old(db)
      ensures table in resources ==>
        var r, t, a, op := resources[table], old(db)[table], Actor(tenant, role), DoDelete(id);
        var stopped := faulty(0) || faulty(1);
        && db == (if stopped then old(db) else old(db)[table := After(dialect.Postgres?, r, t, a, op)])
        && OneRow(res) == (if stopped then Failed else Answers(dialect.Postgres?, r, t, a, op))
        && (!faulty(0) && !Sees(r, t, id, tenant, role) ==> res == Failure(NotFound))
      ensures table in resources ==>
        var r, t := resources[table], old(db)[table];
        var seen := id in t.rows &&
          var owner := Field(t.rows[id], r.tenantKey);
          r.tenantKey == "" || role == "super_admin" || (!owner.Null? && TextOf(owner) == tenant);
        && (res.Success? <==> seen && !faulty(0) && !faulty(1))
        && db == if res.Success? then old(db)[table := t.(rows := t.rows - {id})] else old(db)
    {
      hide InScope, Shows, WellFormed;
      if table in resources {
        assert Ready(table);
        DeleteExactly(dialect.Postgres?, resources[table], db[table], Actor(tenant, role), id);
      }
      res := Get(table, id, tenant, role, faulty(0));
      if res.Failure? { return; }
      assert Ready(table);
      if faulty(1) { return Failure(Rejected("exec")); }
      var after := DeleteOne(dialect, le, db, resources[table], id, tenant, role);
      db := after;
      assert Ready(table);
      assert forall other :: other in resources ==> old(Ready(other));
    }

    /** The Postgres store's bulk delete: reads and deletes inside one transaction, all or
        nothing.  Call k to the database fails when faulty(k): the begin is call 0, the read and
        the delete of the i-th id are calls 2i+1 and 2i+2, and the commit follows. */
    method DeleteMany(table: string, ids: seq<string>, tenant: string, role: string, faulty: nat -> bool)
      returns (res: Result<seq<Row>, StoreError>)
      requires Valid()
      modifies this`db
      ensures Valid()
      ensures res.Failure? ==> db == old(db)
      ensures table !in resources ==> res == Failure(NotFound)
      ensures table in resources && ids == [] ==> res == Success([]) && db == old(db)
      ensures table in resources && ids != [] ==>
        var r, t, a := resources[table], old(db)[table], Actor(tenant, role);
        && (res.Success? || NoFault(faulty, ids) ==>
              ManyRows(res) == Answers(true, r, t, a, DoDeleteMany(ids)) &&
                db == old(db)[table := After(true, r, t, a, DoDeleteMany(ids))])
        && (NoFault(faulty, ids) && !Deletable(true, r, t, ids, a) ==> res == Failure(NotFound))
      ensures table in resources ==>
        var r, t := resources[table], old(db)[table];
        var seen := (forall i, j :: 0 <= i < j < |ids| ==> ids[i] != ids[j]) && forall i :: 0 <= i < |ids| ==>
          (ids[i] in t.rows &&
           var owner := Field(t.rows[ids[i]], r.tenantKey);
           r.tenantKey == "" || role == "super_admin" || (!owner.Null? && TextOf(owner) == tenant));
        && (res.Success? ==> seen) && (seen && (forall k: nat :: k <= 2 * |ids| + 1 ==> !faulty(k)) ==> res.Success?)
        && (res.Success? && ids != [] ==>
              forall id ::
                if id in t.rows && id !in ids then id in db[table].rows && db[table].rows[id] == t.rows[id]
                else id !in db[table].rows)
    {
      hide Answers, After, Deletable, SeesAll, ShowsAll, Without, WellFormed, Fits, Distinct;
      if table in resources {
        assert Ready(table);
        BulkIs(true, resources[table], db[table], Actor(tenant, role), ids);
        BulkExactly(true, resources[table], db[table], Actor(tenant, role), ids);
        DeleteKeepsValid(resources[table], db[table], ids);
      }
      if table !in resources { return Failure(NotFound); }
      if |ids| == 0 { return Success([]); }
      if faulty(0) { return Failure(Rejected("begin")); }
      assert Ready(table);
      var tx := DeleteEach(dialect, le, db, resources[table], ids, tenant, role, faulty);
      if tx.Failure? { return Failure(tx.error); }
      if faulty(2 * |ids| + 1) { return Failure(Rejected("commit")); }
      db := tx.value.0;
      assert Ready(table);
      assert forall other :: other in resources ==> old(Ready(other));
      res := Success(tx.value.1);
    }

    /** The database/sql store's bulk delete: the reads go past the transaction to the committed
        rows, so a repeated id is found again. */
    method DeleteManyReadingOutside(table: string, ids: seq<string>, tenant: string, role: string, faulty: nat -> bool)
      returns (res: Result<seq<Row>, StoreError>)
      requires Valid()
      modifies this`db
      ensures Valid()
      ensures res.Failure? ==> db == old(db)
      ensures ids == [] && !faulty(0) && !faulty(1) ==> res == Success([]) && db == old(db)
      ensures table !in resources && ids != [] ==> res.Failure?
      ensures table in resources ==>
        var r, t, a := resources[table], old(db)[table], Actor(tenant, role);
        && (res.Success? || NoFault(faulty, ids) ==>
              ManyRows(res) == Answers(false, r, t, a, DoDeleteMany(ids))
              && db == old(db)[table := After(false, r, t, a, DoDeleteMany(ids))])
        && (NoFault(faulty, ids) && !Deletable(false, r, t, ids, a) ==> res == Failure(NotFound))
      ensures table in resources ==>
        var r, t := resources[table], old(db)[table];
        var seen := forall i :: 0 <= i < |ids| ==>
          (ids[i] in t.rows &&
           var owner := Field(t.rows[ids[i]], r.tenantKey);
           r.tenantKey == "" || role == "super_admin" || (!owner.Null? && TextOf(owner) == tenant));
        && (res.Success? ==> seen) && (seen && (forall k: nat :: k <= 2 * |ids| + 1 ==> !faulty(k)) ==> res.Success?)
        && (res.Success? && ids != [] ==>
              forall id ::
                if id in t.rows && id !in ids then id in db[table].rows && db[table].rows[id] == t.rows[id]
                else id !in db[table].rows)
    {
      hide Answers, After, Deletable, SeesAll, ShowsAll, Without, WellFormed, Fits, Distinct;
      if table in resources {
        assert Ready(table);
        BulkIs(false, resources[table], db[table], Actor(tenant, role), ids);
        BulkExactly(false, resources[table], db[table], Actor(tenant, role), ids);
        DeleteKeepsValid(resources[table], db[table], ids);
      }
      if faulty(0) { return Failure(Rejected("begin")); }
      if table !in resources {
        if |ids| > 0 { return Failure(NotFound); }
        if faulty(1) { return Failure(Rejected("commit")); }
        return Success([]);
      }
      assert Ready(table);
      var tx := DeleteEachReadingOutside(dialect, le, db, resources[table], ids, tenant, role, faulty);
      if tx.Failure? { return Failure(tx.error); }
      if faulty(2 * |ids| + 1) { return Failure(Rejected("commit")); }
      if ids == [] {
        WithoutNone(db[table]);
        ShowsNone(resources[table], db[table]);
        assert db[table := db[table]] == db;
      }
      db := tx.value.0;
      assert Ready(table);
      assert forall other :: other in resources ==> old(Ready(other));
      res := Success(tx.value.1);
    }

    /** The database/sql store's delete goes through its bulk delete. */
    method DeleteThroughMany(table: string, id: string, tenant: string, role: string, faulty: nat -> bool)
      returns (res: Result<Row, StoreError>)
      requires Valid()
      modifies this`db
      ensures Valid()
      ensures res.Failure? ==> db == old(db)
      ensures table !in resources ==> res.Failure?
      ensures table in resources ==>
        var r, t, a, op := resources[table], old(db)[table], Actor(tenant, role), DoDelete(id);
        && (res.Success? || NoFault(faulty, [id]) ==>
              OneRow(res) == Answers(dialect.Postgres?, r, t, a, op) &&
                db == old(db)[table := After(dialect.Postgres?, r, t, a, op)])
        && (NoFault(faulty, [id]) && !Sees(r, t, id, tenant, role) ==> res == Failure(NotFound))
      ensures table in resources ==>
        var r, t := resources[table], old(db)[table];
        var seen := id in t.rows &&
          var owner := Field(t.rows[id], r.tenantKey);
          r.tenantKey == "" || role == "super_admin" || (!owner.Null? && TextOf(owner) == tenant);
        && (res.Success? ==> seen) && (seen && (forall k: nat :: k <= 3 ==> !faulty(k)) ==> res.Success?)
        && db == if res.Success? then old(db)[table := t.(rows := t.rows - {id})] else old(db)
    {
      hide Answers, After, Deletable, SeesAll, Without, WellFormed, Fits, Sees;
      if table in resources {
        assert Ready(table);
        BulkIs(false, resources[table], db[table], Actor(tenant, role), [id]);
        OneIs(dialect.Postgres?, resources[table], db[table], Actor(tenant, role), id);
        DeleteExactly(dialect.Postgres?, resources[table], db[table], Actor(tenant, role), id);
      }
      var records := DeleteManyReadingOutside(table, [id], tenant, role, faulty);
      if records.Failure? { return Failure(records.error); }
      if |records.value| == 0 { return Failure(NotFound); }
      res := Success(records.value[0]);
    }

    /** The ordered answer lists exactly the wanted rows, and counts them. */
    lemma AnswerLists(r: ResourceMeta, t: Table, tenant: string, role: string, search: string, sortBy: string,
                      filters: map<string, string>, walk: seq<string>, forms: seq<Clause>, args: seq<Value>,
                      more: seq<Value>, scan: seq<string>)
      returns (ids: seq<string>)
      requires IsScan(scan, t) && IsWalk(walk, filters) && NoneRefused(r, filters)
      requires forms == Forms(dialect.Postgres?, r, role, search, Active(filters, walk)) && WritableClauses(forms)
      requires args == Args(r, tenant, role, search, filters, Active(filters, walk))
      ensures ids == Answer(t, FilterExpr(forms), SortKeys(dialect, r, sortBy), args + more, le, scan)
      ensures |ids| == |Matching(t, FilterExpr(forms), args, le)|
      ensures IsListing(dialect.Postgres?, le, r, t, tenant, role, search, filters, ids)
      ensures TotalPreorder(le) ==> InOrder(ids, SortKeys(dialect, r, sortBy), t.rows, le)
    {
      FormsSelect(dialect.Postgres?, r, tenant, role, search, filters, walk, t, more, le);
      FormsSelect(dialect.Postgres?, r, tenant, role, search, filters, walk, t, [], le);
      assert args + [] == args;
      var filter, sort := FilterExpr(forms), SortKeys(dialect, r, sortBy);
      assert Matching(t, filter, args + more, le) == Matching(t, filter, args, le);
      ids := Answer(t, filter, sort, args + more, le, scan);
      AnswerIsExact(t, filter, sort, args + more, le, scan);
      if TotalPreorder(le) { AnswerInOrder(t, filter, sort, args + more, le, scan); }
    }
  }

  /******* Bulk deletion, one id at a time *******/

  ghost predicate NoFault(faulty: nat -> bool, ids: seq<string>) { forall k: nat :: k <= 2 * |ids| + 1 ==> !faulty(k) }

  lemma WithoutNone(t: Table)
    ensures Without(t, []) == t
  {
    assert Without(t, []).rows == t.rows;
  }

  lemma ShowsNone(r: ResourceMeta, t: Table)
    ensures ShowsAll(r, t, []) == []
  {}

  /** Inside the transaction an id already deleted is no longer seen. */
  lemma WithoutSees(r: ResourceMeta, t: Table, gone: seq<string>, id: string, tenant: string, role: string)
    ensures Sees(r, Without(t, gone), id, tenant, role) <==> Sees(r, t, id, tenant, role) && id !in gone
  {}

  lemma WithoutOneMore(t: Table, ids: seq<string>, i: nat)
    requires i < |ids|
    ensures Without(Without(t, ids[..i]), [ids[i]]) == Without(t, ids[..i + 1])
    ensures ids[i] !in Without(t, ids[..i]).rows ==> Without(t, ids[..i]) == Without(t, ids[..i + 1])
  {
    assert ids[..i + 1] == ids[..i] + [ids[i]];
    assert Without(Without(t, ids[..i]), [ids[i]]).rows == Without(t, ids[..i + 1]).rows;
    if ids[i] !in Without(t, ids[..i]).rows { assert Without(t, ids[..i]).rows == Without(t, ids[..i + 1]).rows; }
  }

  lemma NotDeletable(r: ResourceMeta, t: Table, ids: seq<string>, i: nat, tenant: string, role: string)
    requires i < |ids| && !(Sees(r, t, ids[i], tenant, role) && ids[i] !in ids[..i])
    ensures !(Distinct(ids) && SeesAll(r, t, ids, tenant, role))
  {}

  /** The transaction after deleting the first i ids, all of them seen by the actor. */
  ghost predicate Deleting(db: Tables, r: ResourceMeta, ids: seq<string>, i: nat, tenant: string, role: string,
                           tx: Tables, deleted: seq<Row>)
    requires r.table in db && i <= |ids|
  {
    var t := db[r.table];
    && r.table in tx && tx == db[r.table := Without(t, ids[..i])] && Fits(r, tx[r.table])
    && SeesAll(r, t, ids[..i], tenant, role) && deleted == ShowsAll(r, t, ids[..i])
  }

  lemma DeletingStarts(db: Tables, r: ResourceMeta, ids: seq<string>, tenant: string, role: string)
    requires r.table in db && Fits(r, db[r.table])
    ensures Deleting(db, r, ids, 0, tenant, role, db, [])
  {
    WithoutNone(db[r.table]);
    assert db[r.table := db[r.table]] == db;
  }

  lemma DeletingOneMore(db: Tables, r: ResourceMeta, ids: seq<string>, i: nat, tenant: string, role: string, tx: Tables,
                        deleted: seq<Row>, after: Tables)
    requires r.table in db && i < |ids| && Deleting(db, r, ids, i, tenant, role, tx, deleted)
    requires Sees(r, db[r.table], ids[i], tenant, role)
    requires after == if Sees(r, tx[r.table], ids[i], tenant, role) then
      tx[r.table := Without(tx[r.table], [ids[i]])] else tx
    ensures Deleting(db, r, ids, i + 1, tenant, role, after, deleted + [Shows(r, db[r.table].rows[ids[i]])])
  {
    var t := db[r.table];
    WithoutSees(r, t, ids[..i], ids[i], tenant, role);
    WithoutOneMore(t, ids, i);
    assert ids[..i + 1] == ids[..i] + [ids[i]];
  }

  lemma DeletingEnds(db: Tables, r: ResourceMeta, ids: seq<string>, tenant: string, role: string, tx: Tables,
                     deleted: seq<Row>)
    requires r.table in db && Deleting(db, r, ids, |ids|, tenant, role, tx, deleted)
    ensures tx == db[r.table := Without(db[r.table], ids)] && SeesAll(r, db[r.table], ids, tenant, role)
    ensures deleted == ShowsAll(r, db[r.table], ids)
  {
    assert ids[..|ids|] == ids;
  }

  /** Reads the i-th row inside the transaction: seen there if seen before it and not yet deleted. */
  method ReadInside(d: Dialect, le: Order, ghost db: Tables, r: ResourceMeta, ghost ids: seq<string>, ghost i: nat,
                    id: string, tenant: string, role: string, tx: Tables, ghost deleted: seq<Row>)
    returns (records: seq<Row>)
    requires WellFormed(r) && r.table in db && i < |ids| && id == ids[i]
    requires Deleting(db, r, ids, i, tenant, role, tx, deleted)
    ensures var t := db[r.table];
      records == if Sees(r, t, id, tenant, role) && id !in ids[..i] then [Shows(r, t.rows[id])] else []
  {
    WithoutSees(r, db[r.table], ids[..i], id, tenant, role);
    records := SelectOne(d, le, tx, r, id, tenant, role);
  }

  /** The deletions of one transaction: reads and deletes see what the transaction has done. */
  method DeleteEach(d: Dialect, le: Order, db: Tables, r: ResourceMeta, ids: seq<string>, tenant: string, role: string,
                    faulty: nat -> bool)
    returns (res: Result<(Tables, seq<Row>), StoreError>)
    requires WellFormed(r) && r.table in db && Fits(r, db[r.table])
    ensures var t := db[r.table];
      && (res.Success? ==> Distinct(ids) && SeesAll(r, t, ids, tenant, role)
                           && res.value.1 == ShowsAll(r, t, ids) && res.value.0 == db[r.table := Without(t, ids)])
      && (NoFault(faulty, ids) && Distinct(ids) && SeesAll(r, t, ids, tenant, role) ==> res.Success?)
      && (NoFault(faulty, ids) && !(Distinct(ids) && SeesAll(r, t, ids, tenant, role)) ==> res == Failure(NotFound))
  {
    hide Without, ShowsAll, WellFormed;
    var tx, deleted: seq<Row> := db, [];
    DeletingStarts(db, r, ids, tenant, role);
    for i := 0 to |ids|
      invariant Deleting(db, r, ids, i, tenant, role, tx, deleted) && Distinct(ids[..i])
    {
      if faulty(2 * i + 1) { return Failure(Rejected("query")); }
      var records := ReadInside(d, le, db, r, ids, i, ids[i], tenant, role, tx, deleted);
      if |records| == 0 {
        NotDeletable(r, db[r.table], ids, i, tenant, role);
        return Failure(NotFound);
      }
      if faulty(2 * i + 2) { return Failure(Rejected("exec")); }
      var after := DeleteOne(d, le, tx, r, ids[i], tenant, role);
      DeletingOneMore(db, r, ids, i, tenant, role, tx, deleted, after);
      tx := after;
      deleted := deleted + [records[0]];
    }
    DeletingEnds(db, r, ids, tenant, role, tx, deleted);
    assert ids[..|ids|] == ids;
    res := Success((tx, deleted));
  }

  /** The same with every read going to the committed tables. */
  method DeleteEachReadingOutside(d: Dialect, le: Order, db: Tables, r: ResourceMeta, ids: seq<string>, tenant: string,
                                  role: string, faulty: nat -> bool)
    returns (res: Result<(Tables, seq<Row>), StoreError>)
    requires WellFormed(r) && r.table in db && Fits(r, db[r.table])
    ensures var t := db[r.table];
      && (res.Success? ==> SeesAll(r, t, ids, tenant, role)
                           && res.value.1 == ShowsAll(r, t, ids) && res.value.0 == db[r.table := Without(t, ids)])
      && (NoFault(faulty, ids) && SeesAll(r, t, ids, tenant, role) ==> res.Success?)
      && (NoFault(faulty, ids) && !SeesAll(r, t, ids, tenant, role) ==> res == Failure(NotFound))
  {
    hide Without, ShowsAll, WellFormed;
    var tx, deleted: seq<Row> := db, [];
    DeletingStarts(db, r, ids, tenant, role);
    for i := 0 to |ids|
      invariant Deleting(db, r, ids, i, tenant, role, tx, deleted)
    {
      if faulty(2 * i + 1) { return Failure(Rejected("query")); }
      var records := SelectOne(d, le, db, r, ids[i], tenant, role);
      if |records| == 0 { return Failure(NotFound); }
      if faulty(2 * i + 2) { return Failure(Rejected("exec")); }
      var after := DeleteOne(d, le, tx, r, ids[i], tenant, role);
      DeletingOneMore(db, r, ids, i, tenant, role, tx, deleted, after);
      tx := after;
      deleted := deleted + [records[0]];
    }
    DeletingEnds(db, r, ids, tenant, role, tx, deleted);
    res := Success((tx, deleted));
  }

  /******* Single statements against given tables *******/

  function KeyArgsOf(r: ResourceMeta, role: string, id: string, tenant: string): (args: seq<Value>)
    ensures args == KeyArgs(r, role, id, tenant)
  {
    var args := [Str(id)];
    if r.tenantKey != "" && role != SUPER_ADMIN then args + [Str(tenant)] else args
  }

  method SelectOne(d: Dialect, le: Order, tables: Tables, r: ResourceMeta, id: string, tenant: string, role: string)
    returns (records: seq<Row>)
    requires WellFormed(r) && r.table in tables && Fits(r, tables[r.table])
    ensures records == if Sees(r, tables[r.table], id, tenant, role) then [Shows(r, tables[r.table].rows[id])] else []
  {
    var scan := AnyScan(tables[r.table]);
    var sql := "select " + SelectCols(d, r) + " from " + QuoteIdent(d, r.table) + KeyWhere(d, r, role, 1) + " limit 1";
    SelectOneMeans(d, le, tables, r, id, tenant, role, scan, sql);
    var rows := Query(!d.SQLite?, tables, sql, KeyArgsOf(r, role, id, tenant), le, scan);
    records := ShowsAll(r, tables[r.table], rows.value.0);
  }

  lemma SelectOneMeans(d: Dialect, le: Order, tables: Tables, r: ResourceMeta, id: string, tenant: string, role: string,
                       scan: seq<string>, sql: string)
    requires WellFormed(r) && r.table in tables && Fits(r, tables[r.table]) && IsScan(scan, tables[r.table])
    requires sql == "select " + SelectCols(d, r) + " from " + QuoteIdent(d, r.table) +
      KeyWhere(d, r, role, 1) + " limit 1"
    ensures Query(!d.SQLite?, tables, sql, KeyArgs(r, role, id, tenant), le, scan)
         == Success((if Sees(r, tables[r.table], id, tenant, role) then [id] else [],
                     SqlSyntax.Named(VisibleColumns(r.fields))))
  {
    GetReads(d, r, role, " limit 1");
    KeyAnswer(r, tables[r.table], role, id, tenant, le, scan);
  }

  method DeleteOne(d: Dialect, le: Order, tables: Tables, r: ResourceMeta, id: string, tenant: string, role: string)
    returns (after: Tables)
    requires r.table in tables && Fits(r, tables[r.table])
    ensures after == if Sees(r, tables[r.table], id, tenant, role) then
      tables[r.table := Without(tables[r.table], [id])] else tables
    ensures Fits(r, after[r.table])
  {
    DeleteReads(d, r, role);
    DeleteMeans(r, tables[r.table], role, id, tenant, le);
    var done := Exec(d.Postgres?, tables, "delete from " + QuoteIdent(d, r.table) + KeyWhere(d, r, role, 1),
                     KeyArgsOf(r, role, id, tenant), le);
    assert tables[r.table := tables[r.table]] == tables;
    after := done.value;
  }

  /** Fills in the key, the tenant and the time stamps. */
  method Complete(r: ResourceMeta, tenant: string, input: Row, now: int, freshId: string) returns (full: Row)
    requires WellFormed(r)
    ensures full == Completed(r, tenant, input, now, freshId) && !Missing(full, r.primaryKey)
  {
    full := input;
    if Missing(full, r.primaryKey) { full := full[r.primaryKey := Str(freshId)]; }
    if r.tenantKey != "" { full := full[r.tenantKey := Str(tenant)]; }
    if HasColumn(r, "created_at") && Missing(full, "created_at") { full := full["created_at" := Int(now)]; }
    if HasColumn(r, "updated_at") && Missing(full, "updated_at") { full := full["updated_at" := Int(now)]; }
  }

  lemma UpdateKeepsScope(r: ResourceMeta, row: Row, tenant: string, role: string, input: Row, hash: Hasher, now: int)
    requires WellFormed(r)
    ensures InScope(r, UpdatedRow(r, row, input, hash, now), tenant, role) <==> InScope(r, row, tenant, role)
  {}

  /** Lists the insertable fields of a completed input with their arguments, and inserts them. */
  method InsertOne(d: Dialect, le: Order, tables: Tables, r: ResourceMeta, input: Row, hash: Hasher, hashFails: bool,
                   execFails: bool)
    returns (after: Result<Tables, string>)
    requires WellFormed(r) && r.table in tables && Fits(r, tables[r.table]) && !Missing(input, r.primaryKey)
    ensures var t, id := tables[r.table], TextOf(input[r.primaryKey]);
      if execFails || (hashFails && HashesInserted(r, input)) || id in t.rows then after.Failure?
      else after == Success(tables[r.table := t.(rows := t.rows[id := NewRow(r, t, input, hash)])])
  {
    var hashed, cols, marks, args := InsertParts(d, r, input, hash, hashFails);
    if !hashed { return Failure("hash"); }
    if execFails { return Failure("exec"); }
    InsertMeans(r, tables[r.table], input, hash);
    ghost var w := Inserted(r, r.fields, input);
    InsertReads(d, r.table, cols, seq(|w|, i requires 0 <= i < |w| => w[i].sqlName), marks);
    after := Exec(d.Postgres?, tables,
                  "insert into " + QuoteIdent(d, r.table) + " (" + Join(cols, ", ") + ") values (" +
                  Join(marks, ", ") + ")", args, le);
  }

  lemma StoredOneMore(w: seq<FieldMeta>, f: FieldMeta, input: Row, hash: Hasher)
    requires (forall i :: 0 <= i < |w| ==> w[i].sqlName in input) && f.sqlName in input
    ensures StoredArgs(w + [f], input, hash) == StoredArgs(w, input, hash) + [Stored(f, input[f.sqlName], hash)]
  {
    hide Stored;
  }

  /** Columns, marks and arguments of the fields w, in step. */
  ghost predicate InStep(d: Dialect, w: seq<FieldMeta>, input: Row, hash: Hasher, cols: seq<string>, marks: seq<string>,
                         args: seq<Value>)
  {
    && HasAll(input, w) && |cols| == |marks| == |w| && args == StoredArgs(w, input, hash)
    && forall i :: 0 <= i < |w| ==> cols[i] == QuoteIdent(d, w[i].sqlName) && marks[i] == Placeholder(d, i + 1)
  }

  lemma InStepMore(d: Dialect, w: seq<FieldMeta>, input: Row, hash: Hasher, cols: seq<string>, marks: seq<string>,
                   args: seq<Value>, f: FieldMeta)
    requires InStep(d, w, input, hash, cols, marks, args) && f.sqlName in input
    ensures InStep(d, w + [f], input, hash, cols + [QuoteIdent(d, f.sqlName)], marks + [Placeholder(d, |args| + 1)],
                   args + [if f.password then Str(hash(f.sqlName, Sprint(input[f.sqlName]))) else input[f.sqlName]])
  {
    hide QuoteIdent, Placeholder;
    StoredOneMore(w, f, input, hash);
  }

  /** The fields before the k-th are listed, and none of them is a password when hashing fails. */
  ghost predicate ListedTo(r: ResourceMeta, k: nat, input: Row, hashFails: bool)
    requires k <= |r.fields|
  {
    forall i :: 0 <= i < k && hashFails && r.fields[i].password ==> !Insertable(r, r.fields[i], input)
  }

  lemma InsertedMore(r: ResourceMeta, k: nat, input: Row, hashFails: bool)
    requires k < |r.fields| && ListedTo(r, k, input, hashFails)
    ensures var f, w := r.fields[k], Inserted(r, r.fields[..k], input);
      if (f.hidden && f.sqlName != r.tenantKey) || f.sqlName !in input
      then Inserted(r, r.fields[..k + 1], input) == w && ListedTo(r, k + 1, input, hashFails)
      else
        && Inserted(r, r.fields[..k + 1], input) == w + [f]
        && if hashFails && f.password then HashesInserted(r, input) else ListedTo(r, k + 1, input, hashFails)
  {
    assert r.fields[..k + 1][..k] == r.fields[..k];
  }

  lemma ListedAll(r: ResourceMeta, input: Row, hashFails: bool)
    requires ListedTo(r, |r.fields|, input, hashFails)
    ensures !(hashFails && HashesInserted(r, input)) && r.fields[..|r.fields|] == r.fields
  {}

  lemma NothingListed(d: Dialect, r: ResourceMeta, input: Row, hash: Hasher, hashFails: bool)
    ensures InStep(d, Inserted(r, r.fields[..0], input), input, hash, [], [], []) && ListedTo(r, 0, input, hashFails)
  {}

  /** Stops at the first password when hashing fails. */
  method InsertParts(d: Dialect, r: ResourceMeta, input: Row, hash: Hasher, hashFails: bool)
    returns (hashed: bool, cols: seq<string>, marks: seq<string>, args: seq<Value>)
    ensures hashed <==> !(hashFails && HashesInserted(r, input))
    ensures hashed ==> InStep(d, Inserted(r, r.fields, input), input, hash, cols, marks, args)
  {
    hide *;
    cols, marks, args := [], [], [];
    NothingListed(d, r, input, hash, hashFails);
    for k := 0 to |r.fields|
      invariant ListedTo(r, k, input, hashFails)
      invariant InStep(d, Inserted(r, r.fields[..k], input), input, hash, cols, marks, args)
    {
      var field := r.fields[k];
      InsertedMore(r, k, input, hashFails);
      if field.hidden && field.sqlName != r.tenantKey { continue; }
      if field.sqlName !in input { continue; }
      var value := input[field.sqlName];
      if field.password {
        if hashFails { return false, [], [], []; }
        value := Str(hash(field.sqlName, Sprint(value)));
      }
      InStepMore(d, Inserted(r, r.fields[..k], input), input, hash, cols, marks, args, field);
      cols := cols + [QuoteIdent(d, field.sqlName)];
      marks := marks + [Placeholder(d, |args| + 1)];
      args := args + [value];
    }
    ListedAll(r, input, hashFails);
    hashed := true;
  }

  /** Assigns the written fields and the stamp to the row the actor sees, if there are any. */
  method UpdateOne(d: Dialect, le: Order, tables: Tables, r: ResourceMeta, id: string, tenant: string, role: string,
                   input: Row, now: int, hash: Hasher, hashFails: bool, execFails: bool)
    returns (assigns: bool, after: Result<Tables, string>)
    requires WellFormed(r) && r.table in tables && Fits(r, tables[r.table])
    requires Sees(r, tables[r.table], id, tenant, role)
    ensures after.Success? ==> (assigns <==> UpdateSets(r, input) != []) && (!assigns ==> after.value == tables)
    ensures after.Failure? <==> (|| (hashFails && HashesWritten(r, input)) || (execFails && UpdateSets(r, input) != [])
                                 || (d.Postgres? && StampClash(r, input)))
    ensures var t := tables[r.table];
      after.Success? ==>
        after.value == tables[r.table := t.(rows := t.rows[id := UpdatedRow(r, t.rows[id], input, hash, now)])]
  {
    assigns := true;
    var hashed, assignments, args := UpdateParts(d, r, input, hash, now, hashFails);
    if !hashed { return false, Failure("hash"); }
    ghost var sets := UpdateSets(r, input);
    if |assignments| == 0 {
      NothingWritten(r, tables[r.table], id, input, hash, now);
      assert tables[r.table := tables[r.table]] == tables;
      return false, Success(tables);
    }
    if execFails { return true, Failure("exec"); }
    var sql := "update " + QuoteIdent(d, r.table) + " set " + Join(assignments, ", ") +
      KeyWhere(d, r, role, |args| + 1);
    UpdateReads(d, r, role, assignments, sets, id, tenant);
    UpdateOneMeans(d, le, tables, r, id, tenant, role, input, now, hash, sql);
    after := Exec(d.Postgres?, tables, sql, args + KeyArgsOf(r, role, id, tenant), le);
  }

  lemma UpdateOneMeans(d: Dialect, le: Order, tables: Tables, r: ResourceMeta, id: string, tenant: string, role: string,
                       input: Row, now: int, hash: Hasher, sql: string)
    requires WellFormed(r) && r.table in tables && Fits(r, tables[r.table])
    requires Sees(r, tables[r.table], id, tenant, role)
    requires WritableClauses(KeyForms(r, role, |UpdateArgs(r, input, hash, now)| + 1))
    requires ReadText(sql) ==
      Some(Update(r.table, UpdateSets(r, input), FilterExpr(KeyForms(r, role, |UpdateArgs(r, input, hash, now)| + 1))))
    ensures var t, after := tables[r.table],
      Exec(d.Postgres?, tables, sql, UpdateArgs(r, input, hash, now) + KeyArgs(r, role, id, tenant), le);
      if d.Postgres? && StampClash(r, input) then after.Failure?
      else after == Success(tables[r.table := t.(rows := t.rows[id := UpdatedRow(r, t.rows[id], input, hash, now)])])
  {
    UpdateMeans(d.Postgres?, r, tables[r.table], input, hash, now, role, id, tenant, le);
  }

  method UpdateParts(d: Dialect, r: ResourceMeta, input: Row, hash: Hasher, now: int, hashFails: bool)
    returns (hashed: bool, assignments: seq<string>, args: seq<Value>)
    ensures hashed <==> !(hashFails && HashesWritten(r, input))
    ensures hashed ==> args == UpdateArgs(r, input, hash, now)
    ensures var sets := UpdateSets(r, input);
      hashed ==>
        |assignments| == |sets| == |args| && SetsArgs(sets) == Upto(1, |sets|)
        && forall i :: 0 <= i < |sets| ==> assignments[i] == EqualsText(d, sets[i].0, sets[i].1)
  {
    hide QuoteIdent, Placeholder, Stored, Written, SetsArgs, Upto, HashesWritten;
    hashed, assignments, args := WrittenParts(d, r, input, hash, hashFails);
    if !hashed { return; }
    if HasColumn(r, "updated_at") {
      args := args + [Int(now)];
      assignments := assignments + [EqualsText(d, "updated_at", |args|)];
    }
    SetsCount(r, input);
  }

  lemma SetsCount(r: ResourceMeta, input: Row)
    ensures SetsArgs(UpdateSets(r, input)) == Upto(1, |UpdateSets(r, input)|)
    ensures forall i :: 0 <= i < |UpdateSets(r, input)| ==> UpdateSets(r, input)[i].1 == i + 1
  {}

  method WrittenParts(d: Dialect, r: ResourceMeta, input: Row, hash: Hasher, hashFails: bool)
    returns (hashed: bool, assignments: seq<string>, args: seq<Value>)
    ensures hashed <==> !(hashFails && HashesWritten(r, input))
    ensures var w := Written(r, r.fields, input);
      hashed ==>
        |assignments| == |w| && args == StoredArgs(w, input, hash)
        && forall i :: 0 <= i < |w| ==> assignments[i] == EqualsText(d, w[i].sqlName, i + 1)
  {
    hide EqualsText;
    assignments, args := [], [];
    for k := 0 to |r.fields|
      invariant forall i :: 0 <= i < k && hashFails && r.fields[i].password ==> !Writes(r, r.fields[i], input)
      invariant var w := Written(r, r.fields[..k], input);
        |assignments| == |w| && args == StoredArgs(w, input, hash)
        && forall i :: 0 <= i < |w| ==> assignments[i] == EqualsText(d, w[i].sqlName, i + 1)
    {
      var field := r.fields[k];
      assert r.fields[..k + 1][..k] == r.fields[..k];
      ghost var w := Written(r, r.fields[..k], input);
      if field.readonly || field.hidden || field.sqlName == r.primaryKey || field.sqlName == r.tenantKey { continue; }
      if field.sqlName !in input { continue; }
      var value := input[field.sqlName];
      if field.password {
        if hashFails { return false, [], []; }
        value := Str(hash(field.sqlName, Sprint(value)));
      }
      StoredOneMore(w, field, input, hash);
      args := args + [value];
      assignments := assignments + [EqualsText(d, field.sqlName, |args|)];
    }
    assert r.fields[..|r.fields|] == r.fields;
    hashed := true;
  }

  lemma NothingWritten(r: ResourceMeta, t: Table, id: string, input: Row, hash: Hasher, now: int)
    requires WellFormed(r) && id in t.rows && UpdateSets(r, input) == []
    ensures !StampClash(r, input) && t.(rows := t.rows[id := UpdatedRow(r, t.rows[id], input, hash, now)]) == t
  {
    WrittenAre(r, r.fields, input);
    assert Written(r, r.fields, input) == [];
    forall c | c in t.rows[id] ensures UpdatedRow(r, t.rows[id], input, hash, now)[c] == t.rows[id][c] {
      var f := FieldBySQLName(r.fields, c);
      if f.Some? { assert f.value !in Written(r, r.fields, input); }
    }
    assert UpdatedRow(r, t.rows[id], input, hash, now) == t.rows[id];
  }

  lemma ListReads(d: Dialect, r: ResourceMeta, where: string, forms: seq<Clause>, sortBy: string, n: nat, limit: string,
                  offset: string)
    requires VisibleColumns(r.fields) != [] && SpellsFilter(d, where, forms) && WritableClauses(forms)
    requires ClausesArgs(forms) == Upto(1, n)
    requires limit == " limit " && offset == " offset "
    ensures ReadText("select " + SelectCols(d, r) + " from " + QuoteIdent(d, r.table) + where +
                     OrderClause(d, r, sortBy)
                     + (limit + Placeholder(d, n + 1) + offset + Placeholder(d, n + 2)))
         == Some(Select(SqlSyntax.Named(VisibleColumns(r.fields)), r.table, FilterExpr(forms), SortKeys(d, r, sortBy),
                        Limit.Window(n + 1, n + 2)))
  {
    SpellsWindow(d, n + 1, n + 2, limit, offset);
    SpellsOrderClause(d, r, sortBy);
    SpellsSelectCols(d, r);
    WindowArgs(n);
    SelectReads(d, SelectCols(d, r), SqlSyntax.Named(VisibleColumns(r.fields)), r.table, where, forms,
                OrderClause(d, r, sortBy),
                SortKeys(d, r, sortBy), limit + Placeholder(d, n + 1) + offset + Placeholder(d, n + 2),
                  Limit.Window(n + 1, n + 2));
  }

  lemma SliceOfAnswer(t: Table, filter: Option<Expr>, keys: seq<OrderKey>, args: seq<Value>, le: Order,
                      scan: seq<string>, o: int, l: int)
    ensures var s := Slice(Answer(t, filter, keys, args, le, scan), o, l); forall i :: 0 <= i < |s| ==> s[i] in t.rows
  {
    var s := Slice(Answer(t, filter, keys, args, le, scan), o, l);
    forall i | 0 <= i < |s| ensures s[i] in t.rows { assert s[i] in Answer(t, filter, keys, args, le, scan); }
  }

  lemma QueryIs(strict: bool, db: Tables, text: string, columns: Columns, table: string, filter: Option<Expr>,
                keys: seq<OrderKey>, given: seq<Value>, limit: int, offset: int, le: Order, scan: seq<string>)
    requires ReadText(text) == Some(Select(columns, table, filter, keys, Limit.Window(|given| + 1, |given| + 2)))
    requires table in db && IsScan(scan, db[table])
    ensures var args := given + [Int(limit), Int(offset)];
      Query(strict, db, text, args, le, scan) ==
        if strict && offset < 0 then Failure("negative offset")
        else Success((Slice(Answer(db[table], filter, keys, args, le, scan), offset, limit), columns))
  {
    hide Answer, ReadText, Slice, IsScan;
    var args := given + [Int(limit), Int(offset)];
    assert IntArg(args, |given| + 1) == limit && IntArg(args, |given| + 2) == offset;
  }

  /** The compiled clauses match exactly the wanted rows, with or without limit and offset bound. */
  lemma FormsSelect(pg: bool, r: ResourceMeta, tenant: string, role: string, search: string,
                    filters: map<string, string>, order: seq<string>, t: Table, more: seq<Value>, le: Order)
    requires IsWalk(order, filters) && NoneRefused(r, filters)
    ensures var keys := Active(filters, order);
      WritableClauses(Forms(pg, r, role, search, keys)) &&
      forall id :: id in Matching(t, FilterExpr(Forms(pg, r, role, search, keys)),
                                  Args(r, tenant, role, search, filters, keys) + more, le)
        <==> id in t.rows && Wanted(pg, r, tenant, role, search, filters, t.rows[id], le)
  {
    FormsMean(pg, r, tenant, role, search, filters, order, more, map[], le);
    forall id | id in t.rows { FormsMean(pg, r, tenant, role, search, filters, order, more, t.rows[id], le); }
  }
}
