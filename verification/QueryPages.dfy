/** Select and count statements of the query builder, and paging: since the order is total on
    rows with a unique key, pages fetched by separate queries make up the whole answer. */
module QueryPages {
  import opened Wrappers
  import opened SqlLexer
  import opened SqlSyntax
  import opened SqlText
  import opened SqlMeaning
  import opened QueryBuilder
  import Pagination
  import QueryFilters

  predicate OrderCompiles(b: Builder, q: QueryFilters.Query) {
    forall i :: 0 <= i < |q.sorts| ==> SortCompiles(b, q.sorts[i])
  }

  /******* Statements *******/

  method Select(b: Builder, q: QueryFilters.Query, tenant: string)
    returns (res: Result<(string, seq<Value>), string>, ghost walk: seq<string>)
    ensures res.Success? <==> ValidIdentifier(b.table) && Compiles(b, q) && OrderCompiles(b, q)
    ensures res.Success? ==> IsWalk(walk, b) && IsSelect(b, q, tenant, walk, res.value.0, res.value.1)
  {
    walk := [];
    if !ValidIdentifier(b.table) { return Failure("unsafe identifier"), walk; }
    var where;
    where, walk := Where(b, q, tenant);
    if where.Failure? { return Failure(where.error), walk; }
    var order := OrderBy(b, q.sorts);
    if order.Failure? { return Failure(order.error), walk; }
    var args := where.value.1;
    var limitArg, offsetArg := |args| + 1, |args| + 2;
    var window := " limit " + Placeholder(Postgres, limitArg) + " offset " + Placeholder(Postgres, offsetArg);
    SelectReads(b, q, tenant, walk, where.value.0, order.value, |args|, " limit ", " offset ");
    res := Success(("select * from " + QuoteIdent(Postgres, b.table) + where.value.0 + order.value + window,
                    args + [Int(q.page.limit), Int(q.page.offset)]));
  }

  method Count(b: Builder, q: QueryFilters.Query, tenant: string)
    returns (res: Result<(string, seq<Value>), string>, ghost walk: seq<string>)
    ensures res.Success? <==> ValidIdentifier(b.table) && Compiles(b, q)
    ensures res.Success? ==> IsWalk(walk, b) && IsCount(b, q, tenant, walk, res.value.0, res.value.1)
  {
    walk := [];
    if !ValidIdentifier(b.table) { return Failure("unsafe identifier"), walk; }
    var where;
    where, walk := Where(b, q, tenant);
    if where.Failure? { return Failure(where.error), walk; }
    CountReads(b, q, tenant, walk, where.value.0, "select count(*) from ");
    res := Success(("select count(*) from " + QuoteIdent(Postgres, b.table) + where.value.0, where.value.1));
  }

  /** What a select text of the builder reads as, and its arguments. */
  ghost predicate IsSelect(b: Builder, q: QueryFilters.Query, tenant: string, walk: seq<string>, text: string,
                           args: seq<Value>)
  {
    var columns := SearchColumns(b, walk);
    var given := Args(b, q, tenant, columns);
    && WritableClauses(Forms(b, q, columns))
    && ReadText(text) == Some(Stmt.Select(Star, b.table, FilterExpr(Forms(b, q, columns)), OrderKeys(b, q.sorts),
                                          Window(|given| + 1, |given| + 2)))
    && args == given + [Int(q.page.limit), Int(q.page.offset)]
  }

  ghost predicate IsCount(b: Builder, q: QueryFilters.Query, tenant: string, walk: seq<string>, text: string,
                          args: seq<Value>)
  {
    var columns := SearchColumns(b, walk);
    && WritableClauses(Forms(b, q, columns))
    && ReadText(text) == Some(Stmt.Count(b.table, FilterExpr(Forms(b, q, columns))))
    && args == Args(b, q, tenant, columns)
  }

  lemma SpellsSelectStar(table: string, select: string, star: string, from: string, head: string)
    requires select == "select " && star == "*" && from == " from " && head == select + star + from
    ensures Spells(Postgres, head + QuoteIdent(Postgres, table),
                   [Word("select")] + [Sym("*")] + [Word("from"), Name(table)])
  {
    SpellsLead(Postgres, "select", select);
    SpellsSymbol(Postgres, '*');
    SpellsHead(Postgres, "from", from);
    SpellsName(Postgres, table);
    SpellsThree(Postgres, select, [Word("select")], star, [Sym("*")], from, [Word("from")]);
    SpellsConcat(Postgres, head, [Word("select")] + [Sym("*")] + [Word("from")],
                 QuoteIdent(Postgres, table), [Name(table)]);
    assert [Word("select")] + [Sym("*")] + [Word("from")] + [Name(table)] ==
      [Word("select")] + [Sym("*")] + [Word("from"), Name(table)];
  }

  lemma SelectStarReads(table: string, where: string, cs: seq<Clause>, order: string, keys: seq<OrderKey>,
                        window: string, n: nat)
    requires SpellsFilter(Postgres, where, cs) && SpellsOrder(Postgres, order, keys)
    requires SpellsLimit(Postgres, window, Window(n + 1, n + 2))
    requires WritableClauses(cs) && ClausesArgs(cs) == Upto(1, n)
    ensures ReadText("select * from " + QuoteIdent(Postgres, table) + where + order + window)
         == Some(Stmt.Select(Star, table, FilterExpr(cs), keys, Window(n + 1, n + 2)))
  {
    var head, l := "select * from " + QuoteIdent(Postgres, table), Window(n + 1, n + 2);
    SpellsSelectStar(table, "select ", "*", " from ", "select * from ");
    SpellsTail(Postgres, head, [Word("select")] + [Sym("*")] + [Word("from"), Name(table)], where, cs,
               order, keys, window, l);
    StarNumbers(table, cs, keys, n);
    ReadsAs(Postgres, head + where + order + window, SelectTokens(true, Star, table, cs, keys, l), Upto(1, n + 2));
    ReadWrittenSelect(true, Star, table, cs, keys, l);
  }

  lemma StarNumbers(table: string, cs: seq<Clause>, keys: seq<OrderKey>, n: nat)
    requires WritableClauses(cs) && ClausesArgs(cs) == Upto(1, n)
    ensures Numbers(SelectTokens(true, Star, table, cs, keys, Window(n + 1, n + 2)), Upto(1, n + 2))
  {
    SelectNumbers(true, Star, table, cs, keys, Window(n + 1, n + 2));
    WindowArgs(n);
  }

  lemma SelectReads(b: Builder, q: QueryFilters.Query, tenant: string, walk: seq<string>, where: string, order: string,
                    n: nat, limit: string, offset: string)
    requires var columns := SearchColumns(b, walk);
      SpellsFilter(Postgres, where, Forms(b, q, columns)) && n == |Args(b, q, tenant, columns)|
    requires SpellsOrder(Postgres, order, OrderKeys(b, q.sorts)) && limit == " limit " && offset == " offset "
    ensures var columns := SearchColumns(b, walk);
      WritableClauses(Forms(b, q, columns)) &&
      ReadText("select * from " + QuoteIdent(Postgres, b.table) + where + order
               + (limit + Placeholder(Postgres, n + 1) + offset + Placeholder(Postgres, n + 2)))
        == Some(Stmt.Select(Star, b.table, FilterExpr(Forms(b, q, columns)), OrderKeys(b, q.sorts),
                            Window(n + 1, n + 2)))
  {
    PlaceholdersCount(b, q, tenant, SearchColumns(b, walk));
    SpellsWindow(Postgres, n + 1, n + 2, limit, offset);
    SelectStarReads(b.table, where, Forms(b, q, SearchColumns(b, walk)), order, OrderKeys(b, q.sorts),
                    limit + Placeholder(Postgres, n + 1) + offset + Placeholder(Postgres, n + 2), n);
  }

  lemma CountReads(b: Builder, q: QueryFilters.Query, tenant: string, walk: seq<string>, where: string, head: string)
    requires SpellsFilter(Postgres, where, Forms(b, q, SearchColumns(b, walk))) && head == "select count(*) from "
    ensures var columns := SearchColumns(b, walk);
      WritableClauses(Forms(b, q, columns)) &&
      ReadText(head + QuoteIdent(Postgres, b.table) + where) ==
        Some(Stmt.Count(b.table, FilterExpr(Forms(b, q, columns))))
  {
    PlaceholdersCount(b, q, tenant, SearchColumns(b, walk));
    CountStatementReads(Postgres, b.table, where, Forms(b, q, SearchColumns(b, walk)), head);
  }

  /** Every query the parser accepts compiles over a builder with valid identifiers. */
  lemma ParsedCompiles(b: Builder, q: QueryFilters.Query)
    requires QueryFilters.Admissible(b.allowed, q)
    requires ValidIdentifier(b.table) && (b.tenantColumn != "" ==> ValidIdentifier(b.tenantColumn))
    requires forall k :: k in b.allowed ==> ValidIdentifier(ColumnOf(b.allowed[k]))
    ensures Compiles(b, q) && OrderCompiles(b, q)
  {
    forall i | 0 <= i < |q.filters|
      ensures FilterCompiles(b, q.filters[i])
    {
      assert QueryFilters.FilterAllowed(b.allowed, q.filters[i]);
    }
    forall i | 0 <= i < |q.sorts|
      ensures SortCompiles(b, q.sorts[i])
    {
      assert QueryFilters.SortAllowed(b.allowed, q.sorts[i]);
    }
  }

  /******* The order is total *******/

  /** No two rows share a primary key in the database's order. */
  ghost predicate UniqueKey(t: Table, pk: string, le: Order) {
    forall a, b :: a in t.rows && b in t.rows && a != b ==>
      !(le(Field(t.rows[a], pk), Field(t.rows[b], pk)) && le(Field(t.rows[b], pk), Field(t.rows[a], pk)))
  }

  /** With the key among the order keys, any two rows are strictly ordered. */
  lemma {:induction false} KeyDecides(keys: seq<OrderKey>, t: Table, pk: string, a: string, b: string, le: Order)
    requires TotalPreorder(le) && UniqueKey(t, pk, le) && a in t.rows && b in t.rows && a != b
    requires exists i :: 0 <= i < |keys| && keys[i].column == pk
    ensures Before(keys, t.rows[a], t.rows[b], le) || Before(keys, t.rows[b], t.rows[a], le)
  {
    var i :| 0 <= i < |keys| && keys[i].column == pk;
    if i > 0 {
      assert keys[1..][i - 1].column == pk;
      KeyDecides(keys[1..], t, pk, a, b, le);
    }
  }

  lemma KeyIsOrdered(b: Builder, sorts: seq<QueryFilters.Sort>)
    requires ValidIdentifier(b.primaryKey)
    ensures exists i :: 0 <= i < |OrderKeys(b, sorts)| && OrderKeys(b, sorts)[i].column == b.primaryKey
  {
    var keys := SortKeys(b, sorts);
    if HasColumn(keys, b.primaryKey) {
      var i :| 0 <= i < |keys| && keys[i].column == b.primaryKey;
      assert OrderKeys(b, sorts)[i].column == b.primaryKey;
    } else {
      assert OrderKeys(b, sorts)[|keys|].column == b.primaryKey;
    }
  }

  /** There is only one way to put the same rows in order. */
  lemma OneOrder(x: seq<string>, y: seq<string>, keys: seq<OrderKey>, t: Table, pk: string, le: Order)
    requires TotalPreorder(le) && UniqueKey(t, pk, le) && exists i :: 0 <= i < |keys| && keys[i].column == pk
    requires Distinct(x) && Distinct(y) && forall id :: id in x <==> id in y
    requires (forall i :: 0 <= i < |x| ==> x[i] in t.rows) && (forall i :: 0 <= i < |y| ==> y[i] in t.rows)
    requires InOrder(x, keys, t.rows, le) && InOrder(y, keys, t.rows, le)
    ensures x == y
  {
    forall a, b | a in t.rows && b in t.rows && a != b
      ensures Before(keys, t.rows[a], t.rows[b], le) || Before(keys, t.rows[b], t.rows[a], le)
    {
      KeyDecides(keys, t, pk, a, b, le);
    }
    assert t.rows.Keys <= t.rows.Keys && Decides(t.rows.Keys, keys, t.rows, le);
    OneSorted(x, y, keys, t.rows, le, t.rows.Keys);
  }

  /** When a query compiles: table, tenant column and every column used are identifiers of letters, digits
      and underscores, and its sorts and filters name fields that may be sorted and filtered. */
  lemma CompilesExactly(b: Builder, q: QueryFilters.Query)
    ensures forall s: string :: ValidIdentifier(s) <==>
      s != "" && forall i :: 0 <= i < |s| ==>
        'a' <= s[i] <= 'z' || 'A' <= s[i] <= 'Z' || '0' <= s[i] <= '9' || s[i] == '_'
    ensures Compiles(b, q) && OrderCompiles(b, q) <==>
      (&& (b.tenantColumn != "" ==> ValidIdentifier(b.tenantColumn))
       && (q.search != "" ==>
             forall k :: k in b.allowed && b.allowed[k].searchable ==>
               ValidIdentifier(if b.allowed[k].column == "" then b.allowed[k].name else b.allowed[k].column))
       && (forall i :: 0 <= i < |q.filters| ==>
             && q.filters[i].field in b.allowed && b.allowed[q.filters[i].field].filterable
             && var f := b.allowed[q.filters[i].field]; ValidIdentifier(if f.column == "" then f.name else f.column))
       && forall i :: 0 <= i < |q.sorts| ==>
            && q.sorts[i].field in b.allowed && b.allowed[q.sorts[i].field].sortable
            && var f := b.allowed[q.sorts[i].field]; ValidIdentifier(if f.column == "" then f.name else f.column))
  {}

  /** Two rows in order: where they tie in the sorts before the k-th, the k-th does not put them the other way
      round, downwards where it is descending; where they tie in all, the primary key does not. */
  lemma SortsExactly(b: Builder, q: QueryFilters.Query, ids: seq<string>, rows: map<string, Row>, le: Order, i: nat,
                     j: nat, k: nat)
    requires TotalPreorder(le) && OrderCompiles(b, q) && (forall m :: 0 <= m < |ids| ==> ids[m] in rows)
    requires InOrder(ids, OrderKeys(b, q.sorts), rows, le) && i < j < |ids| && k <= |q.sorts|
    requires forall m :: 0 <= m < k ==>
      var f := b.allowed[q.sorts[m].field];
      var c := if f.column == "" then f.name else f.column;
      le(Field(rows[ids[i]], c), Field(rows[ids[j]], c)) && le(Field(rows[ids[j]], c), Field(rows[ids[i]], c))
    ensures k < |q.sorts| ==>
      var f := b.allowed[q.sorts[k].field];
      var c := if f.column == "" then f.name else f.column;
      var x, y := Field(rows[ids[i]], c), Field(rows[ids[j]], c);
      if q.sorts[k].desc then le(y, x) else le(x, y)
    ensures k == |q.sorts| && ValidIdentifier(b.primaryKey) ==>
      le(Field(rows[ids[i]], b.primaryKey), Field(rows[ids[j]], b.primaryKey))
  {
    hide Before, TotalPreorder, IsIdentifierChar;
    var keys, own := OrderKeys(b, q.sorts), SortKeys(b, q.sorts);
    assert forall m :: 0 <= m < |q.sorts| ==> SortCompiles(b, q.sorts[m]) && keys[m] == own[m];
    if k < |q.sorts| {
      OrderMeans(keys, rows[ids[i]], rows[ids[j]], le, k);
    } else if ValidIdentifier(b.primaryKey) && !HasColumn(own, b.primaryKey) {
      OrderMeans(keys, rows[ids[i]], rows[ids[j]], le, k);
    } else if ValidIdentifier(b.primaryKey) {
      var m :| 0 <= m < |own| && own[m].column == b.primaryKey;
      assert SortCompiles(b, q.sorts[m]);
    }
  }

  /******* Pages *******/

  /** The rows of page p, as one query with its own walk of the fields and its own scan finds them. */
  function PageRows(b: Builder, q: QueryFilters.Query, tenant: string, t: Table, le: Order, walk: seq<string>,
                    scan: seq<string>, p: int, n: int): seq<string>
  {
    var columns := SearchColumns(b, walk);
    var args := Args(b, q, tenant, columns) + [Int(n), Int((p - 1) * n)];
    PlaceholdersCount(b, q, tenant, columns);
    Slice(Answer(t, FilterExpr(Forms(b, q, columns)), OrderKeys(b, q.sorts), args, le, scan), (p - 1) * n, n)
  }

  /** Running the select text of a query for page p of n rows finds that page; an offset that wrapped
      around below zero is refused. */
  lemma SelectRuns(b: Builder, q: QueryFilters.Query, tenant: string, db: Tables, le: Order, walk: seq<string>,
                   scan: seq<string>, text: string, args: seq<Value>, p: int)
    requires b.table in db && IsScan(scan, db[b.table]) && IsSelect(b, q, tenant, walk, text, args)
    requires q.page.offset == (p - 1) * q.page.limit
    ensures Query(true, db, text, args, le, scan) ==
      if q.page.offset < 0 then Failure("negative offset")
      else Success((PageRows(b, q, tenant, db[b.table], le, walk, scan, p, q.page.limit), Star))
  {
    hide Answer, Forms, FilterExpr;
    var given := Args(b, q, tenant, SearchColumns(b, walk));
    assert IntArg(args, |given| + 1) == q.page.limit && IntArg(args, |given| + 2) == q.page.offset;
  }

  ghost function AskedIds(b: Builder, q: QueryFilters.Query, tenant: string, t: Table, le: Order): set<string> {
    set id | id in t.rows && Asked(b, q, tenant, t.rows[id], le)
  }

  lemma MatchesAsked(b: Builder, q: QueryFilters.Query, tenant: string, t: Table, le: Order, walk: seq<string>,
                     more: seq<Value>)
    requires IsWalk(walk, b)
    ensures var columns := SearchColumns(b, walk);
      WritableClauses(Forms(b, q, columns))
      && Matching(t, FilterExpr(Forms(b, q, columns)), Args(b, q, tenant, columns) + more, le) ==
        AskedIds(b, q, tenant, t, le)
  {
    FormsMean(b, q, tenant, walk, more, map[], le);
    forall id | id in t.rows { FormsMean(b, q, tenant, walk, more, t.rows[id], le); }
  }

  /** Whatever page a select text asks for, it answers only rows asked for, none of them twice. */
  lemma AnsweredAsked(b: Builder, q: QueryFilters.Query, tenant: string, db: Tables, le: Order, walk: seq<string>,
                      scan: seq<string>, text: string, args: seq<Value>)
    requires b.table in db && IsWalk(walk, b) && IsScan(scan, db[b.table]) && IsSelect(b, q, tenant, walk, text, args)
    requires Query(true, db, text, args, le, scan).Success?
    ensures var answered, t := Query(true, db, text, args, le, scan).value.0, db[b.table];
      Distinct(answered) && forall i :: 0 <= i < |answered| ==>
        answered[i] in t.rows && Asked(b, q, tenant, t.rows[answered[i]], le)
  {
    hide Answer, Forms, FilterExpr, Asked, IsWalk, IsScan;
    var t, given := db[b.table], Args(b, q, tenant, SearchColumns(b, walk));
    var filter, keys := FilterExpr(Forms(b, q, SearchColumns(b, walk))), OrderKeys(b, q.sorts);
    MatchesAsked(b, q, tenant, t, le, walk, [Int(q.page.limit), Int(q.page.offset)]);
    AnswerIsExact(t, filter, keys, args, le, scan);
  }

  /** The count statement counts the rows asked for. */
  lemma CountRuns(b: Builder, q: QueryFilters.Query, tenant: string, db: Tables, le: Order, walk: seq<string>,
                  text: string, args: seq<Value>)
    requires b.table in db && IsWalk(walk, b) && IsCount(b, q, tenant, walk, text, args)
    ensures QueryCount(db, text, args, le) == Success(|AskedIds(b, q, tenant, db[b.table], le)|)
  {
    MatchesAsked(b, q, tenant, db[b.table], le, walk, []);
    assert args + [] == args;
  }

  /** The one ordered answer that every page of a query is cut from. */
  lemma WholeAnswer(b: Builder, q: QueryFilters.Query, tenant: string, t: Table, le: Order, walk: seq<string>,
                    scan: seq<string>)
    returns (ids: seq<string>)
    requires TotalPreorder(le) && UniqueKey(t, b.primaryKey, le) && ValidIdentifier(b.primaryKey)
    requires IsWalk(walk, b) && IsScan(scan, t)
    ensures Distinct(ids) && (forall id :: id in ids <==> id in AskedIds(b, q, tenant, t, le))
    ensures |ids| == |AskedIds(b, q, tenant, t, le)|
    ensures (forall i :: 0 <= i < |ids| ==> ids[i] in t.rows) && InOrder(ids, OrderKeys(b, q.sorts), t.rows, le)
    ensures forall walk', scan', p, n :: IsWalk(walk', b) && IsScan(scan', t) ==>
      PageRows(b, q, tenant, t, le, walk', scan', p, n) == Slice(ids, (p - 1) * n, n)
  {
    var keys := OrderKeys(b, q.sorts);
    KeyIsOrdered(b, q.sorts);
    ids := AnswerWith(b, q, tenant, t, le, walk, scan, []);
    forall walk', scan', p, n | IsWalk(walk', b) && IsScan(scan', t)
      ensures PageRows(b, q, tenant, t, le, walk', scan', p, n) == Slice(ids, (p - 1) * n, n)
    {
      var other := AnswerWith(b, q, tenant, t, le, walk', scan', [Int(n), Int((p - 1) * n)]);
      OneOrder(ids, other, keys, t, b.primaryKey, le);
    }
  }

  lemma AnswerWith(b: Builder, q: QueryFilters.Query, tenant: string, t: Table, le: Order, walk: seq<string>,
                   scan: seq<string>, more: seq<Value>)
    returns (ids: seq<string>)
    requires TotalPreorder(le) && IsWalk(walk, b) && IsScan(scan, t)
    ensures var columns := SearchColumns(b, walk);
      && WritableClauses(Forms(b, q, columns))
      && ids == Answer(t, FilterExpr(Forms(b, q, columns)), OrderKeys(b, q.sorts),
                       Args(b, q, tenant, columns) + more, le, scan)
    ensures Distinct(ids) && (forall id :: id in ids <==> id in AskedIds(b, q, tenant, t, le))
    ensures |ids| == |AskedIds(b, q, tenant, t, le)|
    ensures (forall i :: 0 <= i < |ids| ==> ids[i] in t.rows) && InOrder(ids, OrderKeys(b, q.sorts), t.rows, le)
  {
    var columns := SearchColumns(b, walk);
    MatchesAsked(b, q, tenant, t, le, walk, more);
    var filter, args := FilterExpr(Forms(b, q, columns)), Args(b, q, tenant, columns) + more;
    ids := Answer(t, filter, OrderKeys(b, q.sorts), args, le, scan);
    AnswerIsExact(t, filter, OrderKeys(b, q.sorts), args, le, scan);
    AnswerInOrder(t, filter, OrderKeys(b, q.sorts), args, le, scan);
  }

  /** Pages 1 to ceil(total / n), fetched by separate queries, concatenate to the whole answer:
      no row is lost and none is repeated. */
  lemma PagesCover(b: Builder, q: QueryFilters.Query, tenant: string, t: Table, le: Order, walks: seq<seq<string>>,
                   scans: seq<seq<string>>, n: nat, pages: seq<seq<string>>)
    requires TotalPreorder(le) && UniqueKey(t, b.primaryKey, le) && ValidIdentifier(b.primaryKey) && n > 0
    requires |walks| == |scans| == |pages| == Pagination.PageCount(n, |AskedIds(b, q, tenant, t, le)|)
    requires forall i :: 0 <= i < |pages| ==> IsWalk(walks[i], b) && IsScan(scans[i], t)
    requires forall i :: 0 <= i < |pages| ==> pages[i] == PageRows(b, q, tenant, t, le, walks[i], scans[i], i + 1, n)
    ensures Distinct(Concat(pages)) && forall id :: id in Concat(pages) <==> id in AskedIds(b, q, tenant, t, le)
    ensures (forall i :: 0 <= i < |Concat(pages)| ==> Concat(pages)[i] in t.rows)
    ensures InOrder(Concat(pages), OrderKeys(b, q.sorts), t.rows, le)
  {
    hide PageRows, Slice, Before, TotalPreorder, UniqueKey, IsScan, IsWalk, Asked, OrderKeys, ValidIdentifier;
    var total := |AskedIds(b, q, tenant, t, le)|;
    Pagination.PageCountCovers(n, total);
    if pages == [] {
      assert total == 0;
      assert AskedIds(b, q, tenant, t, le) == {};
    } else {
      var ids := WholeAnswer(b, q, tenant, t, le, walks[0], scans[0]);
      forall i | 0 <= i < |pages| ensures pages[i] == Slice(ids, i * n, n) {
        assert PageRows(b, q, tenant, t, le, walks[i], scans[i], i + 1, n) == Slice(ids, (i + 1 - 1) * n, n);
      }
      SlicesConcat(pages, ids, n);
      assert ids[..|ids|] == ids;
    }
  }
}
