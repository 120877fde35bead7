/** The statement texts of the store operations, and what each reads back as. */
module StoreText {
  import opened Wrappers
  import opened Text
  import opened Resources
  import opened SqlLexer
  import opened SqlSyntax
  import opened SqlText
  import opened StoreStatements

  function QuotedNames(d: Dialect, names: seq<string>): seq<string> {
    seq(|names|, i requires 0 <= i < |names| => QuoteIdent(d, names[i]))
  }

  function SelectCols(d: Dialect, r: ResourceMeta): string { Join(QuotedNames(d, VisibleColumns(r.fields)), ", ") }

  lemma SpellsSelectCols(d: Dialect, r: ResourceMeta)
    requires VisibleColumns(r.fields) != []
    ensures Spells(d, SelectCols(d, r), ColumnsTokens(SqlSyntax.Named(VisibleColumns(r.fields))))
  {
    SpellsNames(d, QuotedNames(d, VisibleColumns(r.fields)), VisibleColumns(r.fields));
  }

  lemma KeyIsVisible(r: ResourceMeta)
    requires WellFormed(r)
    ensures r.primaryKey in VisibleColumns(r.fields)
  {
    var f := FieldBySQLName(r.fields, r.primaryKey).value;
    assert f in r.fields;
  }

  /******* Key filters *******/

  function KeyWhere(d: Dialect, r: ResourceMeta, role: string, n: nat): string {
    " where " + EqualsText(d, r.primaryKey, n) +
      (if Scoped(r, role) then " and " + EqualsText(d, r.tenantKey, n + 1) else "")
  }

  lemma SpellsEquals(d: Dialect, c: string, n: nat)
    ensures Spells(d, EqualsText(d, c, n), ClauseTokens(d.Postgres?, Single(Test(Col(c), Eq, Arg(n)))))
  {
    SpellsTest(d, Test(Col(c), Eq, Arg(n)));
    assert " " + "=" + " " == " = ";
  }

  lemma JoinPair(a: string, b: string, lead: string, sep: string)
    ensures lead + Join([a, b], sep) == lead + a + (sep + b)
  {
    assert [a, b][1..] == [b];
    assert Join([a, b], sep) == a + sep + b;
  }

  lemma SpellsBoth(d: Dialect, a: string, x: Clause, b: string, y: Clause)
    requires Spells(d, a, ClauseTokens(d.Postgres?, x)) && Spells(d, b, ClauseTokens(d.Postgres?, y))
    ensures SpellsFilter(d, " where " + a + (" and " + b), [x, y])
  {
    JoinPair(a, b, " where ", " and ");
    SpellsWhere(d, [a, b], [x, y]);
  }

  lemma SpellsKeyWhere(d: Dialect, r: ResourceMeta, role: string, n: nat)
    ensures SpellsFilter(d, KeyWhere(d, r, role, n), KeyForms(r, role, n))
  {
    var a, x := EqualsText(d, r.primaryKey, n), Single(Test(Col(r.primaryKey), Eq, Arg(n)));
    SpellsEquals(d, r.primaryKey, n);
    if Scoped(r, role) {
      SpellsEquals(d, r.tenantKey, n + 1);
      SpellsBoth(d, a, x, EqualsText(d, r.tenantKey, n + 1), Single(Test(Col(r.tenantKey), Eq, Arg(n + 1))));
    } else {
      SpellsWhere(d, [a], [x]);
      assert " where " + a + "" == " where " + Join([a], " and ");
    }
  }

  lemma KeyNumbers(pg: bool, r: ResourceMeta, role: string, n: nat, id: string, tenant: string)
    ensures WritableClauses(KeyForms(r, role, n))
    ensures ClausesArgs(KeyForms(r, role, n)) == Upto(n, |KeyArgs(r, role, id, tenant)|)
    ensures Numbers(FilterTokens(pg, KeyForms(r, role, n)), Upto(n, |KeyArgs(r, role, id, tenant)|))
  {
    var forms := KeyForms(r, role, n);
    assert forall c, k: nat :: OperandArgs(Col(c)) == [] && OperandArgs(Arg(k)) == [k];
    assert ClauseArgs(forms[0]) == [n];
    assert WritableClause(forms[0]);
    if Scoped(r, role) {
      assert forms[1..] == [forms[1]] && forms[1..][1..] == [];
      assert ClauseArgs(forms[1]) == [n + 1];
      assert ClausesArgs(forms[1..]) == [n + 1] + [];
    } else {
      assert forms[1..] == [];
    }
    assert ClausesArgs(forms) == Upto(n, |KeyArgs(r, role, id, tenant)|);
    FilterNumbers(pg, forms);
  }

  /******* Select and count *******/

  lemma GetReads(d: Dialect, r: ResourceMeta, role: string, limit: string)
    requires WellFormed(r) && limit == " limit 1"
    ensures WritableClauses(KeyForms(r, role, 1))
    ensures ReadText("select " + SelectCols(d, r) + " from " + QuoteIdent(d, r.table) + KeyWhere(d, r, role, 1) + limit)
         == Some(Select(SqlSyntax.Named(VisibleColumns(r.fields)), r.table,
                        FilterExpr(KeyForms(r, role, 1)), [], First))
  {
    hide Spells, SpellsFilter, SpellsOrder, SpellsLimit, KeyWhere, ReadText, QuoteIdent, SelectCols, ColumnsTokens;
    var c, forms, where := SqlSyntax.Named(VisibleColumns(r.fields)), KeyForms(r, role, 1), KeyWhere(d, r, role, 1);
    KeyIsVisible(r);
    SpellsSelectCols(d, r);
    SpellsKeyWhere(d, r, role, 1);
    SpellsNoOrder(d);
    SpellsFirst(d, " limit 1", " limit ", "1");
    KeyNumbers(d.Postgres?, r, role, 1, "", "");
    SelectReads(d, SelectCols(d, r), c, r.table, where, forms, "", [], limit, First);
    NothingBetween("select " + SelectCols(d, r) + " from " + QuoteIdent(d, r.table) + where, limit);
  }

  lemma NothingBetween(a: string, b: string)
    ensures a + "" + b == a + b
  {}

  lemma SpellsNoOrder(d: Dialect)
    ensures SpellsOrder(d, "", [])
  {
    SpellsNothing(d);
  }

  lemma SelectReads(d: Dialect, columns: string, c: Columns, table: string, where: string, cs: seq<Clause>,
                    order: string, keys: seq<OrderKey>, limit: string, l: Limit)
    requires Spells(d, columns, ColumnsTokens(c)) && (c.Named? ==> c.names != [])
    requires SpellsFilter(d, where, cs) && SpellsOrder(d, order, keys) && SpellsLimit(d, limit, l)
    requires WritableClauses(cs) && CountsFrom(ClausesArgs(cs) + LimitArgs(l), 1)
    ensures ReadText("select " + columns + " from " + QuoteIdent(d, table) + where + order + limit)
         == Some(Select(c, table, FilterExpr(cs), keys, l))
  {
    SpellsSelect(d, columns, c, table, where, cs, order, keys, limit, l, "select ", " from ");
    SelectNumbers(d.Postgres?, c, table, cs, keys, l);
    ReadsAs(d, "select " + columns + " from " + QuoteIdent(d, table) + where + order + limit,
            SelectTokens(d.Postgres?, c, table, cs, keys, l), ClausesArgs(cs) + LimitArgs(l));
    ReadWrittenSelect(d.Postgres?, c, table, cs, keys, l);
  }

  /******* Insert, update, delete *******/

  lemma InsertReads(d: Dialect, table: string, columns: seq<string>, names: seq<string>, marks: seq<string>)
    requires |columns| == |names| == |marks| > 0
    requires forall i :: 0 <= i < |names| ==> columns[i] == QuoteIdent(d, names[i]) && marks[i] == Placeholder(d, i + 1)
    ensures ReadText("insert into " + QuoteIdent(d, table) + " (" + Join(columns, ", ") + ") values (" +
                     Join(marks, ", ") + ")")
         == Some(Insert(table, names, Upto(1, |names|)))
  {
    var ns := Upto(1, |names|);
    SpellsNames(d, columns, names);
    SpellsParams(d, marks, ns);
    SpellsInsert(d, table, Join(columns, ", "), names, Join(marks, ", "), ns, "insert into ", " (", ") values (", ")");
    InsertNumbers(table, names, ns);
    ReadsAs(d, "insert into " + QuoteIdent(d, table) + " (" + Join(columns, ", ") + ") values (" +
            Join(marks, ", ") + ")",
            InsertTokens(table, names, ns), ns);
    ReadWrittenInsert(table, names, ns);
  }

  lemma InsertNumbers(table: string, names: seq<string>, ns: seq<nat>)
    ensures Numbers(InsertTokens(table, names, ns), ns)
  {
    var a, b := [Word("insert"), Word("into"), Name(table), Sym("(")], [Sym(")"), Word("values"), Sym("(")];
    NumbersNone(a);
    NumbersNone(b);
    NumbersNone([Sym(")")]);
    NamesNumbers(names);
    ParamsNumbers(ns);
    NumbersConcat(a, [], NamesTokens(names), []);
    NumbersConcat(a + NamesTokens(names), [], b, []);
    NumbersConcat(a + NamesTokens(names) + b, [], ParamsTokens(ns), ns);
    NumbersConcat(a + NamesTokens(names) + b + ParamsTokens(ns), [] + ns, [Sym(")")], []);
    assert [] + ns + [] == ns;
  }

  lemma UpdateReads(d: Dialect, r: ResourceMeta, role: string, assignments: seq<string>, sets: seq<(string, nat)>,
                    id: string, tenant: string)
    requires |assignments| == |sets| > 0 && SetsArgs(sets) == Upto(1, |sets|)
    requires forall i :: 0 <= i < |sets| ==> assignments[i] == EqualsText(d, sets[i].0, sets[i].1)
    ensures WritableClauses(KeyForms(r, role, |sets| + 1))
    ensures ReadText("update " + QuoteIdent(d, r.table) + " set " + Join(assignments, ", ") +
                     KeyWhere(d, r, role, |sets| + 1))
         == Some(Update(r.table, sets, FilterExpr(KeyForms(r, role, |sets| + 1))))
  {
    hide Spells, SpellsFilter, Numbers, KeyWhere, ReadText, ReadStmt, QuoteIdent, UpdateTokens, KeyArgs, FilterExpr,
      ClausesArgs, WritableClauses;
    var n := |sets| + 1;
    var forms, m := KeyForms(r, role, n), |KeyArgs(r, role, id, tenant)|;
    SpellsSets(d, assignments, sets);
    SpellsKeyWhere(d, r, role, n);
    SpellsUpdate(d, r.table, Join(assignments, ", "), sets, KeyWhere(d, r, role, n), forms, "update ", " set ");
    KeyNumbers(d.Postgres?, r, role, n, id, tenant);
    UpdateNumbers(d.Postgres?, r.table, sets, forms, m);
    ReadsAs(d, "update " + QuoteIdent(d, r.table) + " set " + Join(assignments, ", ") + KeyWhere(d, r, role, n),
            UpdateTokens(d.Postgres?, r.table, sets, forms), Upto(1, |sets| + m));
    ReadWrittenUpdate(d.Postgres?, r.table, sets, forms);
  }

  lemma UpdateNumbers(pg: bool, table: string, sets: seq<(string, nat)>, forms: seq<Clause>, m: nat)
    requires SetsArgs(sets) == Upto(1, |sets|) && Numbers(FilterTokens(pg, forms), Upto(|sets| + 1, m))
    ensures Numbers(UpdateTokens(pg, table, sets, forms), Upto(1, |sets| + m))
  {
    var head := [Word("update"), Name(table), Word("set")];
    SetsNumbers(sets);
    NumbersNone(head);
    NumbersConcat(head, [], SetsTokens(sets), SetsArgs(sets));
    assert [] + SetsArgs(sets) == SetsArgs(sets);
    NumbersConcat(head + SetsTokens(sets), SetsArgs(sets), FilterTokens(pg, forms), Upto(|sets| + 1, m));
    UptoConcat(1, |sets|, m);
  }

  lemma DeleteReads(d: Dialect, r: ResourceMeta, role: string)
    ensures WritableClauses(KeyForms(r, role, 1))
    ensures ReadText("delete from " + QuoteIdent(d, r.table) + KeyWhere(d, r, role, 1))
         == Some(Delete(r.table, FilterExpr(KeyForms(r, role, 1))))
  {
    hide Spells, SpellsFilter, KeyWhere, ReadText, ReadStmt, QuoteIdent, FilterExpr, ClausesArgs, WritableClauses,
      KeyArgs;
    var forms := KeyForms(r, role, 1);
    SpellsKeyWhere(d, r, role, 1);
    assert "delete from " == "delete " + "from ";
    SpellsDelete(d, r.table, KeyWhere(d, r, role, 1), forms, "delete from ", "delete ", "from ");
    KeyNumbers(d.Postgres?, r, role, 1, "", "");
    var head := [Word("delete"), Word("from"), Name(r.table)];
    NumbersNone(head);
    NumbersConcat(head, [], FilterTokens(d.Postgres?, forms), Upto(1, |KeyArgs(r, role, "", "")|));
    assert [] + Upto(1, |KeyArgs(r, role, "", "")|) == Upto(1, |KeyArgs(r, role, "", "")|);
    ReadsAs(d, "delete from " + QuoteIdent(d, r.table) + KeyWhere(d, r, role, 1),
            DeleteTokens(d.Postgres?, r.table, forms),
            Upto(1, |KeyArgs(r, role, "", "")|));
    ReadWrittenDelete(d.Postgres?, r.table, forms);
  }

  /******* Ordering *******/

  /** The sort a list request means; an unsortable or unknown field means no order.  Only the
      Postgres store falls back to the newest first. */
  function SortKeys(d: Dialect, r: ResourceMeta, sortBy: string): seq<OrderKey> {
    var given := if sortBy == "" then r.defaultSort else sortBy;
    var s := if d.Postgres? && given == "" then "-created_at" else given;
    var f := FieldBySQLName(r.fields, TrimPrefix(s, "-"));
    if f.Some? && f.value.sortable then [OrderKey(TrimPrefix(s, "-"), HasPrefix(s, "-"))] else []
  }

  function OrderClause(d: Dialect, r: ResourceMeta, sortBy: string): string {
    var given := if sortBy == "" then r.defaultSort else sortBy;
    var s := if d.Postgres? && given == "" then "-created_at" else given;
    var fieldName := TrimPrefix(s, "-");
    var f := FieldBySQLName(r.fields, fieldName);
    if f.None? || !f.value.sortable then ""
    else " order by " + QuoteIdent(d, fieldName) + " " + (if HasPrefix(s, "-") then "desc" else "asc")
  }

  lemma OrderClauseIs(d: Dialect, r: ResourceMeta, sortBy: string, head: string)
    requires SortKeys(d, r, sortBy) != [] && head == " order by "
    ensures OrderClause(d, r, sortBy) == head + Join([KeyText(d, SortKeys(d, r, sortBy)[0])], ", ")
  {
    var text := KeyText(d, SortKeys(d, r, sortBy)[0]);
    assert Join([text], ", ") == text;
  }

  lemma SpellsOrderClause(d: Dialect, r: ResourceMeta, sortBy: string)
    ensures SpellsOrder(d, OrderClause(d, r, sortBy), SortKeys(d, r, sortBy))
  {
    var keys := SortKeys(d, r, sortBy);
    if keys == [] {
      SpellsNothing(d);
    } else {
      assert |keys| == 1;
      hide *;
      OrderClauseIs(d, r, sortBy, " order by ");
      SpellsOrdered(d, [KeyText(d, keys[0])], keys, " order by ");
    }
  }
}
