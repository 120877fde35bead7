/** The query builder for Postgres: parsed queries become select and count statements over
    validated identifiers, ordered totally by adding the primary key. */
module QueryBuilder {
  import opened Wrappers
  import opened Text
  import opened Patterns
  import opened SqlLexer
  import opened SqlSyntax
  import opened SqlText
  import opened SqlMeaning
  import QueryFilters

  datatype Builder = Builder(table: string, primaryKey: string, allowed: QueryFilters.AllowedFields,
                             tenantColumn: string)

  predicate IsIdentifierChar(c: char) { IsLower(c) || IsUpper(c) || IsDigit(c) || c == '_' }

  predicate ValidIdentifier(s: string) { s != "" && forall i :: 0 <= i < |s| ==> IsIdentifierChar(s[i]) }

  function ColumnOf(f: QueryFilters.AllowedField): string { if f.column == "" then f.name else f.column }

  function FilterArg(f: QueryFilters.Filter): Value {
    match f.operator
    case "contains" => Str("%" + f.value + "%")
    case "starts_with" => Str(f.value + "%")
    case "ends_with" => Str("%" + f.value)
    case _ => Str(f.value)
  }

  /** Any operator without a symbol of its own, `in` among them, is an equality. */
  function SqlOperator(operator: string): Op {
    match operator
    case "contains" => Ilike
    case "starts_with" => Ilike
    case "ends_with" => Ilike
    case "gte" => Ge
    case "lte" => Le
    case "gt" => Gt
    case "lt" => Lt
    case _ => Eq
  }

  /******* What a query asks for *******/

  ghost predicate Compares(op: Op, v: Value, arg: Value, le: Order)
    requires !arg.Null?
  {
    !v.Null? && Holds(op, v, arg, le)
  }

  /** The columns a search looks at, when the map of fields is walked in this order. */
  function SearchColumns(b: Builder, walk: seq<string>): seq<string> {
    if walk == [] then []
    else
      var k := walk[|walk| - 1];
      SearchColumns(b, walk[..|walk| - 1])
        + (if k in b.allowed && b.allowed[k].searchable then [ColumnOf(b.allowed[k])] else [])
  }

  function FilterColumn(b: Builder, f: QueryFilters.Filter): string {
    if f.field in b.allowed then ColumnOf(b.allowed[f.field]) else ""
  }

  ghost predicate SearchMatches(b: Builder, search: string, row: Row, le: Order) {
    exists k :: k in b.allowed && b.allowed[k].searchable
      && Compares(Ilike, Field(row, ColumnOf(b.allowed[k])), Str("%" + search + "%"), le)
  }

  /** The rows a query is about: the tenant's, found by the search in some searchable field
      (when there is one), and meeting every filter. */
  ghost predicate Asked(b: Builder, q: QueryFilters.Query, tenant: string, row: Row, le: Order) {
    && (b.tenantColumn != "" ==> Compares(Eq, Field(row, b.tenantColumn), Str(tenant), le))
    && (q.search != "" && (exists k :: k in b.allowed && b.allowed[k].searchable) ==>
        SearchMatches(b, q.search, row, le))
    && forall i :: 0 <= i < |q.filters| ==>
        Compares(SqlOperator(q.filters[i].operator), Field(row, FilterColumn(b, q.filters[i])),
                 FilterArg(q.filters[i]), le)
  }

  predicate FilterCompiles(b: Builder, f: QueryFilters.Filter) {
    f.field in b.allowed && b.allowed[f.field].filterable && ValidIdentifier(ColumnOf(b.allowed[f.field]))
  }

  /** When the WHERE of a query compiles. */
  predicate Compiles(b: Builder, q: QueryFilters.Query) {
    && (b.tenantColumn != "" ==> ValidIdentifier(b.tenantColumn))
    && (q.search != "" ==> forall k :: k in b.allowed && b.allowed[k].searchable ==>
        ValidIdentifier(ColumnOf(b.allowed[k])))
    && forall i :: 0 <= i < |q.filters| ==> FilterCompiles(b, q.filters[i])
  }

  /******* The clauses meant *******/

  function ColumnTests(columns: seq<string>, n: nat): seq<Test> {
    seq(|columns|, i requires 0 <= i < |columns| => Test(Col(columns[i]), Ilike, Arg(n + i)))
  }

  function HeadForms(b: Builder): seq<Clause> {
    if b.tenantColumn != "" then [Single(Test(Col(b.tenantColumn), Eq, Arg(1)))] else []
  }

  function SearchForms(columns: seq<string>, search: string, n: nat): seq<Clause> {
    if search == "" || columns == [] then [] else [Any(ColumnTests(columns, n))]
  }

  function FilterForms(b: Builder, fs: seq<QueryFilters.Filter>, n: nat): seq<Clause> {
    seq(|fs|, i requires 0 <= i < |fs| => Single(Test(Col(FilterColumn(b, fs[i])),
                                                      SqlOperator(fs[i].operator), Arg(n + i))))
  }

  function SearchArgs(columns: seq<string>, search: string): seq<Value> {
    if search == "" then [] else seq(|columns|, _ => Str("%" + search + "%"))
  }

  function FilterArgs(fs: seq<QueryFilters.Filter>): seq<Value> {
    seq(|fs|, i requires 0 <= i < |fs| => FilterArg(fs[i]))
  }

  function Forms(b: Builder, q: QueryFilters.Query, columns: seq<string>): seq<Clause> {
    var n := |HeadForms(b)| + 1;
    HeadForms(b) + SearchForms(columns, q.search, n) + FilterForms(b, q.filters, n + |SearchArgs(columns, q.search)|)
  }

  function Args(b: Builder, q: QueryFilters.Query, tenant: string, columns: seq<string>): seq<Value> {
    (if b.tenantColumn != "" then [Str(tenant)] else []) + SearchArgs(columns, q.search) + FilterArgs(q.filters)
  }

  lemma ColumnTakes(column: string, op: Op, k: nat)
    ensures Takes(Single(Test(Col(column), op, Arg(k))), k)
  {
    assert OperandArgs(Col(column)) == [] && OperandArgs(Arg(k)) == [k] && [] + [k] == [k];
  }

  lemma {:induction false} ColumnTestsArgs(columns: seq<string>, n: nat)
    ensures TestsArgs(ColumnTests(columns, n)) == Upto(n, |columns|)
    ensures forall i :: 0 <= i < |columns| ==> WritableTest(ColumnTests(columns, n)[i])
  {
    var tests := ColumnTests(columns, n);
    if columns != [] {
      ColumnTestsArgs(columns[1..], n + 1);
      assert tests[1..] == ColumnTests(columns[1..], n + 1);
      ColumnTakes(columns[0], Ilike, n);
      UptoConcat(n, 1, |columns| - 1);
      assert Upto(n, 1) == [n] == TestArgs(tests[0]);
    }
  }

  lemma SearchFormsArgs(columns: seq<string>, search: string, n: nat)
    ensures ClausesArgs(SearchForms(columns, search, n)) == Upto(n, |SearchArgs(columns, search)|)
    ensures WritableClauses(SearchForms(columns, search, n))
  {
    var mid := SearchForms(columns, search, n);
    ColumnTestsArgs(columns, n);
    if mid != [] {
      assert mid[1..] == [];
      assert ClausesArgs(mid) == Upto(n, |columns|) + [];
    }
  }

  lemma HeadFormsArgs(b: Builder)
    ensures ClausesArgs(HeadForms(b)) == Upto(1, |HeadForms(b)|) && WritableClauses(HeadForms(b))
  {
    if b.tenantColumn != "" {
      ColumnTakes(b.tenantColumn, Eq, 1);
      assert Takes(HeadForms(b)[0], 1 + 0);
    }
    SinglesArgs(HeadForms(b), 1);
  }

  lemma FilterFormsArgs(b: Builder, fs: seq<QueryFilters.Filter>, n: nat)
    ensures ClausesArgs(FilterForms(b, fs, n)) == Upto(n, |fs|) && WritableClauses(FilterForms(b, fs, n))
  {
    var forms := FilterForms(b, fs, n);
    forall i | 0 <= i < |fs| ensures Takes(forms[i], n + i) {
      ColumnTakes(FilterColumn(b, fs[i]), SqlOperator(fs[i].operator), n + i);
    }
    SinglesArgs(forms, n);
    assert forall i :: 0 <= i < |forms| ==> Takes(forms[i], n + i);
  }

  lemma ArgsCount(b: Builder, q: QueryFilters.Query, tenant: string, columns: seq<string>)
    ensures |Args(b, q, tenant, columns)| == |HeadForms(b)| + |SearchArgs(columns, q.search)| + |q.filters|
  {}

  /** `$1` to `$len(args)` each occur exactly once, in order. */
  lemma PlaceholdersCount(b: Builder, q: QueryFilters.Query, tenant: string, columns: seq<string>)
    ensures WritableClauses(Forms(b, q, columns))
    ensures ClausesArgs(Forms(b, q, columns)) == Upto(1, |Args(b, q, tenant, columns)|)
  {
    hide ClausesArgs, WritableClauses, Upto, HeadForms, SearchForms, FilterForms, SearchArgs, Args;
    var head, n := HeadForms(b), |HeadForms(b)| + 1;
    var m := |SearchArgs(columns, q.search)|;
    ArgsCount(b, q, tenant, columns);
    HeadFormsArgs(b);
    SearchFormsArgs(columns, q.search, n);
    FilterFormsArgs(b, q.filters, n + m);
    ConcatCounts(head, |head|, SearchForms(columns, q.search, n), m);
    ConcatCounts(head + SearchForms(columns, q.search, n), |head| + m, FilterForms(b, q.filters, n + m), |q.filters|);
  }

  /******* The clauses mean what was asked *******/

  lemma TestMeans(c: string, op: Op, n: nat, row: Row, args: seq<Value>, le: Order)
    requires 1 <= n <= |args| && !args[n - 1].Null?
    ensures TestHolds(Test(Col(c), op, Arg(n)), row, args, le) <==> Compares(op, Field(row, c), args[n - 1], le)
  {
    assert OperandValue(Col(c), row, args) == Field(row, c) && OperandValue(Arg(n), row, args) == args[n - 1];
  }

  lemma {:induction false} SearchColumnsAre(b: Builder, walk: seq<string>)
    ensures forall c :: c in SearchColumns(b, walk) <==>
      exists k :: k in walk && k in b.allowed && b.allowed[k].searchable && ColumnOf(b.allowed[k]) == c
  {
    if walk != [] {
      var n := |walk| - 1;
      SearchColumnsAre(b, walk[..n]);
      assert walk == walk[..n] + [walk[n]];
      assert forall k :: k in walk <==> k in walk[..n] || k == walk[n];
    }
  }

  predicate IsWalk(walk: seq<string>, b: Builder) {
    Distinct(walk) && (forall k :: k in walk ==> k in b.allowed) && forall k :: k in b.allowed ==> k in walk
  }

  /** The tests of a search hold like the comparisons they stand for. */
  lemma ColumnTestsHold(columns: seq<string>, search: string, n: nat, row: Row, args: seq<Value>, le: Order)
    requires n >= 1 && n - 1 + |columns| <= |args|
    requires args[n - 1..n - 1 + |columns|] == SearchArgs(columns, search) && search != ""
    ensures ClauseHolds(Any(ColumnTests(columns, n)), row, args, le)
       <==> exists i :: 0 <= i < |columns| && Compares(Ilike, Field(row, columns[i]), Str("%" + search + "%"), le)
  {
    hide Compares, LikeMatch, OperandValue, TextOf;
    var tests := ColumnTests(columns, n);
    forall i | 0 <= i < |columns|
      ensures TestHolds(tests[i], row, args, le) <==>
        Compares(Ilike, Field(row, columns[i]), Str("%" + search + "%"), le)
    {
      assert args[n - 1 + i] == args[n - 1..n - 1 + |columns|][i];
      TestMeans(columns[i], Ilike, n + i, row, args, le);
    }
  }

  lemma SearchMeans(b: Builder, walk: seq<string>, search: string, n: nat, row: Row, args: seq<Value>, le: Order)
    requires IsWalk(walk, b) && n >= 1
    requires var m := |SearchArgs(SearchColumns(b, walk), search)|;
      n - 1 + m <= |args| && args[n - 1..n - 1 + m] == SearchArgs(SearchColumns(b, walk), search)
    ensures var forms := SearchForms(SearchColumns(b, walk), search, n);
      (forall i :: 0 <= i < |forms| ==> ClauseHolds(forms[i], row, args, le))
       <==> (search != "" && (exists k :: k in b.allowed && b.allowed[k].searchable) ==>
             SearchMatches(b, search, row, le))
  {
    hide Compares, ColumnOf, ClauseHolds, ColumnTests, SearchColumns;
    var columns := SearchColumns(b, walk);
    SearchColumnsAre(b, walk);
    if k :| k in b.allowed && b.allowed[k].searchable { assert ColumnOf(b.allowed[k]) in columns; }
    if columns != [] { assert columns[0] in columns; }
    if search != "" && columns != [] {
      ColumnTestsHold(columns, search, n, row, args, le);
      var forms := SearchForms(columns, search, n);
      assert |forms| == 1 && forms[0] == Any(ColumnTests(columns, n));
      if SearchMatches(b, search, row, le) {
        var k :| k in b.allowed && b.allowed[k].searchable
          && Compares(Ilike, Field(row, ColumnOf(b.allowed[k])), Str("%" + search + "%"), le);
        assert ColumnOf(b.allowed[k]) in columns;
        var i :| 0 <= i < |columns| && columns[i] == ColumnOf(b.allowed[k]);
      }
      if i :| 0 <= i < |columns| && Compares(Ilike, Field(row, columns[i]), Str("%" + search + "%"), le) {
        assert columns[i] in columns;
        var k :| k in b.allowed && b.allowed[k].searchable && ColumnOf(b.allowed[k]) == columns[i];
      }
    }
  }

  lemma FiltersMean(b: Builder, fs: seq<QueryFilters.Filter>, n: nat, row: Row, args: seq<Value>, le: Order)
    requires n >= 1 && n - 1 + |fs| <= |args| && args[n - 1..n - 1 + |fs|] == FilterArgs(fs)
    ensures (forall i :: 0 <= i < |FilterForms(b, fs, n)| ==> ClauseHolds(FilterForms(b, fs, n)[i], row, args, le))
       <==> (forall i :: 0 <= i < |fs| ==>
              Compares(SqlOperator(fs[i].operator), Field(row, FilterColumn(b, fs[i])), FilterArg(fs[i]), le))
  {
    forall i | 0 <= i < |fs|
      ensures ClauseHolds(FilterForms(b, fs, n)[i], row, args, le)
         <==> Compares(SqlOperator(fs[i].operator), Field(row, FilterColumn(b, fs[i])), FilterArg(fs[i]), le)
    {
      assert args[n - 1 + i] == args[n - 1..n - 1 + |fs|][i];
      TestMeans(FilterColumn(b, fs[i]), SqlOperator(fs[i].operator), n + i, row, args, le);
    }
  }

  lemma HeadMeans(b: Builder, tenant: string, row: Row, args: seq<Value>, le: Order)
    requires b.tenantColumn != "" ==> args != [] && args[0] == Str(tenant)
    ensures (forall i :: 0 <= i < |HeadForms(b)| ==> ClauseHolds(HeadForms(b)[i], row, args, le))
       <==> (b.tenantColumn != "" ==> Compares(Eq, Field(row, b.tenantColumn), Str(tenant), le))
  {
    if b.tenantColumn != "" {
      TestMeans(b.tenantColumn, Eq, 1, row, args, le);
      assert HeadForms(b)[0] == Single(Test(Col(b.tenantColumn), Eq, Arg(1)));
    }
  }

  lemma ArgsParts(b: Builder, q: QueryFilters.Query, tenant: string, columns: seq<string>, more: seq<Value>)
    ensures var args, n := Args(b, q, tenant, columns) + more, |HeadForms(b)|;
      var m := n + |SearchArgs(columns, q.search)|;
      && (b.tenantColumn != "" ==> args[0] == Str(tenant))
      && m + |q.filters| <= |args| && args[n..m] == SearchArgs(columns, q.search)
      && args[m..m + |q.filters|] == FilterArgs(q.filters)
  {}

  /** In whatever order the fields are walked, and whatever arguments follow, the clauses select
      exactly the rows asked for: select and count share one meaning. */
  lemma FormsMean(b: Builder, q: QueryFilters.Query, tenant: string, walk: seq<string>, more: seq<Value>, row: Row,
                  le: Order)
    requires IsWalk(walk, b)
    ensures var columns := SearchColumns(b, walk);
      WritableClauses(Forms(b, q, columns)) &&
      (Selected(FilterExpr(Forms(b, q, columns)), row, Args(b, q, tenant, columns) + more, le) <==>
       Asked(b, q, tenant, row, le))
  {
    hide ClauseHolds, SearchMatches, Compares, HeadForms, SearchForms, FilterForms, SearchArgs, FilterArgs, ClausesArgs,
      WritableClauses;
    var columns, n := SearchColumns(b, walk), |HeadForms(b)| + 1;
    var args, m := Args(b, q, tenant, columns) + more, n + |SearchArgs(columns, q.search)|;
    PlaceholdersCount(b, q, tenant, columns);
    ArgsParts(b, q, tenant, columns, more);
    AllHold(Forms(b, q, columns), row, args, le);
    SplitForall(Forms(b, q, columns), HeadForms(b), SearchForms(columns, q.search, n),
                FilterForms(b, q.filters, m), row, args, le);
    HeadMeans(b, tenant, row, args, le);
    SearchMeans(b, walk, q.search, n, row, args, le);
    FiltersMean(b, q.filters, m, row, args, le);
  }

  /** What one filter asks of the value in its column, operator by operator. */
  lemma FilterExactly(f: QueryFilters.Filter, v: Value, le: Order)
    ensures Compares(SqlOperator(f.operator), v, FilterArg(f), le) <==>
      (!v.Null? &&
       if f.operator == "gte" then le(Str(f.value), v)
       else if f.operator == "lte" then le(v, Str(f.value))
       else if f.operator == "gt" then !le(v, Str(f.value))
       else if f.operator == "lt" then !le(Str(f.value), v)
       else if f.operator == "contains" then
         (if MetaFree(f.value) then Contains(Fold(TextOf(v)), Fold(f.value))
          else LikeMatch(Fold("%" + f.value + "%"), Fold(TextOf(v))))
       else if f.operator == "starts_with" then
         (if MetaFree(f.value) then HasPrefix(Fold(TextOf(v)), Fold(f.value))
          else LikeMatch(Fold(f.value + "%"), Fold(TextOf(v))))
       else if f.operator == "ends_with" then
         (if MetaFree(f.value) then HasSuffix(Fold(TextOf(v)), Fold(f.value))
          else LikeMatch(Fold("%" + f.value), Fold(TextOf(v))))
       else TextOf(v) == f.value)
  {
    hide LikeMatch, Contains, Fold, MetaFree, HasPrefix, HasSuffix;
    if !v.Null? && MetaFree(f.value) { LikePatterns(f.value, TextOf(v)); }
  }

  lemma LikePatterns(value: string, text: string)
    requires MetaFree(value)
    ensures LikeMatch(Fold("%" + value + "%"), Fold(text)) <==> Contains(Fold(text), Fold(value))
    ensures LikeMatch(Fold(value + "%"), Fold(text)) <==> HasPrefix(Fold(text), Fold(value))
    ensures LikeMatch(Fold("%" + value), Fold(text)) <==> HasSuffix(Fold(text), Fold(value))
  {
    FoldConcat("%", value);
    FoldConcat(value, "%");
    FoldConcat("%" + value, "%");
    assert Fold("%") == "%";
    FoldKeepsMeta(value);
    LikeContains(Fold(value), Fold(text));
    LikeStarts(Fold(value), Fold(text));
    LikeEnds(Fold(value), Fold(text));
  }

  /** The rows a query that compiles is about: where there is a tenant column, those with the tenant's text
      in it; with the search in some searchable column, when there is one; and meeting every filter. */
  lemma AskedExactly(b: Builder, q: QueryFilters.Query, tenant: string, row: Row, le: Order)
    requires Compiles(b, q)
    ensures Asked(b, q, tenant, row, le) <==>
      (&& (b.tenantColumn != "" ==>
             !Field(row, b.tenantColumn).Null? && TextOf(Field(row, b.tenantColumn)) == tenant)
       && (q.search != "" && (exists k :: k in b.allowed && b.allowed[k].searchable) ==>
             exists k :: k in b.allowed && b.allowed[k].searchable &&
               var v := Field(row, if b.allowed[k].column == "" then b.allowed[k].name else b.allowed[k].column);
               !v.Null? && if MetaFree(q.search) then Contains(Fold(TextOf(v)), Fold(q.search))
                           else LikeMatch(Fold("%" + q.search + "%"), Fold(TextOf(v))))
       && forall i :: 0 <= i < |q.filters| ==>
            (q.filters[i].field in b.allowed &&
             var f, g := q.filters[i], b.allowed[q.filters[i].field];
             var v := Field(row, if g.column == "" then g.name else g.column);
             !v.Null? &&
             if f.operator == "gte" then le(Str(f.value), v)
             else if f.operator == "lte" then le(v, Str(f.value))
             else if f.operator == "gt" then !le(v, Str(f.value))
             else if f.operator == "lt" then !le(Str(f.value), v)
             else if f.operator == "contains" then
               (if MetaFree(f.value) then Contains(Fold(TextOf(v)), Fold(f.value))
                else LikeMatch(Fold("%" + f.value + "%"), Fold(TextOf(v))))
             else if f.operator == "starts_with" then
               (if MetaFree(f.value) then HasPrefix(Fold(TextOf(v)), Fold(f.value))
                else LikeMatch(Fold(f.value + "%"), Fold(TextOf(v))))
             else if f.operator == "ends_with" then
               (if MetaFree(f.value) then HasSuffix(Fold(TextOf(v)), Fold(f.value))
                else LikeMatch(Fold("%" + f.value), Fold(TextOf(v))))
             else TextOf(v) == f.value))
  {
    hide LikeMatch, Contains, Fold, MetaFree, HasPrefix, HasSuffix, SqlOperator, FilterArg, ValidIdentifier;
    forall k | k in b.allowed {
      SearchMeansText(Field(row, ColumnOf(b.allowed[k])), q.search, le);
    }
    assert forall i :: 0 <= i < |q.filters| ==> FilterCompiles(b, q.filters[i]);
    forall i | 0 <= i < |q.filters| {
      FilterExactly(q.filters[i], Field(row, FilterColumn(b, q.filters[i])), le);
    }
  }

  lemma SearchMeansText(v: Value, search: string, le: Order)
    ensures Compares(Ilike, v, Str("%" + search + "%"), le) <==>
      (!v.Null? && if MetaFree(search) then Contains(Fold(TextOf(v)), Fold(search))
                   else LikeMatch(Fold("%" + search + "%"), Fold(TextOf(v))))
  {
    hide LikeMatch, Contains, Fold, MetaFree;
    if !v.Null? && MetaFree(search) { LikePatterns(search, TextOf(v)); }
  }

  /******* Building the WHERE *******/

  function ColumnText(column: string, op: Op, n: nat): string {
    QuoteIdent(Postgres, column) + " " + OpText(op) + " " + Placeholder(Postgres, n)
  }

  lemma ColumnTextIs(column: string, op: Op, n: nat)
    ensures ColumnText(column, op, n) == TestText(Postgres, Test(Col(column), op, Arg(n)))
    ensures Spells(Postgres, ColumnText(column, op, n), ClauseTokens(true, Single(Test(Col(column), op, Arg(n)))))
  {
    var q, p := QuoteIdent(Postgres, column), Placeholder(Postgres, n);
    assert q + " " + OpText(op) + " " + p == q + (" " + OpText(op) + " ") + p;
    SpellsTest(Postgres, Test(Col(column), op, Arg(n)));
  }

  /** The text of one filter's clause: the column in double quotes, the operator's symbol and the argument. */
  lemma ColumnTextExactly(column: string, operator: string, n: nat)
    requires ValidIdentifier(column)
    ensures ColumnText(column, SqlOperator(operator), n) ==
      "\"" + column + "\" " +
      (if operator == "gte" then ">=" else if operator == "lte" then "<=" else if operator == "gt" then ">"
       else if operator == "lt" then "<"
       else if operator in ["contains", "starts_with", "ends_with"] then "ilike" else "=") + " $" + Decimal(n)
  {
    hide Decimal;
    DoubledClean('"', column);
    var symbol := OpText(SqlOperator(operator));
    assert ['"'] + column + ['"'] + " " == "\"" + column + "\" ";
    assert " " + ("$" + Decimal(n)) == " $" + Decimal(n);
    Assoc("\"" + column + "\" " + symbol, " ", "$" + Decimal(n));
    Assoc("\"" + column + "\" " + symbol, " $", Decimal(n));
  }

  /** The walk so far: every field but the remaining ones, once each, its search column safe. */
  ghost predicate Walked(b: Builder, walk: seq<string>, remaining: set<string>) {
    && Distinct(walk) && remaining <= b.allowed.Keys
    && (forall k :: k in walk <==> k in b.allowed && k !in remaining)
    && forall k :: k in walk && b.allowed[k].searchable ==> ValidIdentifier(ColumnOf(b.allowed[k]))
  }

  lemma WalkedOneMore(b: Builder, walk: seq<string>, remaining: set<string>, key: string)
    requires Walked(b, walk, remaining) && key in remaining
    requires b.allowed[key].searchable ==> ValidIdentifier(ColumnOf(b.allowed[key]))
    ensures Walked(b, walk + [key], remaining - {key})
  {}

  lemma WalkedAll(b: Builder, walk: seq<string>)
    requires Walked(b, walk, {})
    ensures IsWalk(walk, b) && !SearchUnsafe(b)
  {}

  lemma SearchColumnsOneMore(b: Builder, walk: seq<string>, key: string)
    requires key in b.allowed
    ensures var columns := SearchColumns(b, walk);
      SearchColumns(b, walk + [key]) ==
        if b.allowed[key].searchable then columns + [ColumnOf(b.allowed[key])] else columns
  {
    assert (walk + [key])[..|walk|] == walk;
  }

  lemma UnsafeFound(b: Builder, key: string)
    requires key in b.allowed && b.allowed[key].searchable && !ValidIdentifier(ColumnOf(b.allowed[key]))
    ensures SearchUnsafe(b)
  {}

  method SearchParts(b: Builder, search: string, given: seq<Value>)
    returns (res: Result<(seq<string>, seq<Value>), string>, ghost walk: seq<string>)
    ensures res.Failure? <==> SearchUnsafe(b)
    ensures res.Success? ==>
      IsWalk(walk, b) && PartsSpell(SearchColumns(b, walk), search, given, res.value.0, res.value.1)
  {
    hide *;
    var parts: seq<string>, args := [], given;
    walk := [];
    var remaining := b.allowed.Keys;
    NothingWalked(b, search, given);
    while remaining != {}
      invariant remaining <= b.allowed.Keys && Walked(b, walk, remaining)
      invariant PartsSpell(SearchColumns(b, walk), search, given, parts, args)
      decreases |remaining|
    {
      var key :| key in remaining;
      var field := b.allowed[key];
      SearchColumnsOneMore(b, walk, key);
      if field.searchable {
        var column := ColumnOf(field);
        if !ValidIdentifier(column) {
          UnsafeFound(b, key);
          return Failure("unsafe identifier"), walk;
        }
        PartsOneMore(SearchColumns(b, walk), search, given, parts, args, column);
        args := args + [Str("%" + search + "%")];
        parts := parts + [ColumnText(column, Ilike, |args|)];
      }
      WalkedOneMore(b, walk, remaining, key);
      remaining := remaining - {key};
      walk := walk + [key];
    }
    WalkedAll(b, walk);
    res := Success((parts, args));
  }

  lemma NothingWalked(b: Builder, search: string, given: seq<Value>)
    ensures Walked(b, [], b.allowed.Keys) && PartsSpell(SearchColumns(b, []), search, given, [], given)
  {
    assert given + [] == given;
  }

  ghost predicate PartsSpell(columns: seq<string>, search: string, given: seq<Value>, parts: seq<string>,
                             args: seq<Value>)
  {
    && |parts| == |columns| && args == given + seq(|columns|, _ => Str("%" + search + "%"))
    && forall j :: 0 <= j < |columns| ==> parts[j] == TestText(Postgres, ColumnTests(columns, |given| + 1)[j])
  }

  lemma PartsOneMore(columns: seq<string>, search: string, given: seq<Value>, parts: seq<string>, args: seq<Value>,
                     column: string)
    requires PartsSpell(columns, search, given, parts, args)
    ensures PartsSpell(columns + [column], search, given, parts + [ColumnText(column, Ilike, |args| + 1)],
                       args + [Str("%" + search + "%")])
  {
    hide Spells, TestText, ColumnText;
    var n := |given| + 1;
    ColumnTextIs(column, Ilike, |args| + 1);
    assert |args| + 1 == n + |columns|;
    var tests := ColumnTests(columns + [column], n);
    assert tests[|columns|] == Test(Col(column), Ilike, Arg(n + |columns|));
    forall j | 0 <= j < |columns| ensures tests[j] == ColumnTests(columns, n)[j] {}
  }

  method FilterParts(b: Builder, fs: seq<QueryFilters.Filter>, given: seq<Value>)
    returns (res: Result<(seq<string>, seq<Value>), string>)
    ensures res.Failure? <==> exists i :: 0 <= i < |fs| && !FilterCompiles(b, fs[i])
    ensures res.Success? ==>
      SpellsEach(Postgres, res.value.0, FilterForms(b, fs, |given| + 1)) && res.value.1 == given + FilterArgs(fs)
    ensures res.Success? ==>
      |res.value.0| == |fs| && forall j :: 0 <= j < |fs| ==>
        res.value.0[j] == ColumnText(FilterColumn(b, fs[j]), SqlOperator(fs[j].operator), |given| + 1 + j)
  {
    hide ColumnText, ValidIdentifier, Spells, SpellsEach, FilterForms, FilterArgs, FilterArg, SqlOperator;
    var parts: seq<string>, args := [], given;
    NoFilters(b, fs, given);
    for i := 0 to |fs|
      invariant forall j :: 0 <= j < i ==> FilterCompiles(b, fs[j])
      invariant SpellsEach(Postgres, parts, FilterForms(b, fs[..i], |given| + 1)) && args == given + FilterArgs(fs[..i])
      invariant |parts| == i && |args| == |given| + i && forall j :: 0 <= j < i ==>
        parts[j] == ColumnText(FilterColumn(b, fs[j]), SqlOperator(fs[j].operator), |given| + 1 + j)
    {
      var f := fs[i];
      if f.field !in b.allowed || !b.allowed[f.field].filterable {
        assert !FilterCompiles(b, fs[i]);
        return Failure("field is not filterable");
      }
      var field := b.allowed[f.field];
      var column := if field.column == "" then field.name else field.column;
      if !ValidIdentifier(column) {
        assert !FilterCompiles(b, fs[i]);
        return Failure("unsafe identifier");
      }
      FiltersOneMore(b, fs, i, given, parts, args);
      args := args + [FilterArg(f)];
      parts := parts + [ColumnText(column, SqlOperator(f.operator), |args|)];
    }
    assert fs[..|fs|] == fs;
    res := Success((parts, args));
  }

  lemma NoFilters(b: Builder, fs: seq<QueryFilters.Filter>, given: seq<Value>)
    ensures SpellsEach(Postgres, [], FilterForms(b, fs[..0], |given| + 1)) && given == given + FilterArgs(fs[..0])
  {
    assert given + [] == given;
  }

  lemma FiltersOneMore(b: Builder, fs: seq<QueryFilters.Filter>, i: nat, given: seq<Value>, parts: seq<string>,
                       args: seq<Value>)
    requires i < |fs| && FilterCompiles(b, fs[i])
    requires SpellsEach(Postgres, parts, FilterForms(b, fs[..i], |given| + 1)) && args == given + FilterArgs(fs[..i])
    ensures SpellsEach(Postgres,
                       parts + [ColumnText(ColumnOf(b.allowed[fs[i].field]), SqlOperator(fs[i].operator), |args| + 1)],
                       FilterForms(b, fs[..i + 1], |given| + 1))
    ensures args + [FilterArg(fs[i])] == given + FilterArgs(fs[..i + 1])
  {
    hide ColumnText, Spells;
    var n, c, op := |given| + 1, ColumnOf(b.allowed[fs[i].field]), SqlOperator(fs[i].operator);
    assert |args| + 1 == n + i;
    ColumnTextIs(c, op, n + i);
    SpellsOneMore(Postgres, parts, FilterForms(b, fs[..i], n), ColumnText(c, op, n + i),
                  Single(Test(Col(c), op, Arg(n + i))));
    FormsOneMore(b, fs, i, n);
    assert FilterArgs(fs[..i + 1]) == FilterArgs(fs[..i]) + [FilterArg(fs[i])];
  }

  lemma FormsOneMore(b: Builder, fs: seq<QueryFilters.Filter>, i: nat, n: nat)
    requires i < |fs|
    ensures FilterForms(b, fs[..i + 1], n)
         == FilterForms(b, fs[..i], n) +
           [Single(Test(Col(FilterColumn(b, fs[i])), SqlOperator(fs[i].operator), Arg(n + i)))]
  {
    var all, before := FilterForms(b, fs[..i + 1], n), FilterForms(b, fs[..i], n);
    assert all[i] == Single(Test(Col(FilterColumn(b, fs[i])), SqlOperator(fs[i].operator), Arg(n + i)));
    forall j | 0 <= j < i ensures all[j] == before[j] {}
  }

  /** The search clause appended to the clauses so far, if the search has any part. */
  method AddSearch(b: Builder, search: string, clauses: seq<string>, args: seq<Value>, ghost head: seq<Clause>)
    returns (res: Result<(seq<string>, seq<Value>), string>, ghost walk: seq<string>)
    requires SpellsEach(Postgres, clauses, head)
    ensures res.Failure? <==> search != "" && SearchUnsafe(b)
    ensures res.Success? ==> IsWalk(walk, b)
    ensures res.Success? ==>
      SpellsEach(Postgres, res.value.0, head + SearchForms(SearchColumns(b, walk), search, |args| + 1))
    ensures res.Success? ==> res.value.1 == args + SearchArgs(SearchColumns(b, walk), search)
  {
    assert head + [] == head && args + [] == args;
    if search == "" {
      walk := AnyWalk(b);
      return Success((clauses, args)), walk;
    }
    var found;
    found, walk := SearchParts(b, search, args);
    if found.Failure? { return Failure(found.error), walk; }
    var parts := found.value.0;
    if |parts| == 0 { return Success((clauses, found.value.1)), walk; }
    SpellsSearch(SearchColumns(b, walk), parts, |args| + 1);
    SpellsOneMore(Postgres, clauses, head, "(" + Join(parts, " or ") + ")",
                  Any(ColumnTests(SearchColumns(b, walk), |args| + 1)));
    res := Success((clauses + ["(" + Join(parts, " or ") + ")"], found.value.1));
  }

  ghost predicate SearchUnsafe(b: Builder) {
    exists k :: k in b.allowed && b.allowed[k].searchable && !ValidIdentifier(ColumnOf(b.allowed[k]))
  }

  /** The tenant and search clauses. */
  method Opening(b: Builder, q: QueryFilters.Query, tenant: string)
    returns (res: Result<(seq<string>, seq<Value>), string>, ghost walk: seq<string>)
    requires b.tenantColumn != "" ==> ValidIdentifier(b.tenantColumn)
    ensures res.Failure? <==> q.search != "" && SearchUnsafe(b)
    ensures res.Success? ==> IsWalk(walk, b)
    ensures res.Success? ==>
      SpellsEach(Postgres, res.value.0,
                 HeadForms(b) + SearchForms(SearchColumns(b, walk), q.search, |HeadForms(b)| + 1))
    ensures res.Success? ==>
      res.value.1 == (if b.tenantColumn != "" then [Str(tenant)] else []) + SearchArgs(SearchColumns(b, walk), q.search)
  {
    hide Spells, EqualsText;
    var clauses: seq<string>, args: seq<Value> := [], [];
    if b.tenantColumn != "" {
      args := args + [Str(tenant)];
      clauses := clauses + [EqualsText(Postgres, b.tenantColumn, |args|)];
      SpellsTenant(b);
    }
    res, walk := AddSearch(b, q.search, clauses, args, HeadForms(b));
  }

  lemma SpellsTenant(b: Builder)
    requires b.tenantColumn != ""
    ensures SpellsEach(Postgres, [EqualsText(Postgres, b.tenantColumn, 1)], HeadForms(b))
  {
    hide Spells;
    SpellsSet(Postgres, (b.tenantColumn, 1));
    assert TestTokens(true, Test(Col(b.tenantColumn), Eq, Arg(1))) == SetTokens((b.tenantColumn, 1));
  }

  lemma SpellsSearch(columns: seq<string>, parts: seq<string>, n: nat)
    requires |parts| == |columns| > 0 && forall j :: 0 <= j < |columns| ==>
      parts[j] == TestText(Postgres, ColumnTests(columns, n)[j])
    ensures Spells(Postgres, "(" + Join(parts, " or ") + ")", ClauseTokens(true, Any(ColumnTests(columns, n))))
  {
    ColumnTestsArgs(columns, n);
    SpellsAny(Postgres, parts, ColumnTests(columns, n));
  }

  /** Some order of the fields. */
  lemma AnyWalk(b: Builder) returns (walk: seq<string>)
    ensures IsWalk(walk, b)
  {
    walk := [];
    var remaining := b.allowed.Keys;
    while remaining != {}
      invariant Distinct(walk) && remaining <= b.allowed.Keys
      invariant forall k :: k in walk <==> k in b.allowed && k !in remaining
      decreases |remaining|
    {
      var key :| key in remaining;
      remaining := remaining - {key};
      walk := walk + [key];
    }
  }

  method Where(b: Builder, q: QueryFilters.Query, tenant: string)
    returns (res: Result<(string, seq<Value>), string>, ghost walk: seq<string>)
    ensures res.Success? <==> Compiles(b, q)
    ensures res.Success? ==> IsWalk(walk, b) && res.value.1 == Args(b, q, tenant, SearchColumns(b, walk))
    ensures res.Success? ==> SpellsFilter(Postgres, res.value.0, Forms(b, q, SearchColumns(b, walk)))
  {
    walk := [];
    if b.tenantColumn != "" && !ValidIdentifier(b.tenantColumn) { return Failure("unsafe identifier"), walk; }
    var opening;
    opening, walk := Opening(b, q, tenant);
    if opening.Failure? { return Failure(opening.error), walk; }
    var more := FilterParts(b, q.filters, opening.value.1);
    if more.Failure? { return Failure(more.error), walk; }
    var clauses, args := opening.value.0 + more.value.0, more.value.1;
    var text := if |clauses| == 0 then "" else " where " + Join(clauses, " and ");
    WhereSpells(b, q, tenant, SearchColumns(b, walk), opening.value.0, opening.value.1, more.value.0, args, text);
    res := Success((text, args));
  }

  lemma WhereParts(b: Builder, q: QueryFilters.Query, tenant: string, columns: seq<string>, given: seq<Value>)
    requires given == (if b.tenantColumn != "" then [Str(tenant)] else []) + SearchArgs(columns, q.search)
    ensures given + FilterArgs(q.filters) == Args(b, q, tenant, columns)
    ensures HeadForms(b) + SearchForms(columns, q.search, |HeadForms(b)| + 1) +
      FilterForms(b, q.filters, |given| + 1) == Forms(b, q, columns)
  {
    hide FilterForms, SearchForms, SearchArgs, FilterArgs;
    assert |given| == |HeadForms(b)| + |SearchArgs(columns, q.search)|;
  }

  lemma WhereSpells(b: Builder, q: QueryFilters.Query, tenant: string, columns: seq<string>, opening: seq<string>,
                    given: seq<Value>, more: seq<string>, args: seq<Value>, text: string)
    requires SpellsEach(Postgres, opening, HeadForms(b) + SearchForms(columns, q.search, |HeadForms(b)| + 1))
    requires given == (if b.tenantColumn != "" then [Str(tenant)] else []) + SearchArgs(columns, q.search)
    requires SpellsEach(Postgres, more, FilterForms(b, q.filters, |given| + 1)) && args == given + FilterArgs(q.filters)
    requires text == if |opening + more| == 0 then "" else " where " + Join(opening + more, " and ")
    ensures args == Args(b, q, tenant, columns) && SpellsFilter(Postgres, text, Forms(b, q, columns))
  {
    hide *;
    WhereParts(b, q, tenant, columns, given);
    SpellsBoth(opening, HeadForms(b) + SearchForms(columns, q.search, |HeadForms(b)| + 1), more,
               FilterForms(b, q.filters, |given| + 1));
    SpellsWhole(Postgres, opening + more, Forms(b, q, columns), text);
  }

  lemma SpellsBoth(a: seq<string>, x: seq<Clause>, b: seq<string>, y: seq<Clause>)
    requires SpellsEach(Postgres, a, x) && SpellsEach(Postgres, b, y)
    ensures SpellsEach(Postgres, a + b, x + y)
  {
    hide Spells, ClauseTokens;
    forall i | 0 <= i < |x + y| ensures Spells(Postgres, (a + b)[i], ClauseTokens(true, (x + y)[i])) {
      if i >= |x| { assert (a + b)[i] == b[i - |x|] && (x + y)[i] == y[i - |x|]; }
    }
  }

  /******* Ordering *******/

  predicate SortCompiles(b: Builder, s: QueryFilters.Sort) {
    s.field in b.allowed && b.allowed[s.field].sortable && ValidIdentifier(ColumnOf(b.allowed[s.field]))
  }

  function SortKey(b: Builder, s: QueryFilters.Sort): OrderKey {
    OrderKey(if s.field in b.allowed then ColumnOf(b.allowed[s.field]) else "", s.desc)
  }

  function SortKeys(b: Builder, sorts: seq<QueryFilters.Sort>): seq<OrderKey> {
    seq(|sorts|, i requires 0 <= i < |sorts| => SortKey(b, sorts[i]))
  }

  predicate HasColumn(keys: seq<OrderKey>, c: string) { exists i :: 0 <= i < |keys| && keys[i].column == c }

  /** The requested keys, then the primary key unless it is among them. */
  function OrderKeys(b: Builder, sorts: seq<QueryFilters.Sort>): seq<OrderKey> {
    var keys := SortKeys(b, sorts);
    if b.primaryKey != "" && ValidIdentifier(b.primaryKey) && !HasColumn(keys, b.primaryKey)
    then keys + [OrderKey(b.primaryKey, false)] else keys
  }

  /** The builder looks for the key by text; on identifiers that finds exactly the column. */
  lemma KeyFoundByText(k: OrderKey, pk: string)
    requires ValidIdentifier(k.column) && ValidIdentifier(pk)
    ensures HasPrefix(KeyText(Postgres, k), QuoteIdent(Postgres, pk) + " ") <==> k.column == pk
  {
    DoubledClean('"', k.column);
    DoubledClean('"', pk);
    var text, p := KeyText(Postgres, k), QuoteIdent(Postgres, pk) + " ";
    if p <= text {
      var n, m := |pk|, |k.column|;
      assert forall i :: 0 <= i < |p| ==> p[i] == text[i];
      assert forall i :: 0 <= i < m ==> text[i + 1] == k.column[i] && text[i + 1] != '"';
      assert forall i :: 0 <= i < n ==> p[i + 1] == pk[i] && p[i + 1] != '"';
      assert p[n + 1] == '"' && text[m + 1] == '"';
      assert m <= n && n <= m;
    }
  }

  method OrderBy(b: Builder, sorts: seq<QueryFilters.Sort>) returns (res: Result<string, string>)
    ensures res.Success? <==> forall i :: 0 <= i < |sorts| ==> SortCompiles(b, sorts[i])
    ensures res.Success? ==> SpellsOrder(Postgres, res.value, OrderKeys(b, sorts))
  {
    hide QuoteIdent, ValidIdentifier, HasPrefix, SpellsOrder, Join;
    var orders: seq<string> := [];
    for i := 0 to |sorts|
      invariant forall j :: 0 <= j < i ==> SortCompiles(b, sorts[j])
      invariant |orders| == i && forall j :: 0 <= j < i ==> orders[j] == KeyText(Postgres, SortKey(b, sorts[j]))
    {
      var sort := sorts[i];
      if sort.field !in b.allowed || !b.allowed[sort.field].sortable {
        assert !SortCompiles(b, sorts[i]);
        return Failure("field is not sortable");
      }
      var field := b.allowed[sort.field];
      var column := if field.column == "" then field.name else field.column;
      if !ValidIdentifier(column) {
        assert !SortCompiles(b, sorts[i]);
        return Failure("unsafe identifier");
      }
      orders := orders + [QuoteIdent(Postgres, column) + " " + (if sort.desc then "desc" else "asc")];
    }

    ghost var keys := SortKeys(b, sorts);
    if b.primaryKey != "" && ValidIdentifier(b.primaryKey) {
      var found := false;
      for i := 0 to |orders|
        invariant found <==> exists j :: 0 <= j < i && keys[j].column == b.primaryKey
      {
        KeyFoundByText(keys[i], b.primaryKey);
        if HasPrefix(orders[i], QuoteIdent(Postgres, b.primaryKey) + " ") { found := true; }
      }
      if !found { orders := orders + [QuoteIdent(Postgres, b.primaryKey) + " asc"]; }
      KeyAscending(b.primaryKey);
    }
    SpellsOrderBy(Postgres, orders, OrderKeys(b, sorts), " order by ");
    res := Success(if |orders| == 0 then "" else " order by " + Join(orders, ", "));
  }

  lemma KeyAscending(pk: string)
    ensures QuoteIdent(Postgres, pk) + " asc" == KeyText(Postgres, OrderKey(pk, false))
  {
    assert " asc" == " " + "asc";
  }
}
