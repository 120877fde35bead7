/** The WHERE compiler of the SQL stores: search text and filters become parameterised text
    whose meaning is a predicate on rows. */
module ListFilters {
  import opened Wrappers
  import opened Text
  import opened Resources
  import opened SqlSyntax
  import opened SqlText
  import opened SqlMeaning
  import opened Patterns

  /******* What a request asks for *******/

  /** A filter key is `field` or `field::operator`. */
  function FieldOf(key: string): string { Cut(key, "::").before }

  function OperatorOf(key: string): string { if Cut(key, "::").found then Cut(key, "::").after else "eq" }

  datatype FilterOp = IsEqual | HasPart | HasStart | HasEnd | AtLeast | AtMost | Above | Below

  function ParseOperator(s: string): Option<FilterOp> {
    match s
    case "eq" => Some(IsEqual)
    case "contains" => Some(HasPart)
    case "starts_with" => Some(HasStart)
    case "ends_with" => Some(HasEnd)
    case "gte" => Some(AtLeast)
    case "lte" => Some(AtMost)
    case "gt" => Some(Above)
    case "lt" => Some(Below)
    case _ => None
  }

  /** The operator of a filter the store does not refuse. */
  function OpOf(key: string): FilterOp {
    var op := ParseOperator(OperatorOf(key));
    if op.Some? then op.value else IsEqual
  }

  predicate Filterable(r: ResourceMeta, name: string) {
    var f := FieldBySQLName(r.fields, name);
    f.Some? && f.value.filterable
  }

  /** A filter the store refuses: its field may not be filtered, or its operator is unknown. */
  predicate Refused(r: ResourceMeta, key: string, value: string) {
    value != "" && (!Filterable(r, FieldOf(key)) || ParseOperator(OperatorOf(key)).None?)
  }

  /** Case-insensitive containment; a value with LIKE metacharacters acts as a pattern. */
  ghost predicate Has(value: string, text: string) {
    if MetaFree(value) then Contains(Fold(text), Fold(value)) else LikeMatch(Fold("%" + value + "%"), Fold(text))
  }

  ghost predicate StartsWith(value: string, text: string) {
    if MetaFree(value) then HasPrefix(Fold(text), Fold(value)) else LikeMatch(Fold(value + "%"), Fold(text))
  }

  ghost predicate EndsWith(value: string, text: string) {
    if MetaFree(value) then HasSuffix(Fold(text), Fold(value)) else LikeMatch(Fold("%" + value), Fold(text))
  }

  /** What a filter asks of a column's value; NULL meets no filter.  Range operators compare
      text on Postgres (the column is cast) and the stored value elsewhere. */
  ghost predicate Meets(pg: bool, op: FilterOp, value: string, v: Value, le: Order) {
    !v.Null? &&
    var side := if pg then Str(TextOf(v)) else v;
    match op
    case IsEqual => TextOf(v) == value
    case HasPart => Has(value, TextOf(v))
    case HasStart => StartsWith(value, TextOf(v))
    case HasEnd => EndsWith(value, TextOf(v))
    case AtLeast => le(Str(value), side)
    case AtMost => le(side, Str(value))
    case Above => !le(side, Str(value))
    case Below => !le(Str(value), side)
  }

  function SearchColumns(fields: seq<FieldMeta>): seq<string> {
    if fields == [] then []
    else
      var f := fields[|fields| - 1];
      SearchColumns(fields[..|fields| - 1]) + (if f.searchable && !f.hidden then [f.sqlName] else [])
  }

  predicate Owned(r: ResourceMeta, tenant: string, row: Row) {
    !Field(row, r.tenantKey).Null? && TextOf(Field(row, r.tenantKey)) == tenant
  }

  ghost predicate Found(columns: seq<string>, search: string, row: Row) {
    exists i :: 0 <= i < |columns| && !Field(row, columns[i]).Null? && Has(search, TextOf(Field(row, columns[i])))
  }

  /** The rows a list request is about.  A search without searchable columns is dropped. */
  ghost predicate Wanted(pg: bool, r: ResourceMeta, tenant: string, role: string, search: string,
                         filters: map<string, string>, row: Row, le: Order)
  {
    && (Scoped(r, role) ==> Owned(r, tenant, row))
    && (search != "" && SearchColumns(r.fields) != [] ==> Found(SearchColumns(r.fields), search, row))
    && forall key :: key in filters && filters[key] != "" ==>
        Meets(pg, OpOf(key), filters[key], Field(row, FieldOf(key)), le)
  }

  /******* The clauses meant *******/

  function LikeTest(pg: bool, column: string, n: nat): Test {
    if pg then Test(AsText(Col(column)), Ilike, Arg(n)) else Test(Lower(AsText(Col(column))), Like, Lower(Arg(n)))
  }

  function SearchTests(pg: bool, columns: seq<string>, n: nat): seq<Test> {
    seq(|columns|, i requires 0 <= i < |columns| => LikeTest(pg, columns[i], n + i))
  }

  function FilterTest(pg: bool, c: string, op: FilterOp, n: nat): Test {
    var side := if pg then AsText(Col(c)) else Col(c);
    match op
    case IsEqual => Test(AsText(Col(c)), Eq, Arg(n))
    case AtLeast => Test(side, Ge, Arg(n))
    case AtMost => Test(side, Le, Arg(n))
    case Above => Test(side, Gt, Arg(n))
    case Below => Test(side, Lt, Arg(n))
    case _ => LikeTest(pg, c, n)
  }

  function FilterArg(op: FilterOp, value: string): Value {
    match op
    case HasPart => Str("%" + value + "%")
    case HasStart => Str(value + "%")
    case HasEnd => Str("%" + value)
    case _ => Str(value)
  }

  /** The filters actually used, in the order the map is walked. */
  function Active(filters: map<string, string>, order: seq<string>): (keys: seq<string>)
    ensures forall i :: 0 <= i < |keys| ==> keys[i] in order && keys[i] in filters && filters[keys[i]] != ""
    ensures forall k :: k in order && k in filters && filters[k] != "" ==> k in keys
  {
    if order == [] then []
    else
      var k := order[|order| - 1];
      assert order == order[..|order| - 1] + [k];
      Active(filters, order[..|order| - 1]) + (if k in filters && filters[k] != "" then [k] else [])
  }

  lemma ActiveStep(filters: map<string, string>, order: seq<string>, key: string)
    requires key in filters
    ensures Active(filters, order + [key]) == Active(filters, order) + (if filters[key] == "" then [] else [key])
  {
    assert (order + [key])[..|order|] == order;
  }

  function FilterForms(pg: bool, keys: seq<string>, n: nat): seq<Clause> {
    seq(|keys|, i requires 0 <= i < |keys| => Single(FilterTest(pg, FieldOf(keys[i]), OpOf(keys[i]), n + i)))
  }

  function FilterArgs(filters: map<string, string>, keys: seq<string>): seq<Value>
    requires forall i :: 0 <= i < |keys| ==> keys[i] in filters
  {
    seq(|keys|, i requires 0 <= i < |keys| => FilterArg(OpOf(keys[i]), filters[keys[i]]))
  }

  function Head(r: ResourceMeta, role: string): seq<Clause> {
    if Scoped(r, role) then [Single(Test(Col(r.tenantKey), Eq, Arg(1)))] else []
  }

  function SearchForms(pg: bool, r: ResourceMeta, search: string, n: nat): seq<Clause> {
    var columns := SearchColumns(r.fields);
    if search == "" || columns == [] then [] else [Any(SearchTests(pg, columns, n))]
  }

  function SearchArgs(r: ResourceMeta, search: string): seq<Value> {
    if search == "" then [] else seq(|SearchColumns(r.fields)|, _ => Str("%" + search + "%"))
  }

  function Forms(pg: bool, r: ResourceMeta, role: string, search: string, keys: seq<string>): seq<Clause> {
    var n := |Head(r, role)| + 1;
    Head(r, role) + SearchForms(pg, r, search, n) + FilterForms(pg, keys, n + |SearchArgs(r, search)|)
  }

  function Args(r: ResourceMeta, tenant: string, role: string, search: string, filters: map<string, string>,
                keys: seq<string>): seq<Value>
    requires forall i :: 0 <= i < |keys| ==> keys[i] in filters
  {
    (if Scoped(r, role) then [Str(tenant)] else []) + SearchArgs(r, search) + FilterArgs(filters, keys)
  }

  /******* Placeholders are used once each, in order *******/

  lemma TestArgsOne(pg: bool, column: string, op: FilterOp, n: nat)
    ensures TestArgs(LikeTest(pg, column, n)) == [n] == TestArgs(FilterTest(pg, column, op, n))
    ensures WritableTest(LikeTest(pg, column, n)) && WritableTest(FilterTest(pg, column, op, n))
  {
    assert forall c :: OperandArgs(Col(c)) == [] && OperandArgs(AsText(Col(c))) == [];
    assert OperandArgs(Arg(n)) == [n] && [] + [n] == [n];
  }

  lemma {:induction false} SearchTestsArgs(pg: bool, columns: seq<string>, n: nat)
    ensures TestsArgs(SearchTests(pg, columns, n)) == Upto(n, |columns|)
    ensures forall i :: 0 <= i < |columns| ==> WritableTest(SearchTests(pg, columns, n)[i])
  {
    if columns != [] {
      TestArgsOne(pg, columns[0], IsEqual, n);
      SearchTestsArgs(pg, columns[1..], n + 1);
      assert SearchTests(pg, columns, n)[1..] == SearchTests(pg, columns[1..], n + 1);
      assert Upto(n, |columns|) == [n] + Upto(n + 1, |columns| - 1);
      assert forall i :: 1 <= i < |columns| ==>
        SearchTests(pg, columns, n)[i] == SearchTests(pg, columns[1..], n + 1)[i - 1];
    }
  }

  lemma FilterFormsArgs(pg: bool, keys: seq<string>, n: nat)
    ensures ClausesArgs(FilterForms(pg, keys, n)) == Upto(n, |keys|) && WritableClauses(FilterForms(pg, keys, n))
  {
    var forms := FilterForms(pg, keys, n);
    forall i | 0 <= i < |keys| ensures Takes(forms[i], n + i) {
      TestArgsOne(pg, FieldOf(keys[i]), OpOf(keys[i]), n + i);
    }
    SinglesArgs(forms, n);
    assert forall i :: 0 <= i < |forms| ==> Takes(forms[i], n + i);
  }

  lemma HeadArgs(r: ResourceMeta, role: string)
    ensures ClausesArgs(Head(r, role)) == Upto(1, |Head(r, role)|) && WritableClauses(Head(r, role))
  {
    var head := Head(r, role);
    if head != [] {
      assert OperandArgs(Arg(1)) == [1] && OperandArgs(Col(r.tenantKey)) == [];
      assert ClauseArgs(head[0]) == [1] && head[1..] == [];
      assert ClausesArgs(head) == [1] + [];
    }
  }

  lemma SearchFormsArgs(pg: bool, r: ResourceMeta, search: string, n: nat)
    ensures ClausesArgs(SearchForms(pg, r, search, n)) == Upto(n, |SearchArgs(r, search)|)
    ensures WritableClauses(SearchForms(pg, r, search, n))
  {
    var mid, columns := SearchForms(pg, r, search, n), SearchColumns(r.fields);
    SearchTestsArgs(pg, columns, n);
    if mid != [] {
      assert mid[1..] == [];
      assert ClausesArgs(mid) == Upto(n, |columns|) + [];
    }
  }

  lemma ArgsCount(r: ResourceMeta, tenant: string, role: string, search: string, filters: map<string, string>,
                  keys: seq<string>)
    requires forall i :: 0 <= i < |keys| ==> keys[i] in filters
    ensures |Args(r, tenant, role, search, filters, keys)| == |Head(r, role)| + |SearchArgs(r, search)| + |keys|
  {}

  /** `$1` to `$len(args)` each occur exactly once, in order. */
  lemma PlaceholdersCount(pg: bool, r: ResourceMeta, tenant: string, role: string, search: string,
                          filters: map<string, string>, keys: seq<string>)
    requires forall i :: 0 <= i < |keys| ==> keys[i] in filters
    ensures WritableClauses(Forms(pg, r, role, search, keys))
    ensures ClausesArgs(Forms(pg, r, role, search, keys)) == Upto(1, |Args(r, tenant, role, search, filters, keys)|)
  {
    hide ClausesArgs, WritableClauses, Upto, Head, SearchForms, FilterForms, SearchArgs, Args;
    var n := |Head(r, role)| + 1;
    ArgsCount(r, tenant, role, search, filters, keys);
    HeadArgs(r, role);
    SearchFormsArgs(pg, r, search, n);
    FilterFormsArgs(pg, keys, n + |SearchArgs(r, search)|);
    ConcatCounts(Head(r, role), |Head(r, role)|, SearchForms(pg, r, search, n), |SearchArgs(r, search)|);
    ConcatCounts(Head(r, role) + SearchForms(pg, r, search, n), |Head(r, role)| + |SearchArgs(r, search)|,
                 FilterForms(pg, keys, n + |SearchArgs(r, search)|), |keys|);
  }

  /******* The clauses mean what was asked *******/

  lemma Folded(v: string)
    ensures Fold("%" + v + "%") == "%" + Fold(v) + "%"
    ensures Fold(v + "%") == Fold(v) + "%" && Fold("%" + v) == "%" + Fold(v)
  {}

  lemma LikeMeans(value: string, text: string)
    ensures LikeMatch(Fold("%" + value + "%"), Fold(text)) <==> Has(value, text)
    ensures LikeMatch(Fold(value + "%"), Fold(text)) <==> StartsWith(value, text)
    ensures LikeMatch(Fold("%" + value), Fold(text)) <==> EndsWith(value, text)
  {
    if MetaFree(value) {
      Folded(value);
      FoldKeepsMeta(value);
      LikeContains(Fold(value), Fold(text));
      LikeStarts(Fold(value), Fold(text));
      LikeEnds(Fold(value), Fold(text));
    }
  }

  lemma LikeTestHolds(pg: bool, column: string, n: nat, row: Row, args: seq<Value>, le: Order)
    requires 1 <= n <= |args| && args[n - 1].Str?
    ensures TestHolds(LikeTest(pg, column, n), row, args, le)
       <==> !Field(row, column).Null? && LikeMatch(Fold(args[n - 1].text), Fold(TextOf(Field(row, column))))
  {
    SideValue(column, n, row, args);
  }

  lemma SideValue(column: string, n: nat, row: Row, args: seq<Value>)
    requires 1 <= n <= |args|
    ensures var v := Field(row, column);
      && OperandValue(Col(column), row, args) == v && OperandValue(Arg(n), row, args) == args[n - 1]
      && OperandValue(AsText(Col(column)), row, args) == (if v.Null? then Null else Str(TextOf(v)))
  {}

  lemma FilterTestHolds(pg: bool, c: string, op: FilterOp, value: string, n: nat, row: Row, args: seq<Value>, le: Order)
    requires 1 <= n <= |args| && args[n - 1] == FilterArg(op, value)
    ensures TestHolds(FilterTest(pg, c, op, n), row, args, le) <==> Meets(pg, op, value, Field(row, c), le)
  {
    hide LikeMatch, Fold, Has, StartsWith, EndsWith;
    LikeTestHolds(pg, c, n, row, args, le);
    SideValue(c, n, row, args);
    if !Field(row, c).Null? { LikeMeans(value, TextOf(Field(row, c))); }
  }

  lemma SearchHolds(pg: bool, columns: seq<string>, search: string, n: nat, row: Row, args: seq<Value>, le: Order)
    requires n >= 1 && n - 1 + |columns| <= |args|
    requires args[n - 1..n - 1 + |columns|] == seq(|columns|, _ => Str("%" + search + "%"))
    ensures ClauseHolds(Any(SearchTests(pg, columns, n)), row, args, le) <==> Found(columns, search, row)
  {
    hide LikeMatch, Fold, Has, TextOf;
    var tests := SearchTests(pg, columns, n);
    forall i | 0 <= i < |columns|
      ensures TestHolds(tests[i], row, args, le)
         <==> !Field(row, columns[i]).Null? && Has(search, TextOf(Field(row, columns[i])))
    {
      assert args[n - 1 + i] == args[n - 1..n - 1 + |columns|][i];
      LikeTestHolds(pg, columns[i], n + i, row, args, le);
      if !Field(row, columns[i]).Null? { LikeMeans(search, TextOf(Field(row, columns[i]))); }
    }
  }

  lemma FiltersHold(pg: bool, filters: map<string, string>, keys: seq<string>, n: nat, row: Row, args: seq<Value>,
                    le: Order)
    requires forall i :: 0 <= i < |keys| ==> keys[i] in filters
    requires n >= 1 && n - 1 + |keys| <= |args| && args[n - 1..n - 1 + |keys|] == FilterArgs(filters, keys)
    ensures (forall i :: 0 <= i < |FilterForms(pg, keys, n)| ==>
             ClauseHolds(FilterForms(pg, keys, n)[i], row, args, le))
       <==> forall k :: k in keys ==> Meets(pg, OpOf(k), filters[k], Field(row, FieldOf(k)), le)
  {
    hide Meets, OpOf, FieldOf, FilterArg, FilterTest;
    forall i | 0 <= i < |keys|
      ensures ClauseHolds(FilterForms(pg, keys, n)[i], row, args, le)
         <==> Meets(pg, OpOf(keys[i]), filters[keys[i]], Field(row, FieldOf(keys[i])), le)
    {
      assert args[n - 1 + i] == args[n - 1..n - 1 + |keys|][i];
      FilterTestHolds(pg, FieldOf(keys[i]), OpOf(keys[i]), filters[keys[i]], n + i, row, args, le);
    }
  }

  /** A walk of the filter map: every key once, in an order the runtime picks. */
  predicate IsWalk(order: seq<string>, filters: map<string, string>) {
    Distinct(order) && (forall k :: k in order ==> k in filters) && forall k :: k in filters ==> k in order
  }

  ghost predicate NoneRefused(r: ResourceMeta, filters: map<string, string>) {
    forall k :: k in filters ==> !Refused(r, k, filters[k])
  }

  lemma ArgsParts(r: ResourceMeta, tenant: string, role: string, search: string, filters: map<string, string>,
                  keys: seq<string>, more: seq<Value>)
    requires forall i :: 0 <= i < |keys| ==> keys[i] in filters
    ensures var args, n := Args(r, tenant, role, search, filters, keys) + more, |Head(r, role)|;
      var m := n + |SearchArgs(r, search)|;
      && (Scoped(r, role) ==> args[0] == Str(tenant))
      && m + |keys| <= |args| && args[n..m] == SearchArgs(r, search) && args[m..m + |keys|] == FilterArgs(filters, keys)
  {}

  /** Whatever the order of the walk, and whatever arguments follow, the clauses select exactly
      the rows asked for. */
  lemma FormsMean(pg: bool, r: ResourceMeta, tenant: string, role: string, search: string, filters: map<string, string>,
                  order: seq<string>, more: seq<Value>, row: Row, le: Order)
    requires IsWalk(order, filters) && NoneRefused(r, filters)
    ensures var keys := Active(filters, order);
      WritableClauses(Forms(pg, r, role, search, keys)) &&
      (Selected(FilterExpr(Forms(pg, r, role, search, keys)), row,
                Args(r, tenant, role, search, filters, keys) + more, le)
       <==> Wanted(pg, r, tenant, role, search, filters, row, le))
  {
    hide ClauseHolds, Meets, ClausesArgs, WritableClauses, FilterForms, SearchForms, Head, FilterArgs, SearchArgs,
      Found, Owned, OpOf, FieldOf, Selected, FilterExpr, Active, Distinct;
    var keys := Active(filters, order);
    var args := Args(r, tenant, role, search, filters, keys) + more;
    var n := |Head(r, role)| + 1;
    var m := n + |SearchArgs(r, search)|;
    PlaceholdersCount(pg, r, tenant, role, search, filters, keys);
    ArgsParts(r, tenant, role, search, filters, keys, more);
    AllHold(Forms(pg, r, role, search, keys), row, args, le);
    SplitForall(Forms(pg, r, role, search, keys), Head(r, role), SearchForms(pg, r, search, n),
                FilterForms(pg, keys, m), row, args, le);
    HeadHolds(r, tenant, role, row, args, le);
    SearchFormsHold(pg, r, search, n, row, args, le);
    FiltersHold(pg, filters, keys, m, row, args, le);
    assert forall k :: k in keys <==> k in filters && filters[k] != "";
  }

  lemma HeadHolds(r: ResourceMeta, tenant: string, role: string, row: Row, args: seq<Value>, le: Order)
    requires Scoped(r, role) ==> args != [] && args[0] == Str(tenant)
    ensures (forall i :: 0 <= i < |Head(r, role)| ==> ClauseHolds(Head(r, role)[i], row, args, le))
       <==> (Scoped(r, role) ==> Owned(r, tenant, row))
  {
    if Scoped(r, role) {
      SideValue(r.tenantKey, 1, row, args);
      assert Head(r, role)[0] == Single(Test(Col(r.tenantKey), Eq, Arg(1)));
    }
  }

  lemma SearchFormsHold(pg: bool, r: ResourceMeta, search: string, n: nat, row: Row, args: seq<Value>, le: Order)
    requires n >= 1 && n - 1 + |SearchArgs(r, search)| <= |args|
    requires args[n - 1..n - 1 + |SearchArgs(r, search)|] == SearchArgs(r, search)
    ensures (forall i :: 0 <= i < |SearchForms(pg, r, search, n)| ==>
             ClauseHolds(SearchForms(pg, r, search, n)[i], row, args, le))
       <==> (search != "" && SearchColumns(r.fields) != [] ==> Found(SearchColumns(r.fields), search, row))
  {
    if search != "" && SearchColumns(r.fields) != [] {
      SearchHolds(pg, SearchColumns(r.fields), search, n, row, args, le);
      assert SearchForms(pg, r, search, n)[0] == Any(SearchTests(pg, SearchColumns(r.fields), n));
    }
  }
}
