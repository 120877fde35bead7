/** The WHERE builder of the SQL stores: clause texts and arguments, appended one by one, that
    spell exactly the clauses a list request means (the Postgres store with `$n`, the
    database/sql store with `?`). */
module WhereBuilder {
  import opened Wrappers
  import opened Text
  import opened Resources
  import opened SqlLexer
  import opened SqlSyntax
  import opened SqlText
  import opened SqlMeaning
  import opened ListFilters
  import opened StoreSpec

  /******* Building the WHERE text *******/

  /** Case-insensitive matching, as each dialect writes it. */
  function LikeText(d: Dialect, column: string, n: nat): string {
    if d.Postgres? then QuoteIdent(d, column) + "::text ilike " + Placeholder(d, n)
    else "lower(cast(" + QuoteIdent(d, column) + " as char)) like lower(" + Placeholder(d, n) + ")"
  }

  function EqText(d: Dialect, column: string, n: nat): string {
    if d.Postgres? then QuoteIdent(d, column) + "::text = " + Placeholder(d, n)
    else "cast(" + QuoteIdent(d, column) + " as char) = " + Placeholder(d, n)
  }

  function RangeText(d: Dialect, column: string, op: string, n: nat): string {
    if d.Postgres? then QuoteIdent(d, column) + "::text " + op + " " + Placeholder(d, n)
    else QuoteIdent(d, column) + " " + op + " " + Placeholder(d, n)
  }

  lemma LoweredText(d: Dialect, column: string, p: string, lower: string, cast: string, close: string, paren: string,
                    like: string, all: string)
    requires lower == "lower(" && cast == "cast(" && close == " as char)" && paren == ")" && like == " like "
    requires all == lower + (cast + QuoteIdent(d, column) + close) + paren + like + (lower + p + paren)
    ensures all == "lower(cast(" + QuoteIdent(d, column) + " as char)) like lower(" + p + ")"
  {
    assert lower + cast == "lower(cast(" && close + paren + like + lower == " as char)) like lower(";
    assert all == (lower + cast) + QuoteIdent(d, column) + (close + paren + like + lower) + p + paren;
  }

  lemma LikeTextIs(d: Dialect, column: string, n: nat)
    ensures LikeText(d, column, n) == TestText(d, LikeTest(d.Postgres?, column, n))
  {
    var q, p := QuoteIdent(d, column), Placeholder(d, n);
    hide QuoteIdent, Placeholder;
    if d.Postgres? {
      assert q + "::text ilike " + p == q + "::text" + (" " + "ilike" + " ") + p;
    } else {
      var t := LikeTest(false, column, n);
      assert OperandText(d, t.left) == "lower(" + ("cast(" + q + " as char)") + ")";
      assert OperandText(d, t.right) == "lower(" + p + ")";
      LoweredText(d, column, p, "lower(", "cast(", " as char)", ")", " like ", TestText(d, t));
    }
  }

  lemma EqTextIs(d: Dialect, column: string, n: nat)
    ensures EqText(d, column, n) == TestText(d, FilterTest(d.Postgres?, column, IsEqual, n))
  {
    var q, p := QuoteIdent(d, column), Placeholder(d, n);
    if d.Postgres? {
      assert q + "::text = " + p == q + "::text" + (" " + "=" + " ") + p;
    } else {
      assert "cast(" + q + " as char) = " + p == "cast(" + q + " as char)" + (" " + "=" + " ") + p;
    }
  }

  predicate IsRange(op: FilterOp) { op.AtLeast? || op.AtMost? || op.Above? || op.Below? }

  function RangeOp(op: FilterOp): string {
    match op case AtLeast => ">=" case AtMost => "<=" case Above => ">" case _ => "<"
  }

  lemma RangeTextIs(d: Dialect, column: string, op: FilterOp, n: nat)
    requires IsRange(op)
    ensures RangeText(d, column, RangeOp(op), n) == TestText(d, FilterTest(d.Postgres?, column, op, n))
  {
    var q, p, text := QuoteIdent(d, column), Placeholder(d, n), RangeOp(op);
    assert OpText(FilterTest(d.Postgres?, column, op, n).op) == text;
    if d.Postgres? {
      assert q + "::text " + text + " " + p == q + "::text" + (" " + text + " ") + p;
    } else {
      assert q + " " + text + " " + p == q + (" " + text + " ") + p;
    }
  }

  /** The text of a filter's clause, in each dialect, for a column without quotes in its name. */
  lemma FilterTextExactly(d: Dialect, column: string, operator: string, n: nat)
    requires ParseOperator(operator).Some?
    requires forall i :: 0 <= i < |column| ==> column[i] != '"' && column[i] != '`'
    ensures var quoted := if d.MySQL? then "`" + column + "`" else "\"" + column + "\"";
      var arg := if d.Postgres? then "$" + Decimal(n) else "?";
      TestText(d, FilterTest(d.Postgres?, column, ParseOperator(operator).value, n)) ==
        if operator in ["contains", "starts_with", "ends_with"] then
          (if d.Postgres? then quoted + "::text ilike " + arg
           else "lower(cast(" + quoted + " as char)) like lower(" + arg + ")")
        else if operator == "eq" then
          (if d.Postgres? then quoted + "::text = " + arg else "cast(" + quoted + " as char) = " + arg)
        else
          (if d.Postgres? then quoted + "::text " else quoted + " ") +
            (if operator == "gte" then ">=" else if operator == "lte" then "<=" else if operator == "gt" then ">"
             else "<") + " " + arg
  {
    hide Decimal, TestText;
    DoubledClean(QuoteChar(d), column);
    var op := ParseOperator(operator).value;
    if operator == "eq" {
      EqTextIs(d, column, n);
    } else if IsRange(op) {
      RangeTextIs(d, column, op, n);
      PartsTogether(QuoteIdent(d, column), "::text", RangeOp(op), Placeholder(d, n));
      assert "::text" + " " == "::text ";
    } else {
      LikeTextIs(d, column, n);
      assert FilterTest(d.Postgres?, column, op, n) == LikeTest(d.Postgres?, column, n);
    }
  }

  lemma PartsTogether(q: string, cast: string, op: string, p: string)
    ensures q + cast + " " + op + " " + p == q + (cast + " ") + op + " " + p
  {}

  /** The parts of a search, one for each searchable column that is shown. */
  method SearchParts(d: Dialect, r: ResourceMeta, search: string, given: seq<Value>)
    returns (parts: seq<string>, args: seq<Value>)
    ensures var columns := SearchColumns(r.fields);
      |parts| == |columns| && args == given + seq(|columns|, _ => Str("%" + search + "%"))
      && forall j :: 0 <= j < |columns| ==> parts[j] == TestText(d, SearchTests(d.Postgres?, columns, |given| + 1)[j])
  {
    hide TestText, LikeText;
    parts, args := [], given;
    for i := 0 to |r.fields|
      invariant var columns := SearchColumns(r.fields[..i]);
        |parts| == |columns| && args == given + seq(|columns|, _ => Str("%" + search + "%"))
        && forall j :: 0 <= j < |columns| ==> parts[j] == TestText(d, SearchTests(d.Postgres?, columns, |given| + 1)[j])
    {
      var f := r.fields[i];
      assert r.fields[..i + 1][..i] == r.fields[..i];
      if f.searchable && !f.hidden {
        args := args + [Str("%" + search + "%")];
        parts := parts + [LikeText(d, f.sqlName, |args|)];
        LikeTextIs(d, f.sqlName, |args|);
      }
    }
    assert r.fields[..|r.fields|] == r.fields;
  }

  /** One filter: its clause text for the n-th argument, and that argument. */
  method FilterPart(d: Dialect, r: ResourceMeta, key: string, value: string, n: nat)
    returns (res: Result<(string, Value), StoreError>)
    requires value != ""
    ensures res.Failure? <==> Refused(r, key, value)
    ensures res.Success? ==>
      (res.value == (TestText(d, FilterTest(d.Postgres?, FieldOf(key), OpOf(key), n)), FilterArg(OpOf(key), value)))
  {
    var fieldName, operator := key, "eq";
    var cut := Cut(key, "::");
    if cut.found { fieldName, operator := cut.before, cut.after; }
    var f := FieldBySQLName(r.fields, fieldName);
    if f.None? || !f.value.filterable { return Failure(NotFilterable(fieldName)); }
    var op := ParseOperator(operator);
    if op.None? { return Failure(UnsupportedOperator(operator)); }
    match op.value {
      case IsEqual =>
        EqTextIs(d, fieldName, n);
        return Success((EqText(d, fieldName, n), Str(value)));
      case HasPart =>
        LikeTextIs(d, fieldName, n);
        return Success((LikeText(d, fieldName, n), Str("%" + value + "%")));
      case HasStart =>
        LikeTextIs(d, fieldName, n);
        return Success((LikeText(d, fieldName, n), Str(value + "%")));
      case HasEnd =>
        LikeTextIs(d, fieldName, n);
        return Success((LikeText(d, fieldName, n), Str("%" + value)));
      case _ =>
        RangeTextIs(d, fieldName, op.value, n);
        return Success((RangeText(d, fieldName, RangeOp(op.value), n), Str(value)));
    }
  }

  lemma SpellsTenant(d: Dialect, r: ResourceMeta, role: string)
    requires Scoped(r, role)
    ensures SpellsEach(d, [EqualsText(d, r.tenantKey, 1)], Head(r, role))
  {
    SpellsSet(d, (r.tenantKey, 1));
    assert TestTokens(d.Postgres?, Test(Col(r.tenantKey), Eq, Arg(1))) == SetTokens((r.tenantKey, 1)) by {
      assert OperandTokens(d.Postgres?, Col(r.tenantKey)) == [Name(r.tenantKey)];
      assert OperandTokens(d.Postgres?, Arg(1)) == [Param(1)];
    }
  }

  lemma FormsOneMore(pg: bool, keys: seq<string>, key: string, n: nat)
    ensures FilterForms(pg, keys + [key], n) ==
      FilterForms(pg, keys, n) + [Single(FilterTest(pg, FieldOf(key), OpOf(key), n + |keys|))]
  {
    hide FilterTest, FieldOf, OpOf;
    var all := FilterForms(pg, keys + [key], n);
    assert all[|keys|] == Single(FilterTest(pg, FieldOf(key), OpOf(key), n + |keys|));
    forall i | 0 <= i < |keys| ensures all[i] == FilterForms(pg, keys, n)[i] {}
  }

  lemma ArgsOneMore(filters: map<string, string>, keys: seq<string>, key: string)
    requires (forall i :: 0 <= i < |keys| ==> keys[i] in filters) && key in filters
    ensures FilterArgs(filters, keys + [key]) == FilterArgs(filters, keys) + [FilterArg(OpOf(key), filters[key])]
  {
    hide FilterArg, OpOf;
    var all := FilterArgs(filters, keys + [key]);
    assert all[|keys|] == FilterArg(OpOf(key), filters[key]);
    forall i | 0 <= i < |keys| ensures all[i] == FilterArgs(filters, keys)[i] {}
  }

  /** The tenant and search clauses, with their arguments. */
  method Opening(d: Dialect, r: ResourceMeta, tenant: string, role: string, search: string)
    returns (clauses: seq<string>, args: seq<Value>)
    ensures args == (if Scoped(r, role) then [Str(tenant)] else []) + SearchArgs(r, search)
    ensures SpellsEach(d, clauses, Head(r, role) + SearchForms(d.Postgres?, r, search, |Head(r, role)| + 1))
  {
    hide Spells, TestText, SearchTests, SearchColumns, Placeholder, QuoteIdent, Join;
    clauses, args := [], [];
    if r.tenantKey != "" && role != SUPER_ADMIN {
      args := args + [Str(tenant)];
      clauses := clauses + [EqualsText(d, r.tenantKey, |args|)];
      SpellsTenant(d, r, role);
    }
    assert SpellsEach(d, clauses, Head(r, role));
    hide SpellsEach, Head, Scoped;
    if search != "" {
      var parts;
      ghost var n := |args| + 1;
      parts, args := SearchParts(d, r, search, args);
      if |parts| > 0 {
        SpellsSearch(d, r, search, parts, n);
        SpellsOneMore(d, clauses, Head(r, role), "(" + Join(parts, " or ") + ")",
                      Any(SearchTests(d.Postgres?, SearchColumns(r.fields), n)));
        clauses := clauses + ["(" + Join(parts, " or ") + ")"];
        return;
      }
    }
    assert SearchForms(d.Postgres?, r, search, |Head(r, role)| + 1) == [];
    assert Head(r, role) + [] == Head(r, role);
  }

  lemma SpellsSearch(d: Dialect, r: ResourceMeta, search: string, parts: seq<string>, n: nat)
    requires var columns := SearchColumns(r.fields);
      |parts| == |columns| > 0 && forall j :: 0 <= j < |columns| ==>
        parts[j] == TestText(d, SearchTests(d.Postgres?, columns, n)[j])
    ensures Spells(d, "(" + Join(parts, " or ") + ")",
                   ClauseTokens(d.Postgres?, Any(SearchTests(d.Postgres?, SearchColumns(r.fields), n))))
  {
    SearchTestsArgs(d.Postgres?, SearchColumns(r.fields), n);
    SpellsAny(d, parts, SearchTests(d.Postgres?, SearchColumns(r.fields), n));
  }

  /** What the walk has compiled so far, after the opening clauses: texts for the forms, and
      the arguments, of the active filters met. */
  ghost predicate Compiled(d: Dialect, base: seq<Clause>, given: seq<Value>, filters: map<string, string>,
                           keys: seq<string>, clauses: seq<string>, args: seq<Value>)
  {
    && (forall i :: 0 <= i < |keys| ==> keys[i] in filters)
    && SpellsEach(d, clauses, base + FilterForms(d.Postgres?, keys, |given| + 1))
    && args == given + FilterArgs(filters, keys)
  }

  lemma SpellsFilterTest(d: Dialect, key: string, n: nat, text: string)
    requires text == TestText(d, FilterTest(d.Postgres?, FieldOf(key), OpOf(key), n))
    ensures Spells(d, text, ClauseTokens(d.Postgres?, Single(FilterTest(d.Postgres?, FieldOf(key), OpOf(key), n))))
  {
    TestArgsOne(d.Postgres?, FieldOf(key), OpOf(key), n);
    SpellsTest(d, FilterTest(d.Postgres?, FieldOf(key), OpOf(key), n));
  }

  lemma CompiledOneMore(d: Dialect, base: seq<Clause>, given: seq<Value>, filters: map<string, string>,
                        keys: seq<string>, clauses: seq<string>, args: seq<Value>, key: string, text: string)
    requires Compiled(d, base, given, filters, keys, clauses, args) && key in filters
    requires text == TestText(d, FilterTest(d.Postgres?, FieldOf(key), OpOf(key), |args| + 1))
    ensures Compiled(d, base, given, filters, keys + [key], clauses + [text],
                     args + [FilterArg(OpOf(key), filters[key])])
  {
    hide SpellsEach, Spells, FilterTest, FilterArg, TestText, FieldOf, OpOf;
    var forms, more, n := FilterForms(d.Postgres?, keys, |given| + 1), FilterArgs(filters, keys), |given| + 1 + |keys|;
    var c, arg := Single(FilterTest(d.Postgres?, FieldOf(key), OpOf(key), n)), FilterArg(OpOf(key), filters[key]);
    assert n == |args| + 1;
    SpellsFilterTest(d, key, n, text);
    OneMore(d, base, given, forms, more, clauses, args, text, c, arg);
    FormsOneMore(d.Postgres?, keys, key, |given| + 1);
    ArgsOneMore(filters, keys, key);
    assert FilterForms(d.Postgres?, keys + [key], |given| + 1) == forms + [c];
    assert FilterArgs(filters, keys + [key]) == more + [arg];
  }

  lemma OneMore(d: Dialect, base: seq<Clause>, given: seq<Value>, forms: seq<Clause>, more: seq<Value>,
                clauses: seq<string>, args: seq<Value>, text: string, c: Clause, arg: Value)
    requires SpellsEach(d, clauses, base + forms) && args == given + more
    requires Spells(d, text, ClauseTokens(d.Postgres?, c))
    ensures SpellsEach(d, clauses + [text], base + (forms + [c])) && args + [arg] == given + (more + [arg])
  {
    SpellsOneMore(d, clauses, base + forms, text, c);
    assert base + forms + [c] == base + (forms + [c]);
  }

  /** Adds the clause and argument of one filter, unless its value is empty. */
  method CompileOne(d: Dialect, r: ResourceMeta, filters: map<string, string>, key: string, ghost base: seq<Clause>,
                    ghost given: seq<Value>, ghost keys: seq<string>, clauses: seq<string>, args: seq<Value>)
    returns (res: Result<(seq<string>, seq<Value>), StoreError>)
    requires key in filters && Compiled(d, base, given, filters, keys, clauses, args)
    ensures res.Failure? <==> Refused(r, key, filters[key])
    ensures res.Success? ==>
      Compiled(d, base, given, filters, keys + (if filters[key] == "" then [] else [key]), res.value.0, res.value.1)
  {
    var value := filters[key];
    if value == "" {
      assert keys + [] == keys;
      return Success((clauses, args));
    }
    var part := FilterPart(d, r, key, value, |args| + 1);
    if part.Failure? { return Failure(part.error); }
    CompiledOneMore(d, base, given, filters, keys, clauses, args, key, part.value.0);
    return Success((clauses + [part.value.0], args + [part.value.1]));
  }

  /** Walks the filter map in whatever order comes; the first refused filter ends the walk. */
  method CompileFilters(d: Dialect, r: ResourceMeta, filters: map<string, string>, ghost base: seq<Clause>,
                        opening: seq<string>, given: seq<Value>)
    returns (res: Result<(seq<string>, seq<Value>), StoreError>, ghost order: seq<string>)
    requires SpellsEach(d, opening, base)
    ensures res.Failure? <==> !NoneRefused(r, filters)
    ensures res.Success? ==>
      IsWalk(order, filters) && Compiled(d, base, given, filters, Active(filters, order), res.value.0, res.value.1)
  {
    res, order := Success((opening, given)), [];
    StartsCompiled(d, base, given, filters, opening);
    assert Active(filters, order) == [];
    hide Compiled, Refused, Active;
    var remaining := filters.Keys;
    while remaining != {}
      invariant res.Success?
      invariant Distinct(order) && remaining <= filters.Keys
      invariant forall k :: k in order <==> k in filters && k !in remaining
      invariant forall k :: k in order ==> !Refused(r, k, filters[k])
      invariant Compiled(d, base, given, filters, Active(filters, order), res.value.0, res.value.1)
      decreases |remaining|
    {
      var key :| key in remaining;
      res := CompileOne(d, r, filters, key, base, given, Active(filters, order), res.value.0, res.value.1);
      if res.Failure? { return; }
      ActiveStep(filters, order, key);
      order := order + [key];
      remaining := remaining - {key};
    }
  }

  /** The WHERE text and its arguments. */
  method BuildWhere(d: Dialect, r: ResourceMeta, tenant: string, role: string, search: string,
                    filters: map<string, string>)
    returns (res: Result<(string, seq<Value>), StoreError>, ghost order: seq<string>)
    ensures res.Failure? <==> !NoneRefused(r, filters)
    ensures res.Success? ==> (
      && IsWalk(order, filters)
      && res.value.1 == Args(r, tenant, role, search, filters, Active(filters, order))
      && SpellsFilter(d, res.value.0, Forms(d.Postgres?, r, role, search, Active(filters, order))))
  {
    var clauses, args := Opening(d, r, tenant, role, search);
    var compiled;
    compiled, order := CompileFilters(d, r, filters,
                                      Head(r, role) + SearchForms(d.Postgres?, r, search, |Head(r, role)| + 1), clauses,
                                      args);
    if compiled.Failure? { return Failure(compiled.error), order; }
    clauses, args := compiled.value.0, compiled.value.1;
    EndsCompiled(d, r, tenant, role, search, filters, Active(filters, order), clauses, args);
    res := Success((if clauses == [] then "" else " where " + Join(clauses, " and "), args));
  }

  lemma StartsCompiled(d: Dialect, base: seq<Clause>, given: seq<Value>, filters: map<string, string>,
                       clauses: seq<string>)
    requires SpellsEach(d, clauses, base)
    ensures Compiled(d, base, given, filters, [], clauses, given)
  {
    assert FilterForms(d.Postgres?, [], |given| + 1) == [] && FilterArgs(filters, []) == [];
    assert base + [] == base && given + [] == given;
  }

  lemma WhereParts(pg: bool, r: ResourceMeta, tenant: string, role: string, search: string,
                   filters: map<string, string>, keys: seq<string>)
    requires forall i :: 0 <= i < |keys| ==> keys[i] in filters
    ensures var given := (if Scoped(r, role) then [Str(tenant)] else []) + SearchArgs(r, search);
      && given + FilterArgs(filters, keys) == Args(r, tenant, role, search, filters, keys)
      && Head(r, role) + SearchForms(pg, r, search, |Head(r, role)| + 1) + FilterForms(pg, keys, |given| + 1)
         == Forms(pg, r, role, search, keys)
  {
    hide FilterForms, SearchForms, SearchArgs, FilterArgs;
  }

  lemma EndsCompiled(d: Dialect, r: ResourceMeta, tenant: string, role: string, search: string,
                     filters: map<string, string>, keys: seq<string>, clauses: seq<string>, args: seq<Value>)
    requires Compiled(d, Head(r, role) + SearchForms(d.Postgres?, r, search, |Head(r, role)| + 1),
                      (if Scoped(r, role) then [Str(tenant)] else []) + SearchArgs(r, search), filters,
                        keys, clauses, args)
    ensures args == Args(r, tenant, role, search, filters, keys)
    ensures SpellsFilter(d, if clauses == [] then "" else " where " + Join(clauses, " and "),
                         Forms(d.Postgres?, r, role, search, keys))
  {
    hide Spells, SpellsEach, SearchForms, SearchArgs, FilterForms, FilterArgs, Join, Head, SpellsFilter, Forms, Args;
    WhereParts(d.Postgres?, r, tenant, role, search, filters, keys);
    SpellsWhole(d, clauses, Forms(d.Postgres?, r, role, search, keys),
                if clauses == [] then "" else " where " + Join(clauses, " and "));
  }
}
