/** The query parser: page, search, sorts and filters out of URL parameters, admitting only
    what the metadata allows. */
module QueryFilters {
  import opened Wrappers
  import opened Text
  import opened Pagination

  datatype FieldType =
    | TypeString
    | TypeNumber
    | TypeBoolean
    | TypeEnum
    | TypeDate
    | TypeDateTime
    | TypeJSONB
    | TypeRelation
    | OtherType

  datatype AllowedField = AllowedField(name: string, column: string, kind: FieldType, searchable: bool,
                                       sortable: bool, filterable: bool)

  type AllowedFields = map<string, AllowedField>

  datatype Sort = Sort(field: string, desc: bool)

  datatype Filter = Filter(field: string, operator: string, value: string)

  datatype Query = Query(page: Page, search: string, sorts: seq<Sort>, filters: seq<Filter>)

  function DefaultOperator(kind: FieldType): string { if kind.TypeString? || kind.TypeJSONB? then "contains" else "eq" }

  predicate OperatorAllowed(kind: FieldType, operator: string) {
    match operator
    case "eq" => true
    case "contains" => kind.TypeString? || kind.TypeJSONB?
    case "starts_with" => kind.TypeString? || kind.TypeJSONB?
    case "ends_with" => kind.TypeString? || kind.TypeJSONB?
    case "gte" => kind.TypeNumber? || kind.TypeDate? || kind.TypeDateTime?
    case "lte" => kind.TypeNumber? || kind.TypeDate? || kind.TypeDateTime?
    case "gt" => kind.TypeNumber? || kind.TypeDate? || kind.TypeDateTime?
    case "lt" => kind.TypeNumber? || kind.TypeDate? || kind.TypeDateTime?
    case "in" => kind.TypeEnum? || kind.TypeRelation?
    case _ => false
  }

  /******* Filter keys *******/

  const FILTER := "filter["

  /** `filter[f]` and `filter[f][op]`; anything after a second bracket pair is ignored. */
  function ParseFilterKey(key: string): Option<(string, string)> {
    if !HasPrefix(key, FILTER) || !HasSuffix(key, "]") then None
    else
      var parts := Split(TrimPrefix(key, FILTER), "][");
      var field := TrimSuffix(parts[0], "]");
      if field == "" then None
      else Some((field, if |parts| > 1 then TrimSuffix(parts[1], "]") else ""))
  }

  /******* Sorts *******/

  predicate SortAllowed(allowed: AllowedFields, s: Sort) { s.field in allowed && allowed[s.field].sortable }

  predicate RefusedSort(allowed: AllowedFields, part: string) {
    part != "" && !SortAllowed(allowed, Sort(TrimPrefix(part, "-"), HasPrefix(part, "-")))
  }

  predicate FilterAllowed(allowed: AllowedFields, f: Filter) {
    f.field in allowed && allowed[f.field].filterable && OperatorAllowed(allowed[f.field].kind, f.operator)
  }

  /** The sorts named by the parts that are not blank, in order. */
  function SortsOf(parts: seq<string>): seq<Sort> {
    if parts == [] then []
    else
      var n := |parts| - 1;
      var part := TrimSpace(parts[n]);
      SortsOf(parts[..n]) + (if part == "" then [] else [Sort(TrimPrefix(part, "-"), HasPrefix(part, "-"))])
  }

  predicate SortsRefused(value: string, allowed: AllowedFields) {
    TrimSpace(value) != "" && exists i ::
      0 <= i < |Split(value, ",")| && RefusedSort(allowed, TrimSpace(Split(value, ",")[i]))
  }

  method ParseSort(value: string, allowed: AllowedFields) returns (res: Result<seq<Sort>, string>)
    ensures res.Failure? <==> SortsRefused(value, allowed)
    ensures res.Success? ==> res.value == if TrimSpace(value) == "" then [] else SortsOf(Split(value, ","))
    ensures res.Success? ==> forall i :: 0 <= i < |res.value| ==> SortAllowed(allowed, res.value[i])
  {
    hide TrimSpace, Split, HasPrefix;
    if TrimSpace(value) == "" { return Success([]); }
    var parts := Split(value, ",");
    var sorts: seq<Sort> := [];
    for i := 0 to |parts|
      invariant sorts == SortsOf(parts[..i])
      invariant forall j :: 0 <= j < |sorts| ==> SortAllowed(allowed, sorts[j])
      invariant forall j :: 0 <= j < i ==> !RefusedSort(allowed, TrimSpace(parts[j]))
    {
      assert parts[..i + 1][..i] == parts[..i];
      var part := TrimSpace(parts[i]);
      if part == "" { continue; }
      var desc := HasPrefix(part, "-");
      var field := TrimPrefix(part, "-");
      if field !in allowed || !allowed[field].sortable { return Failure("field is not sortable"); }
      sorts := sorts + [Sort(field, desc)];
    }
    assert parts[..|parts|] == parts;
    res := Success(sorts);
  }

  /** How a client writes sorts: the fields with commas between them, a minus sign before a descending one. */
  function SortTexts(sorts: seq<Sort>): seq<string> {
    seq(|sorts|, i requires 0 <= i < |sorts| => (if sorts[i].desc then "-" else "") + sorts[i].field)
  }

  /** A field that has no comma, no white space at its ends and, where it is not descending, no minus sign
      in front. */
  predicate PlainSort(s: Sort) {
    && s.field != "" && ',' !in s.field && !IsSpace(s.field[0]) && !IsSpace(s.field[|s.field| - 1])
    && (s.desc || s.field[0] != '-')
  }

  lemma SortTextReads(s: Sort)
    requires PlainSort(s)
    ensures var text := (if s.desc then "-" else "") + s.field;
      TrimSpace(text) == text != "" && ',' !in text && Sort(TrimPrefix(text, "-"), HasPrefix(text, "-")) == s
  {
    var text := (if s.desc then "-" else "") + s.field;
    assert text[|text| - 1] == s.field[|s.field| - 1];
    if s.desc {
      assert text[0] == '-' && text[1..] == s.field;
    } else {
      assert text == s.field;
    }
    TrimKeeps(text);
  }

  lemma {:induction false} SortsOfTexts(sorts: seq<Sort>)
    requires forall i :: 0 <= i < |sorts| ==> PlainSort(sorts[i])
    ensures SortsOf(SortTexts(sorts)) == sorts
  {
    hide TrimSpace, TrimPrefix, HasPrefix, PlainSort;
    if sorts != [] {
      var n := |sorts| - 1;
      SortsOfTexts(sorts[..n]);
      SortTextReads(sorts[n]);
      assert SortTexts(sorts)[..n] == SortTexts(sorts[..n]);
      assert sorts[..n] + [sorts[n]] == sorts;
    }
  }

  /** Written sorts are read as they were meant: the fields in order, descending exactly after a minus sign. */
  lemma SortsRead(sorts: seq<Sort>)
    requires sorts != [] && forall i :: 0 <= i < |sorts| ==> PlainSort(sorts[i])
    ensures SortsOf(Split(Join(SortTexts(sorts), ","), ",")) == sorts
  {
    hide PlainSort, SortsOf;
    forall text | text in SortTexts(sorts) ensures ',' !in text {
      var i :| 0 <= i < |sorts| && SortTexts(sorts)[i] == text;
      SortTextReads(sorts[i]);
    }
    SplitJoin(SortTexts(sorts), ',');
    SortsOfTexts(sorts);
  }

  /******* Filters *******/

  /** The keys of a parameter map in sorted order. */
  method SortedKeys(values: Values) returns (keys: seq<string>)
    ensures StringsSorted(keys) && multiset(keys) == multiset(values.Keys)
  {
    keys := [];
    var remaining := values.Keys;
    while remaining != {}
      invariant remaining <= values.Keys && StringsSorted(keys)
      invariant multiset(keys) + multiset(remaining) == multiset(values.Keys)
      decreases |remaining|
    {
      var key :| key in remaining;
      remaining := remaining - {key};
      InsertSorted(key, keys);
      keys := InsertString(key, keys);
    }
  }

  /** What one parameter contributes: nothing, a filter, or an error. */
  function FilterFrom(key: string, given: seq<string>, allowed: AllowedFields): Result<Option<Filter>, string> {
    if !HasPrefix(key, FILTER) || given == [] || given[0] == "" then Success(None)
    else
      match ParseFilterKey(key)
      case None => Failure("invalid filter key")
      case Some((field, op)) =>
        if field !in allowed || !allowed[field].filterable then Failure("field is not filterable")
        else
          var operator := if op == "" then DefaultOperator(allowed[field].kind) else op;
          if !OperatorAllowed(allowed[field].kind, operator) then Failure("operator is not allowed")
          else Success(Some(Filter(field, operator, given[0])))
  }

  /** The filters in the order of their sorted keys; the first bad key is an error. */
  function FiltersFrom(keys: seq<string>, values: Values, allowed: AllowedFields): Result<seq<Filter>, string>
    requires forall i :: 0 <= i < |keys| ==> keys[i] in values
  {
    if keys == [] then Success([])
    else
      var n := |keys| - 1;
      match FiltersFrom(keys[..n], values, allowed)
      case Failure(e) => Failure(e)
      case Success(fs) =>
        match FilterFrom(keys[n], values[keys[n]], allowed)
        case Failure(e) => Failure(e)
        case Success(None) => Success(fs)
        case Success(Some(f)) => Success(fs + [f])
  }

  /** The keys of a parameter map, each once, in sorted order. */
  ghost predicate IsKeyOrder(keys: seq<string>, values: Values) {
    StringsSorted(keys) && multiset(keys) == multiset(values.Keys) && forall i :: 0 <= i < |keys| ==> keys[i] in values
  }

  predicate FiltersRefused(values: Values, allowed: AllowedFields) {
    exists key :: key in values && FilterFrom(key, values[key], allowed).Failure?
  }

  method ParseFilters(values: Values, allowed: AllowedFields)
    returns (res: Result<seq<Filter>, string>, ghost keys: seq<string>)
    ensures IsKeyOrder(keys, values) && res == FiltersFrom(keys, values, allowed)
    ensures res.Failure? <==> FiltersRefused(values, allowed)
  {
    hide ParseFilterKey, OperatorAllowed, HasPrefix, DefaultOperator;
    var sorted := SortedKeys(values);
    keys := sorted;
    forall i | 0 <= i < |keys| ensures keys[i] in values { assert keys[i] in multiset(keys); }
    var out: seq<Filter> := [];
    for i := 0 to |sorted|
      invariant FiltersFrom(keys[..i], values, allowed) == Success(out)
    {
      assert keys[..i + 1][..i] == keys[..i];
      var key := sorted[i];
      var value := values[key];
      var contributed: Option<Filter> := None;
      if HasPrefix(key, FILTER) && |value| > 0 && value[0] != "" {
        var parsed := ParseFilterKey(key);
        var error := "";
        if parsed.None? {
          error := "invalid filter key";
        } else {
          var (field, op) := parsed.value;
          if field !in allowed || !allowed[field].filterable {
            error := "field is not filterable";
          } else {
            if op == "" { op := DefaultOperator(allowed[field].kind); }
            if !OperatorAllowed(allowed[field].kind, op) { error := "operator is not allowed"; }
            contributed := Some(Filter(field, op, value[0]));
          }
        }
        if error != "" {
          FailureStays(keys, values, allowed, i + 1, error);
          FiltersFail(keys, values, allowed);
          return Failure(error), keys;
        }
      }
      if contributed.Some? { out := out + [contributed.value]; }
    }
    assert keys[..|keys|] == keys;
    FiltersFail(keys, values, allowed);
    res := Success(out);
  }

  /** Some key is refused exactly when the filters are. */
  lemma {:induction false} FiltersFailAt(keys: seq<string>, values: Values, allowed: AllowedFields)
    requires forall i :: 0 <= i < |keys| ==> keys[i] in values
    ensures FiltersFrom(keys, values, allowed).Failure?
       <==> exists i :: 0 <= i < |keys| && FilterFrom(keys[i], values[keys[i]], allowed).Failure?
  {
    hide FilterFrom;
    if keys != [] {
      var n := |keys| - 1;
      FiltersFailAt(keys[..n], values, allowed);
      assert forall i :: 0 <= i < n ==> keys[..n][i] == keys[i];
    }
  }

  lemma FiltersFail(keys: seq<string>, values: Values, allowed: AllowedFields)
    requires IsKeyOrder(keys, values)
    ensures FiltersFrom(keys, values, allowed).Failure? <==> FiltersRefused(values, allowed)
  {
    hide FilterFrom, FiltersFrom;
    FiltersFailAt(keys, values, allowed);
    if key :| key in values && FilterFrom(key, values[key], allowed).Failure? {
      assert key in multiset(keys);
      var i :| 0 <= i < |keys| && keys[i] == key;
      assert FilterFrom(keys[i], values[keys[i]], allowed).Failure?;
    }
  }

  lemma {:induction false} FailureStays(keys: seq<string>, values: Values, allowed: AllowedFields, n: nat,
                                        error: string)
    requires n <= |keys| && (forall i :: 0 <= i < |keys| ==> keys[i] in values)
    requires FiltersFrom(keys[..n], values, allowed) == Failure(error)
    ensures FiltersFrom(keys, values, allowed) == Failure(error)
  {
    if n == |keys| {
      assert keys[..n] == keys;
    } else {
      assert keys[..|keys| - 1][..n] == keys[..n];
      FailureStays(keys[..|keys| - 1], values, allowed, n, error);
    }
  }

  lemma FilterFromAllowed(key: string, given: seq<string>, allowed: AllowedFields)
    ensures var r := FilterFrom(key, given, allowed);
      r.Success? && r.value.Some? ==> FilterAllowed(allowed, r.value.value) && r.value.value.value != ""
  {}

  lemma {:induction false} FiltersAllowed(keys: seq<string>, values: Values, allowed: AllowedFields)
    requires forall i :: 0 <= i < |keys| ==> keys[i] in values
    ensures var r := FiltersFrom(keys, values, allowed);
      r.Success? ==> forall i :: 0 <= i < |r.value| ==> FilterAllowed(allowed, r.value[i]) && r.value[i].value != ""
  {
    if keys != [] {
      var n := |keys| - 1;
      FiltersAllowed(keys[..n], values, allowed);
      FilterFromAllowed(keys[n], values[keys[n]], allowed);
    }
  }

  /** The filters are exactly what the keys contribute. */
  lemma {:induction false} FiltersAre(keys: seq<string>, values: Values, allowed: AllowedFields, f: Filter)
    requires (forall i :: 0 <= i < |keys| ==> keys[i] in values) && FiltersFrom(keys, values, allowed).Success?
    ensures f in FiltersFrom(keys, values, allowed).value <==>
      exists i :: 0 <= i < |keys| && FilterFrom(keys[i], values[keys[i]], allowed) == Success(Some(f))
  {
    hide FilterFrom;
    if keys != [] {
      var n := |keys| - 1;
      FiltersAre(keys[..n], values, allowed, f);
      assert forall i :: 0 <= i < n ==> keys[..n][i] == keys[i];
    }
  }

  /** What the first n keys contribute comes first. */
  lemma {:induction false} FiltersPrefix(keys: seq<string>, values: Values, allowed: AllowedFields, n: nat)
    requires (forall i :: 0 <= i < |keys| ==> keys[i] in values) && FiltersFrom(keys, values, allowed).Success?
    requires n <= |keys|
    ensures FiltersFrom(keys[..n], values, allowed).Success?
    ensures FiltersFrom(keys[..n], values, allowed).value <= FiltersFrom(keys, values, allowed).value
  {
    hide FilterFrom;
    if n == |keys| {
      assert keys[..n] == keys;
    } else {
      FiltersPrefix(keys[..|keys| - 1], values, allowed, n);
      assert keys[..|keys| - 1][..n] == keys[..n];
    }
  }

  /** A parsed query asks only for what is allowed, on a bounded page. */
  predicate Admissible(allowed: AllowedFields, q: Query) {
    && (forall i :: 0 <= i < |q.sorts| ==> SortAllowed(allowed, q.sorts[i]))
    && (forall i :: 0 <= i < |q.filters| ==> FilterAllowed(allowed, q.filters[i]) && q.filters[i].value != "")
    && 1 <= q.page.page && 1 <= q.page.perPage <= MAX_PER_PAGE
  }

  function SearchOf(values: Values): string {
    var q := TrimSpace(Get(values, "q"));
    if q == "" then TrimSpace(Get(values, "search")) else q
  }

  /** Fails exactly on a refused sort or filter; else the query is what the parameters ask for. */
  method Parse(values: Values, allowed: AllowedFields) returns (res: Result<Query, string>)
    ensures res.Failure? <==> SortsRefused(Get(values, "sort"), allowed) || FiltersRefused(values, allowed)
    ensures res.Success? ==> Admissible(allowed, res.value)
    ensures res.Success? ==> res.value.page == Pagination.Parse(values) && res.value.search == SearchOf(values)
    ensures res.Success? ==>
      var q := if "q" in values && values["q"] != [] then TrimSpace(values["q"][0]) else "";
      var search := if "search" in values && values["search"] != [] then TrimSpace(values["search"][0]) else "";
      res.value.search == if q != "" then q else search
    ensures res.Success? ==>
      res.value.sorts == if TrimSpace(Get(values, "sort")) == "" then [] else SortsOf(Split(Get(values, "sort"), ","))
    ensures res.Success? ==>
      exists keys :: IsKeyOrder(keys, values) && FiltersFrom(keys, values, allowed) == Success(res.value.filters)
  {
    var page := Pagination.Parse(values);
    ParseBounded(values);
    var search := TrimSpace(Get(values, "q"));
    if search == "" { search := TrimSpace(Get(values, "search")); }
    var sorts := ParseSort(Get(values, "sort"), allowed);
    if sorts.Failure? { return Failure(sorts.error); }
    var filters;
    ghost var keys;
    filters, keys := ParseFilters(values, allowed);
    if filters.Failure? { return Failure(filters.error); }
    FiltersAllowed(keys, values, allowed);
    res := Success(Query(page, search, sorts.value, filters.value));
  }
}
