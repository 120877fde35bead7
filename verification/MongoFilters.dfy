/** The MongoDB store's filter documents: their exact meaning, and the exact conditions under which
    a document selects what the SQL clauses select and keeps a scoped actor to its own rows. */
module MongoFilters {
  import opened Wrappers
  import opened Text
  import opened Patterns
  import opened Resources
  import opened SqlMeaning
  import opened ListFilters
  import opened StoreSpec

  /******* Filter documents *******/

  /** A case-insensitive `$regex`, an equality, a range, or the `$or` of a search. */
  datatype Entry =
    | Is(value: string)
    | Regex(pattern: string)
    | Range(op: FilterOp, bound: string)
    | AnyOf(parts: seq<(string, string)>)

  type Doc = map<string, Entry>

  /** Whether a document's field meets an entry.  Comparisons only meet strings. */
  ghost predicate EntryHolds(field: string, e: Entry, row: Row, le: Order) {
    match e
    case Is(s) => Field(row, field) == Str(s)
    case Regex(p) => RegexHolds(field, p, row)
    case Range(op, s) => Field(row, field).Str? && RangeHolds(op, Field(row, field), Str(s), le)
    case AnyOf(parts) => exists i :: 0 <= i < |parts| && RegexHolds(parts[i].0, parts[i].1, row)
  }

  ghost predicate RegexHolds(field: string, p: string, row: Row) {
    Field(row, field).Str? && RegexMatch(Fold(p), Fold(Field(row, field).text))
  }

  predicate RangeHolds(op: FilterOp, v: Value, bound: Value, le: Order) {
    match op
    case AtLeast => le(bound, v)
    case AtMost => le(v, bound)
    case Above => !le(v, bound)
    case Below => !le(bound, v)
    case _ => false
  }

  ghost predicate DocSelects(doc: Doc, row: Row, le: Order) {
    forall field :: field in doc ==> EntryHolds(field, doc[field], row, le)
  }

  function EntryFor(op: FilterOp, value: string): Entry {
    match op
    case IsEqual => Is(value)
    case HasPart => Regex(QuoteMeta(value))
    case HasStart => Regex("^" + QuoteMeta(value))
    case HasEnd => Regex(QuoteMeta(value) + "$")
    case _ => Range(op, value)
  }

  function SearchEntries(columns: seq<string>, search: string): seq<(string, string)> {
    seq(|columns|, i requires 0 <= i < |columns| => (columns[i], QuoteMeta(search)))
  }

  const OR := "$or"

  function OpeningDoc(r: ResourceMeta, tenant: string, role: string, search: string): Doc {
    var doc := if Scoped(r, role) then map[r.tenantKey := Is(tenant)] else map[];
    if search != "" && SearchColumns(r.fields) != [] then
      doc[OR := AnyOf(SearchEntries(SearchColumns(r.fields), search))] else doc
  }

  /** Filters sets in turn: on each field the last one stays. */
  function Assigned(doc: Doc, filters: map<string, string>, keys: seq<string>): Doc
    requires forall i :: 0 <= i < |keys| ==> keys[i] in filters
  {
    if keys == [] then doc
    else
      var k := keys[|keys| - 1];
      Assigned(doc, filters, keys[..|keys| - 1])[FieldOf(k) := EntryFor(OpOf(k), filters[k])]
  }

  lemma AssignedAppend(doc: Doc, filters: map<string, string>, keys: seq<string>, key: string)
    requires (forall i :: 0 <= i < |keys| ==> keys[i] in filters) && key in filters
    ensures Assigned(doc, filters, keys + [key]) ==
      Assigned(doc, filters, keys)[FieldOf(key) := EntryFor(OpOf(key), filters[key])]
  {
    assert (keys + [key])[..|keys|] == keys;
  }

  lemma AssignedOneMore(doc: Doc, filters: map<string, string>, order: seq<string>, key: string)
    requires key in filters
    ensures var before := Assigned(doc, filters, Active(filters, order));
      Assigned(doc, filters, Active(filters, order + [key]))
        == if filters[key] == "" then before else before[FieldOf(key) := EntryFor(OpOf(key), filters[key])]
  {
    ActiveStep(filters, order, key);
    if filters[key] == "" {
      assert Active(filters, order) + [] == Active(filters, order);
    } else {
      AssignedAppend(doc, filters, Active(filters, order), key);
    }
  }

  /** Assigns one filter's entry, unless its value is empty. */
  method AssignOne(r: ResourceMeta, doc: Doc, key: string, value: string) returns (res: Result<Doc, StoreError>)
    ensures res.Failure? <==> Refused(r, key, value)
    ensures res.Success? ==> res.value == if value == "" then doc else doc[FieldOf(key) := EntryFor(OpOf(key), value)]
  {
    if value == "" { return Success(doc); }
    var fieldName, operator := key, "eq";
    var cut := Cut(key, "::");
    if cut.found { fieldName, operator := cut.before, cut.after; }
    var f := FieldBySQLName(r.fields, fieldName);
    if f.None? || !f.value.filterable { return Failure(NotFilterable(fieldName)); }
    var op := ParseOperator(operator);
    if op.None? { return Failure(UnsupportedOperator(operator)); }
    res := Success(doc[fieldName := EntryFor(op.value, value)]);
  }

  method OpenFilter(r: ResourceMeta, tenant: string, role: string, search: string) returns (doc: Doc)
    ensures doc == OpeningDoc(r, tenant, role, search)
  {
    doc := map[];
    if r.tenantKey != "" && role != SUPER_ADMIN { doc := doc[r.tenantKey := Is(tenant)]; }
    if search != "" {
      var or := SearchOr(r, search);
      if |or| > 0 { doc := doc[OR := AnyOf(or)]; }
    }
  }

  method BuildFilter(r: ResourceMeta, tenant: string, role: string, search: string, filters: map<string, string>)
    returns (res: Result<Doc, StoreError>, ghost order: seq<string>)
    ensures res.Failure? <==> !NoneRefused(r, filters)
    ensures res.Success? ==> IsWalk(order, filters)
    ensures res.Success? ==> res.value == Assigned(OpeningDoc(r, tenant, role, search), filters, Active(filters, order))
  {
    var doc := OpenFilter(r, tenant, role, search);
    ghost var opening := doc;
    order := [];
    var remaining := filters.Keys;
    while remaining != {}
      invariant Distinct(order) && remaining <= filters.Keys
      invariant forall k :: k in order <==> k in filters && k !in remaining
      invariant forall k :: k in order ==> !Refused(r, k, filters[k])
      invariant doc == Assigned(opening, filters, Active(filters, order))
      decreases |remaining|
    {
      var key :| key in remaining;
      remaining := remaining - {key};
      var next := AssignOne(r, doc, key, filters[key]);
      if next.Failure? { return next, order; }
      AssignedOneMore(opening, filters, order, key);
      order := order + [key];
      doc := next.value;
    }
    res := Success(doc);
  }

  method SearchOr(r: ResourceMeta, search: string) returns (or: seq<(string, string)>)
    ensures or == SearchEntries(SearchColumns(r.fields), search)
  {
    or := [];
    for i := 0 to |r.fields|
      invariant or == SearchEntries(SearchColumns(r.fields[..i]), search)
    {
      assert r.fields[..i + 1][..i] == r.fields[..i];
      if r.fields[i].searchable && !r.fields[i].hidden { or := or + [(r.fields[i].sqlName, QuoteMeta(search))]; }
    }
    assert r.fields[..|r.fields|] == r.fields;
  }

  function Document(r: ResourceMeta, tenant: string, role: string, search: string, filters: map<string, string>,
                    order: seq<string>): Doc
  {
    Assigned(OpeningDoc(r, tenant, role, search), filters, Active(filters, order))
  }

  /******* What an entry means *******/

  predicate EndsInNewline(s: string) { s != "" && s[|s| - 1] == '\n' }

  /** What a filter asks of a stored value.  Comparisons only meet strings, and an `ends_with` value
      may also stand just before a final newline. */
  ghost predicate Asks(op: FilterOp, value: string, v: Value, le: Order) {
    match op
    case IsEqual => v == Str(value)
    case HasPart => v.Str? && Contains(Fold(v.text), Fold(value))
    case HasStart => v.Str? && HasPrefix(Fold(v.text), Fold(value))
    case HasEnd => v.Str? &&
      (HasSuffix(Fold(v.text), Fold(value))
       || (EndsInNewline(v.text) && HasSuffix(Fold(v.text[..|v.text| - 1]), Fold(value))))
    case _ => v.Str? && RangeHolds(op, v, Str(value), le)
  }

  lemma {:induction false} FoldQuoteMeta(v: string)
    ensures Fold(QuoteMeta(v)) == QuoteMeta(Fold(v))
  {
    if v != "" {
      FoldQuoteMeta(v[1..]);
      var head := Quoted(v[0]);
      FoldConcat(head, QuoteMeta(v[1..]));
      assert Fold(v)[1..] == Fold(v[1..]);
      assert IsRegexMeta(ToLower(v[0])) <==> IsRegexMeta(v[0]);
      assert Fold(head) == if IsRegexMeta(v[0]) then ['\\', ToLower(v[0])] else [ToLower(v[0])];
    }
  }

  lemma EndsAsked(value: string, text: string)
    ensures RegexMatch(Fold(QuoteMeta(value) + "$"), Fold(text))
       <==> (HasSuffix(Fold(text), Fold(value))
             || (EndsInNewline(text) && HasSuffix(Fold(text[..|text| - 1]), Fold(value))))
  {
    hide QuoteMeta, RegexMatch;
    FoldQuoteMeta(value);
    FoldConcat(QuoteMeta(value), "$");
    assert Fold("$") == "$";
    RegexEnds(Fold(value), Fold(text));
    if text != "" {
      assert ToLower(text[|text| - 1]) == '\n' <==> text[|text| - 1] == '\n';
      assert Fold(text)[..|text| - 1] == Fold(text[..|text| - 1]);
    }
  }

  lemma PartAsked(value: string, text: string)
    ensures RegexMatch(Fold(QuoteMeta(value)), Fold(text)) <==> Contains(Fold(text), Fold(value))
  {
    hide RegexMatch, Contains;
    FoldQuoteMeta(value);
    RegexContains(Fold(value), Fold(text));
  }

  lemma StartAsked(value: string, text: string)
    ensures RegexMatch(Fold("^" + QuoteMeta(value)), Fold(text)) <==> HasPrefix(Fold(text), Fold(value))
  {
    hide RegexMatch, QuoteMeta;
    FoldQuoteMeta(value);
    FoldConcat("^", QuoteMeta(value));
    assert Fold("^") == "^";
    RegexStarts(Fold(value), Fold(text));
  }

  /** For every value the entry holds of exactly the documents the filter asks for. */
  lemma EntryAsks(field: string, op: FilterOp, value: string, row: Row, le: Order)
    ensures EntryHolds(field, EntryFor(op, value), row, le) <==> Asks(op, value, Field(row, field), le)
  {
    hide QuoteMeta, RegexMatch, Contains, HasPrefix, HasSuffix, Fold, EndsInNewline;
    var v := Field(row, field);
    if v.Str? {
      PartAsked(value, v.text);
      StartAsked(value, v.text);
      EndsAsked(value, v.text);
    }
  }

  predicate IsPattern(op: FilterOp) { op.HasPart? || op.HasStart? || op.HasEnd? }

  predicate OnlyNewlines(value: string) { forall i :: 0 <= i < |value| ==> value[i] == '\n' }

  /** On strings, a filter without LIKE metacharacters asks what the SQL clause tests; for `ends_with`
      the text must not end in a newline, or the value have nothing else. */
  lemma AsksMeets(pg: bool, op: FilterOp, value: string, v: Value, le: Order)
    requires !v.Int? && (IsPattern(op) ==> MetaFree(value))
    requires op.HasEnd? && v.Str? ==> !EndsInNewline(v.text) || OnlyNewlines(value)
    ensures Asks(op, value, v, le) <==> Meets(pg, op, value, v, le)
  {
    if op.HasEnd? && v.Str? && OnlyNewlines(value) { NewlinesEnd(value, v.text); }
    hide LikeMatch, Contains, Fold;
  }

  lemma NewlinesEnd(value: string, text: string)
    requires OnlyNewlines(value)
    ensures EndsInNewline(text) && HasSuffix(Fold(text[..|text| - 1]), Fold(value)) ==>
      HasSuffix(Fold(text), Fold(value))
  {
    if EndsInNewline(text) && HasSuffix(Fold(text[..|text| - 1]), Fold(value)) {
      var n, m := |text|, |value|;
      var front := Fold(text[..n - 1]);
      assert forall i :: n - 1 - m <= i < n - 1 ==> front[i] == front[n - 1 - m..][i - (n - 1 - m)] == '\n';
      assert forall i :: n - m <= i < n ==> Fold(text)[i] == '\n';
      assert Fold(text)[n - m..] == Fold(value);
    }
  }

  /** A text that ends in the value and a newline ends in the value exactly when that is all newlines. */
  lemma NewlineAfter(value: string)
    ensures HasSuffix(Fold(value + "\n"), Fold(value)) <==> OnlyNewlines(value)
  {
    var t, f := Fold(value + "\n"), Fold(value);
    FoldConcat(value, "\n");
    assert Fold("\n") == "\n" && t == f + "\n";
    if HasSuffix(t, f) && f != "" {
      assert f == f[1..] + "\n";
      AllNewlines(f, |f| - 1);
      assert forall i :: 0 <= i < |f| ==> f[i] == ToLower(value[i]);
    }
  }

  lemma {:induction false} AllNewlines(f: string, k: nat)
    requires k < |f| && f == f[1..] + "\n"
    ensures forall i :: |f| - 1 - k <= i < |f| ==> f[i] == '\n'
  {
    var first := |f| - 1 - k;
    assert f[first] == (f[1..] + "\n")[first];
    if k > 0 { AllNewlines(f, k - 1); }
  }

  lemma {:induction false} DecoyStays(v: string)
    requires forall i :: 0 <= i < |v| ==> !IsUpper(v[i])
    ensures forall i :: 0 <= i < |Decoy(v)| ==> !IsUpper(Decoy(v)[i])
    ensures EndsInNewline(Decoy(v)) ==> EndsInNewline(v)
  {
    if v == "" || v == "\\" {
    } else if v[0] == '\\' {
      DecoyStays(v[2..]);
    } else {
      DecoyStays(v[1..]);
    }
  }

  lemma FoldedDecoy(value: string)
    ensures Fold(Decoy(Fold(value))) == Decoy(Fold(value))
    ensures EndsInNewline(Decoy(Fold(value))) ==> EndsInNewline(value)
  {
    DecoyStays(Fold(value));
    assert forall i :: 0 <= i < |value| ==> (Fold(value)[i] == '\n' <==> value[i] == '\n');
  }

  /** A text on which a value with metacharacters tells document and clause apart. */
  function Telling(op: FilterOp, value: string): string {
    if op.HasEnd? && LoneBackslash(Fold(value)) then value else Decoy(Fold(value))
  }

  lemma TellingTells(pg: bool, op: FilterOp, value: string, le: Order)
    requires IsPattern(op) && !MetaFree(value)
    ensures !EndsInNewline(value) ==> !EndsInNewline(Telling(op, value))
    ensures var v, lone := Str(Telling(op, value)), op.HasEnd? && LoneBackslash(Fold(value));
      (Asks(op, value, v, le) <==> lone) && (Meets(pg, op, value, v, le) <==> !lone)
  {
    hide LikeMatch, LoneBackslash, Fold;
    var f := Fold(value);
    var d := Decoy(f);
    FoldKeepsMeta(value);
    FoldedDecoy(value);
    FoldedPatterns(value);
    if op.HasEnd? && LoneBackslash(f) {
      assert HasSuffix(f, f);
      LoneBackslashMatchesNothing(f, f);
      LoneMatchesNowhere(f);
    } else {
      DecoyPatterns(f, op.HasEnd?);
      assert |d| <= |f| && d != f;
      assert forall i :: !OccursAt(d, f, i);
    }
  }

  lemma FoldedPatterns(value: string)
    ensures Fold("%" + value + "%") == "%" + Fold(value) + "%" && Fold(value + "%") == Fold(value) + "%"
    ensures Fold("%" + value) == "%" + Fold(value)
  {}

  lemma LoneMatchesNowhere(f: string)
    requires LoneBackslash(f)
    ensures !LikeMatch("%" + f, f)
  {
    assert ("%" + f)[1..] == f;
    LoneBackslashMatchesNothing("%" + f, f);
  }

  /** The decoy of a value meets its patterns. */
  lemma DecoyPatterns(f: string, ending: bool)
    requires ending ==> !LoneBackslash(f)
    ensures var d := Decoy(f);
      LikeMatch("%" + f + "%", d) && LikeMatch(f + "%", d) && (ending ==> LikeMatch("%" + f, d))
  {
    hide LikeMatch, LoneBackslash;
    var d := Decoy(f);
    DecoyMatches(f);
    LikePercent(f + "%", d);
    LikePercent(f, d);
    assert "%" + f + "%" == "%" + (f + "%") && d[0..] == d;
    if ending { DecoyMatchesWhole(f); }
  }

  /** A filter about which document and clause agree: a pattern has no LIKE metacharacter, and where
      texts may end in a newline an `ends_with` value has nothing else. */
  predicate Clean(op: FilterOp, value: string, tame: bool) {
    && (IsPattern(op) ==> MetaFree(value))
    && (op.HasEnd? && !tame ==> OnlyNewlines(value))
  }

  /** A text that tells document and clause apart on a filter that is not clean. */
  function Unclean(op: FilterOp, value: string): string {
    if IsPattern(op) && !MetaFree(value) then Telling(op, value) else value + "\n"
  }

  lemma UncleanTells(pg: bool, op: FilterOp, value: string, tame: bool, le: Order)
    requires !Clean(op, value, tame)
    ensures Asks(op, value, Str(Unclean(op, value)), le) != Meets(pg, op, value, Str(Unclean(op, value)), le)
    ensures tame && !EndsInNewline(value) ==> !EndsInNewline(Unclean(op, value))
  {
    if IsPattern(op) && !MetaFree(value) {
      TellingTells(pg, op, value, le);
    } else {
      NewlineAfter(value);
      assert (value + "\n")[..|value|] == value;
      assert HasSuffix(Fold(value), Fold(value));
    }
  }

  /** Document and clause agree about a filter on all texts, or (tame) on all that do not end in a
      newline, exactly when it is clean. */
  lemma EntryMeans(pg: bool, field: string, op: FilterOp, value: string, le: Order, tame: bool)
    requires tame ==> !EndsInNewline(value)
    ensures (forall text :: (tame ==> !EndsInNewline(text)) ==>
               EntryHolds(field, EntryFor(op, value), map[field := Str(text)], le) ==
                 Meets(pg, op, value, Str(text), le))
       <==> Clean(op, value, tame)
  {
    hide Asks, Meets, EntryHolds, EntryFor, OnlyNewlines, MetaFree, EndsInNewline, Unclean;
    forall text
      ensures EntryHolds(field, EntryFor(op, value), map[field := Str(text)], le) <==> Asks(op, value, Str(text), le)
    {
      EntryAsks(field, op, value, map[field := Str(text)], le);
    }
    if Clean(op, value, tame) {
      forall text | tame ==> !EndsInNewline(text)
        ensures Asks(op, value, Str(text), le) <==> Meets(pg, op, value, Str(text), le)
      {
        AsksMeets(pg, op, value, Str(text), le);
      }
    } else {
      UncleanTells(pg, op, value, tame, le);
    }
  }

  /** Filters only meet strings: a number whose text a clause compares is never met by an entry. */
  lemma NumbersDiffer(pg: bool, field: string, op: FilterOp, value: string, n: int, le: Order)
    ensures !EntryHolds(field, EntryFor(op, value), map[field := Int(n)], le)
    ensures Meets(pg, IsEqual, DecimalInt(n), Int(n), le)
  {}

  /******* What a document selects *******/

  /** The place of the last filter on a field, or -1. */
  function LastAt(keys: seq<string>, field: string): (i: int)
    ensures -1 <= i < |keys| && forall j :: i < j < |keys| ==> FieldOf(keys[j]) != field
    ensures i >= 0 ==> FieldOf(keys[i]) == field
  {
    if keys == [] then -1
    else if FieldOf(keys[|keys| - 1]) == field then |keys| - 1
    else LastAt(keys[..|keys| - 1], field)
  }

  /** The last filter on a field decides its entry; where there is none the opening stays. */
  lemma {:induction false} LastFilterStays(doc: Doc, filters: map<string, string>, keys: seq<string>, field: string)
    requires forall j :: 0 <= j < |keys| ==> keys[j] in filters
    ensures var after, i := Assigned(doc, filters, keys), LastAt(keys, field);
      if i >= 0 then field in after && after[field] == EntryFor(OpOf(keys[i]), filters[keys[i]])
      else (field in after <==> field in doc) && (field in doc ==> after[field] == doc[field])
  {
    if keys != [] { LastFilterStays(doc, filters, keys[..|keys| - 1], field); }
  }

  ghost predicate Mentions(columns: seq<string>, search: string, row: Row) {
    exists i :: 0 <= i < |columns| && Field(row, columns[i]).Str? &&
      Contains(Fold(Field(row, columns[i]).text), Fold(search))
  }

  lemma SearchEntry(columns: seq<string>, search: string, row: Row, le: Order)
    ensures EntryHolds(OR, AnyOf(SearchEntries(columns, search)), row, le) <==> Mentions(columns, search, row)
  {
    hide QuoteMeta, RegexMatch, Contains, Fold;
    var parts := SearchEntries(columns, search);
    forall i | 0 <= i < |columns|
      ensures RegexHolds(parts[i].0, parts[i].1, row)
         <==> Field(row, columns[i]).Str? && Contains(Fold(Field(row, columns[i]).text), Fold(search))
    {
      EntryAsks(columns[i], HasPart, search, row, le);
    }
  }

  /** No column is named like the `$or` entry of a search. */
  predicate NoOr(r: ResourceMeta) { !HasColumn(r, OR) && r.tenantKey != OR }

  lemma OpeningHolds(r: ResourceMeta, tenant: string, role: string, search: string, field: string, row: Row, le: Order)
    requires NoOr(r)
    ensures var doc := OpeningDoc(r, tenant, role, search);
      (field in doc ==> EntryHolds(field, doc[field], row, le))
        <==> ((field == r.tenantKey && Scoped(r, role) ==> Field(row, field) == Str(tenant))
              && (field == OR && search != "" && SearchColumns(r.fields) != [] ==>
                    Mentions(SearchColumns(r.fields), search, row)))
  {
    hide Mentions, SearchColumns, SearchEntries, HasColumn;
    SearchEntry(SearchColumns(r.fields), search, row, le);
  }

  lemma FiltersNameColumns(r: ResourceMeta, filters: map<string, string>, keys: seq<string>)
    requires NoneRefused(r, filters) && NoOr(r)
    requires forall i :: 0 <= i < |keys| ==> keys[i] in filters && filters[keys[i]] != ""
    ensures LastAt(keys, OR) == -1
  {
    forall i | 0 <= i < |keys| ensures FieldOf(keys[i]) != OR { assert !Refused(r, keys[i], filters[keys[i]]); }
  }

  /** Exactly what a document selects: the search, the last filter on every field, and the tenant
      restriction where no filter is on the tenant key. */
  lemma DocMeans(r: ResourceMeta, tenant: string, role: string, search: string, filters: map<string, string>,
                 order: seq<string>, row: Row, le: Order)
    requires NoneRefused(r, filters) && NoOr(r)
    ensures var keys := Active(filters, order);
      DocSelects(Document(r, tenant, role, search, filters, order), row, le) <==>
             ((search != "" && SearchColumns(r.fields) != [] ==> Mentions(SearchColumns(r.fields), search, row))
              && (Scoped(r, role) && LastAt(keys, r.tenantKey) == -1 ==> Field(row, r.tenantKey) == Str(tenant))
              && (forall field :: var i := LastAt(keys, field);
                    i >= 0 ==> Asks(OpOf(keys[i]), filters[keys[i]], Field(row, field), le)))
  {
    hide Asks, EntryHolds, EntryFor, OpeningDoc, Active, Assigned, NoneRefused, OpOf, SearchColumns, Mentions, FieldOf;
    var keys, opening := Active(filters, order), OpeningDoc(r, tenant, role, search);
    var doc := Document(r, tenant, role, search, filters, order);
    FiltersNameColumns(r, filters, keys);
    forall field ensures (field in doc ==> EntryHolds(field, doc[field], row, le)) <==>
      (var i := LastAt(keys, field);
       if i >= 0 then Asks(OpOf(keys[i]), filters[keys[i]], Field(row, field), le) else
         (field == r.tenantKey && Scoped(r, role) ==> Field(row, field) == Str(tenant))
         && (field == OR && search != "" && SearchColumns(r.fields) != [] ==>
             Mentions(SearchColumns(r.fields), search, row)))
    {
      var i := LastAt(keys, field);
      LastFilterStays(opening, filters, keys, field);
      OpeningHolds(r, tenant, role, search, field, row, le);
      if i >= 0 { EntryAsks(field, OpOf(keys[i]), filters[keys[i]], row, le); }
    }
  }

  /******* Orders and rows that tell filters apart *******/

  predicate InUse(filters: map<string, string>, key: string) { key in filters && filters[key] != "" }

  function Level(top: string, bottom: string, v: Value): int {
    if v == Str(top) then 2 else if v == Str(bottom) then 0 else 1
  }

  /** An order with a greatest and a least text, and all other values alike. */
  function Levels(top: string, bottom: string): Order {
    (a: Value, b: Value) => Level(top, bottom, a) <= Level(top, bottom, b)
  }

  lemma LevelsOrder(top: string, bottom: string)
    ensures TotalPreorder(Levels(top, bottom))
  {}

  /** Longer texts than the tenant and every filter value. */
  predicate Beyond(filters: map<string, string>, tenant: string, top: string, bottom: string) {
    |tenant| < |top| < |bottom| && forall k :: k in filters ==> |filters[k]| < |top|
  }

  lemma LevelOf(value: string, top: string, bottom: string)
    requires |value| < |top| < |bottom|
    ensures Level(top, bottom, Str(value)) == 1 && Level(top, bottom, Str(top)) == 2
    ensures Level(top, bottom, Str(bottom)) == 0
  {
    assert value != top && value != bottom && top != bottom;
  }

  /** A text a filter asks for. */
  function Suiting(op: FilterOp, value: string, top: string, bottom: string): string {
    match op case Above => top case Below => bottom case _ => value
  }

  lemma SuitingAsked(op: FilterOp, value: string, top: string, bottom: string)
    requires |value| < |top| < |bottom|
    ensures Asks(op, value, Str(Suiting(op, value, top, bottom)), Levels(top, bottom))
  {
    LevelOf(value, top, bottom);
    if op.HasPart? { assert OccursAt(Fold(value), Fold(value), 0); }
  }

  /** A text a filter asks for that is not a given one. */
  function Stray(op: FilterOp, value: string, other: string, top: string, bottom: string): string {
    match op
    case IsEqual => value
    case AtLeast => top
    case Above => top
    case AtMost => bottom
    case Below => bottom
    case _ => if value == other then value + value else value
  }

  lemma PartOfItself(f: string)
    ensures Contains(f, f) && Contains(f + f, f) && HasPrefix(f + f, f) && HasSuffix(f + f, f)
  {
    assert OccursAt(f, f, 0) && OccursAt(f + f, f, 0);
  }

  lemma StrayAsked(op: FilterOp, value: string, other: string, top: string, bottom: string)
    requires value != "" && (op.IsEqual? ==> value != other)
    requires |value| < |top| < |bottom| && |other| < |top|
    ensures var text := Stray(op, value, other, top, bottom);
      text != other && Asks(op, value, Str(text), Levels(top, bottom))
      && (!EndsInNewline(value) && !EndsInNewline(top) && !EndsInNewline(bottom) ==> !EndsInNewline(text))
  {
    LevelOf(value, top, bottom);
    if IsPattern(op) {
      FoldConcat(value, value);
      PartOfItself(Fold(value));
    } else {
      assert other != top && other != bottom;
    }
  }

  function FieldsOf(keys: seq<string>): set<string> { set i | 0 <= i < |keys| :: FieldOf(keys[i]) }

  /** A row of the tenant whose filtered columns hold the texts given for the last filters on them. */
  function RowOf(r: ResourceMeta, tenant: string, keys: seq<string>, texts: map<string, string>): Row
    requires forall i :: 0 <= i < |keys| ==> keys[i] in texts
  {
    map c | c in FieldsOf(keys) + {r.tenantKey} ::
      var i := LastAt(keys, c);
      if i >= 0 then Str(texts[keys[i]]) else Str(tenant)
  }

  lemma RowHolds(r: ResourceMeta, tenant: string, keys: seq<string>, texts: map<string, string>, c: string)
    requires forall i :: 0 <= i < |keys| ==> keys[i] in texts
    ensures var row, i := RowOf(r, tenant, keys, texts), LastAt(keys, c);
      && StringRow(row)
      && (i >= 0 ==> Field(row, c) == Str(texts[keys[i]]))
      && (i == -1 ==> Field(row, c) == if c == r.tenantKey then Str(tenant) else Null)
  {
    hide FieldOf, LastAt;
    var i := LastAt(keys, c);
    if i >= 0 { assert FieldOf(keys[i]) in FieldsOf(keys); }
  }

  lemma WalkEnding(filters: map<string, string>, key: string) returns (order: seq<string>)
    requires key in filters
    ensures IsWalk(order, filters) && order != [] && order[|order| - 1] == key
  {
    order := [];
    var remaining := filters.Keys - {key};
    while remaining != {}
      invariant Distinct(order) && remaining <= filters.Keys - {key}
      invariant forall k :: k in order <==> k in filters && k != key && k !in remaining
      decreases |remaining|
    {
      var k :| k in remaining;
      remaining := remaining - {k};
      order := order + [k];
    }
    order := order + [key];
  }

  predicate StringRow(row: Row) { forall c :: c in row ==> !row[c].Int? }

  /** The rows compared: strings (or nothing) in the tenant, searched and filtered columns, and when
      tame no final newline where `ends_with` is asked. */
  ghost predicate Compared(r: ResourceMeta, filters: map<string, string>, row: Row, tame: bool) {
    && !Field(row, r.tenantKey).Int?
    && (forall i :: 0 <= i < |SearchColumns(r.fields)| ==> !Field(row, SearchColumns(r.fields)[i]).Int?)
    && forall k :: InUse(filters, k) ==>
        && !Field(row, FieldOf(k)).Int?
        && (tame && OpOf(k).HasEnd? && Field(row, FieldOf(k)).Str? ==> !EndsInNewline(Field(row, FieldOf(k)).text))
  }

  ghost predicate PlainValues(filters: map<string, string>) {
    forall k :: InUse(filters, k) ==> !EndsInNewline(filters[k])
  }

  lemma RowCompared(r: ResourceMeta, tenant: string, filters: map<string, string>, order: seq<string>,
                    texts: map<string, string>, tame: bool)
    requires IsWalk(order, filters) && filters.Keys <= texts.Keys
    requires tame ==> forall k :: InUse(filters, k) ==> !EndsInNewline(texts[k])
    ensures Compared(r, filters, RowOf(r, tenant, Active(filters, order), texts), tame)
  {
    hide FieldOf, RowOf, OpOf, Active, LastAt, SearchColumns;
    var keys := Active(filters, order);
    var row := RowOf(r, tenant, keys, texts);
    RowHolds(r, tenant, keys, texts, r.tenantKey);
    forall k | tame && InUse(filters, k)
      ensures Field(row, FieldOf(k)).Str? ==> !EndsInNewline(Field(row, FieldOf(k)).text)
    {
      RowHolds(r, tenant, keys, texts, FieldOf(k));
      var i :| 0 <= i < |keys| && keys[i] == k;
      assert LastAt(keys, FieldOf(k)) >= i;
      assert InUse(filters, keys[LastAt(keys, FieldOf(k))]);
    }
  }

  ghost predicate TextsAsked(filters: map<string, string>, texts: map<string, string>, le: Order) {
    forall k :: InUse(filters, k) ==> k in texts && Asks(OpOf(k), filters[k], Str(texts[k]), le)
  }

  /** A row of asked texts is selected. */
  lemma RowSelected(r: ResourceMeta, tenant: string, role: string, filters: map<string, string>, order: seq<string>,
                    texts: map<string, string>, le: Order)
    requires NoneRefused(r, filters) && NoOr(r) && TextsAsked(filters, texts, le)
    ensures DocSelects(Document(r, tenant, role, "", filters, order),
                       RowOf(r, tenant, Active(filters, order), texts), le)
  {
    hide FieldOf, OpOf, Asks, NoneRefused, NoOr, Document, RowOf, DocSelects, SearchColumns, Mentions, LastAt, Active;
    var keys := Active(filters, order);
    var row := RowOf(r, tenant, keys, texts);
    forall c ensures LastAt(keys, c) >= 0 ==>
      Asks(OpOf(keys[LastAt(keys, c)]), filters[keys[LastAt(keys, c)]], Field(row, c), le)
    {
      RowHolds(r, tenant, keys, texts, c);
      if LastAt(keys, c) >= 0 { assert InUse(filters, keys[LastAt(keys, c)]); }
    }
    RowHolds(r, tenant, keys, texts, r.tenantKey);
    DocMeans(r, tenant, role, "", filters, order, row, le);
  }

  /** The chosen text for one filter and a suiting one for every other. */
  function TextsWith(filters: map<string, string>, key: string, text: string, top: string,
                     bottom: string): map<string, string>
  {
    map k | k in filters :: if k == key then text else Suiting(OpOf(k), filters[k], top, bottom)
  }

  lemma EndedWalk(filters: map<string, string>, key: string, order: seq<string>)
    requires InUse(filters, key) && order != [] && order[|order| - 1] == key
    ensures var keys := Active(filters, order);
      keys != [] && keys[|keys| - 1] == key && LastAt(keys, FieldOf(key)) == |keys| - 1
  {
    hide FieldOf;
    assert order == order[..|order| - 1] + [key];
  }

  ghost predicate Plain(filters: map<string, string>, text: string, top: string, bottom: string) {
    PlainValues(filters) && !EndsInNewline(text) && !EndsInNewline(top) && !EndsInNewline(bottom)
  }

  /** A walk and a row its document selects, in which a chosen filter's field holds a chosen text
      that filter asks for. */
  lemma SelectedWith(r: ResourceMeta, tenant: string, role: string, filters: map<string, string>, key: string,
                     text: string, top: string, bottom: string) returns (order: seq<string>, row: Row)
    requires NoneRefused(r, filters) && NoOr(r) && InUse(filters, key) && Beyond(filters, tenant, top, bottom)
    requires Asks(OpOf(key), filters[key], Str(text), Levels(top, bottom))
    ensures IsWalk(order, filters)
    ensures DocSelects(Document(r, tenant, role, "", filters, order), row, Levels(top, bottom))
    ensures Field(row, FieldOf(key)) == Str(text)
    ensures forall tame :: (tame ==> Plain(filters, text, top, bottom)) ==> Compared(r, filters, row, tame)
  {
    hide FieldOf, OpOf, Asks, Levels, NoneRefused, NoOr, Document, RowOf, DocSelects, Compared, Active, LastAt;
    order := WalkEnding(filters, key);
    EndedWalk(filters, key, order);
    var keys, texts := Active(filters, order), TextsWith(filters, key, text, top, bottom);
    row := RowOf(r, tenant, keys, texts);
    forall k | InUse(filters, k) ensures Asks(OpOf(k), filters[k], Str(texts[k]), Levels(top, bottom)) {
      SuitingAsked(OpOf(k), filters[k], top, bottom);
    }
    RowSelected(r, tenant, role, filters, order, texts, Levels(top, bottom));
    RowHolds(r, tenant, keys, texts, FieldOf(key));
    forall tame | tame ==> Plain(filters, text, top, bottom) ensures Compared(r, filters, row, tame) {
      RowCompared(r, tenant, filters, order, texts, tame);
    }
  }

  lemma Longest(filters: map<string, string>, tenant: string) returns (n: nat)
    ensures |tenant| <= n && forall k :: k in filters ==> |filters[k]| <= n
  {
    n := |tenant|;
    var remaining := filters.Keys;
    while remaining != {}
      invariant remaining <= filters.Keys && |tenant| <= n
      invariant forall k :: k in filters && k !in remaining ==> |filters[k]| <= n
      decreases |remaining|
    {
      var k :| k in remaining;
      remaining := remaining - {k};
      if |filters[k]| > n { n := |filters[k]|; }
    }
  }

  /** A long text that a pattern filter asks for. */
  function Padded(op: FilterOp, value: string, n: nat): string {
    if op.HasEnd? then seq(n, _ => 'x') + value else value + seq(n, _ => 'x')
  }

  lemma PaddedAsked(op: FilterOp, value: string, n: nat, le: Order)
    requires n > 0
    ensures |Padded(op, value, n)| == n + |value|
    ensures !EndsInNewline(value) ==> !EndsInNewline(Padded(op, value, n))
    ensures IsPattern(op) ==> Asks(op, value, Str(Padded(op, value, n)), le)
  {
    var pad := seq(n, _ => 'x');
    FoldConcat(value, pad);
    FoldConcat(pad, value);
    assert OccursAt(Fold(value) + Fold(pad), Fold(value), 0);
  }

  lemma Extremes(filters: map<string, string>, tenant: string, op: FilterOp, value: string)
    returns (top: string, bottom: string)
    ensures Beyond(filters, tenant, top, bottom)
    ensures !EndsInNewline(value) ==> !EndsInNewline(top) && !EndsInNewline(bottom)
    ensures IsPattern(op) ==> forall le: Order :: Asks(op, value, Str(top), le) && Asks(op, value, Str(bottom), le)
  {
    hide Asks;
    var n := Longest(filters, tenant);
    top, bottom := Padded(op, value, n + 1), Padded(op, value, n + 2);
    forall le: Order ensures IsPattern(op) ==> Asks(op, value, Str(top), le) && Asks(op, value, Str(bottom), le) {
      PaddedAsked(op, value, n + 1, le);
      PaddedAsked(op, value, n + 2, le);
    }
    PaddedAsked(op, value, n + 1, Levels(top, bottom));
    PaddedAsked(op, value, n + 2, Levels(top, bottom));
  }

  /******* A scoped actor's documents *******/

  /** No filter in use displaces the tenant restriction: one on the tenant key asks for equality
      with the actor's own tenant. */
  predicate TenantStays(r: ResourceMeta, tenant: string, role: string, filters: map<string, string>) {
    Scoped(r, role) ==>
      forall k :: k in filters && filters[k] != "" && FieldOf(k) == r.tenantKey ==>
        OpOf(k).IsEqual? && filters[k] == tenant
  }

  lemma OwnedIs(r: ResourceMeta, tenant: string, row: Row)
    requires !Field(row, r.tenantKey).Int?
    ensures Owned(r, tenant, row) <==> Field(row, r.tenantKey) == Str(tenant)
  {}

  lemma SelectedOwned(r: ResourceMeta, tenant: string, role: string, search: string, filters: map<string, string>,
                      order: seq<string>, row: Row, le: Order)
    requires Scoped(r, role) && NoneRefused(r, filters) && NoOr(r) && TenantStays(r, tenant, role, filters)
    requires DocSelects(Document(r, tenant, role, search, filters, order), row, le)
    ensures Field(row, r.tenantKey) == Str(tenant)
  {
    hide FieldOf, OpOf, NoneRefused, NoOr, Document, DocSelects, SearchColumns, Mentions, Active, LastAt;
    var keys := Active(filters, order);
    var i := LastAt(keys, r.tenantKey);
    DocMeans(r, tenant, role, search, filters, order, row, le);
    if i >= 0 { assert OpOf(keys[i]).IsEqual? && filters[keys[i]] == tenant; }
  }

  lemma StraySelected(r: ResourceMeta, tenant: string, role: string, filters: map<string, string>)
    returns (le: Order, order: seq<string>, row: Row)
    requires Scoped(r, role) && NoneRefused(r, filters) && NoOr(r) && !TenantStays(r, tenant, role, filters)
    ensures TotalPreorder(le) && IsWalk(order, filters)
    ensures DocSelects(Document(r, tenant, role, "", filters, order), row, le) && !Owned(r, tenant, row)
    ensures forall tame :: (tame ==> PlainValues(filters)) ==> Compared(r, filters, row, tame)
  {
    hide FieldOf, OpOf, NoneRefused, NoOr, Document, DocSelects, Active, Asks, Stray, Levels, SearchColumns;
    var k :| k in filters && filters[k] != "" && FieldOf(k) == r.tenantKey &&
      !(OpOf(k).IsEqual? && filters[k] == tenant);
    var top, bottom := Extremes(filters, tenant, IsEqual, "");
    var text := Stray(OpOf(k), filters[k], tenant, top, bottom);
    StrayAsked(OpOf(k), filters[k], tenant, top, bottom);
    LevelsOrder(top, bottom);
    le := Levels(top, bottom);
    order, row := SelectedWith(r, tenant, role, filters, k, text, top, bottom);
    OwnedIs(r, tenant, row);
  }

  /** A scoped listing shows only the actor's own rows, whatever the order of the values, the walk
      and the search, exactly when no filter displaces the tenant restriction. */
  lemma ListsOwnExactly(r: ResourceMeta, tenant: string, role: string, filters: map<string, string>)
    requires Scoped(r, role) && NoneRefused(r, filters) && NoOr(r)
    ensures (forall le, order, search, row | TotalPreorder(le) && IsWalk(order, filters) ::
               DocSelects(Document(r, tenant, role, search, filters, order), row, le) ==> Owned(r, tenant, row))
       <==> TenantStays(r, tenant, role, filters)
  {
    hide NoneRefused, NoOr, Document, DocSelects, TenantStays, TotalPreorder, IsWalk;
    if TenantStays(r, tenant, role, filters) {
      forall le: Order, order, search, row | DocSelects(Document(r, tenant, role, search, filters, order), row, le)
        ensures Owned(r, tenant, row)
      {
        SelectedOwned(r, tenant, role, search, filters, order, row, le);
      }
    } else {
      var le, order, row := StraySelected(r, tenant, role, filters);
    }
  }

  /** So a filterable tenant key lets a scoped actor list another tenant's rows: the filter
      `tenant=other` is accepted, and the document then asks for that tenant alone. */
  lemma TenantFilterReplaces(r: ResourceMeta, tenant: string, role: string, other: string, row: Row, le: Order)
    requires NoOr(r) && Filterable(r, r.tenantKey) && !Contains(r.tenantKey, "::") && other != ""
    ensures var filters := map[r.tenantKey := other];
      && NoneRefused(r, filters) && IsWalk([r.tenantKey], filters)
      && (DocSelects(Document(r, tenant, role, "", filters, [r.tenantKey]), row, le) <==>
          Field(row, r.tenantKey) == Str(other))
  {
    hide DocSelects, Document, SearchColumns;
    var key := r.tenantKey;
    var filters := map[key := other];
    assert Find(key, "::").None?;
    assert FieldOf(key) == key && OpOf(key) == IsEqual;
    hide FieldOf, OpOf;
    assert [key] == [] + [key];
    ActiveStep(filters, [], key);
    assert Active(filters, [key]) == [key];
    DocMeans(r, tenant, role, "", filters, [key], row, le);
    assert LastAt([key], key) == 0;
    assert forall c :: c != key ==> LastAt([key], c) == -1;
  }

  /******* When a document says what the SQL clauses say *******/

  /** Two filters in use on one field are the same equality. */
  predicate OneOnField(filters: map<string, string>) {
    forall j, k | j in filters && k in filters && filters[j] != "" && filters[k] != "" ::
      j != k && FieldOf(j) == FieldOf(k) ==> OpOf(j).IsEqual? && OpOf(k).IsEqual? && filters[j] == filters[k]
  }

  predicate AllClean(filters: map<string, string>, tame: bool) {
    forall k :: k in filters && filters[k] != "" ==> Clean(OpOf(k), filters[k], tame)
  }

  ghost predicate AllMeet(pg: bool, filters: map<string, string>, row: Row, le: Order) {
    forall key :: key in filters && filters[key] != "" ==>
      Meets(pg, OpOf(key), filters[key], Field(row, FieldOf(key)), le)
  }

  ghost predicate LastAsked(filters: map<string, string>, keys: seq<string>, row: Row, le: Order)
    requires forall i :: 0 <= i < |keys| ==> keys[i] in filters
  {
    forall field :: var i := LastAt(keys, field);
      i >= 0 ==> Asks(OpOf(keys[i]), filters[keys[i]], Field(row, field), le)
  }

  /** The last filter on the field of a filter in use is that filter or the same equality. */
  lemma LastIsSame(filters: map<string, string>, order: seq<string>, key: string)
    requires IsWalk(order, filters) && OneOnField(filters) && InUse(filters, key)
    ensures var keys := Active(filters, order);
      var i := LastAt(keys, FieldOf(key));
      i >= 0 && OpOf(keys[i]) == OpOf(key) && filters[keys[i]] == filters[key] &&
        (IsPattern(OpOf(key)) ==> keys[i] == key)
  {
    hide FieldOf, OpOf, Active, LastAt;
    var keys := Active(filters, order);
    var i :| 0 <= i < |keys| && keys[i] == key;
    assert LastAt(keys, FieldOf(key)) >= i;
  }

  lemma LastAskedMeet(pg: bool, r: ResourceMeta, filters: map<string, string>, order: seq<string>, row: Row, le: Order,
                      tame: bool)
    requires IsWalk(order, filters) && OneOnField(filters) && AllClean(filters, tame) && Compared(r, filters, row, tame)
    ensures LastAsked(filters, Active(filters, order), row, le) <==> AllMeet(pg, filters, row, le)
  {
    hide FieldOf, OpOf, Active, Asks, Meets, OneOnField, LastAt, OnlyNewlines, SearchColumns;
    var keys := Active(filters, order);
    forall key | InUse(filters, key)
      ensures Asks(OpOf(key), filters[key], Field(row, FieldOf(key)), le)
         <==> Meets(pg, OpOf(key), filters[key], Field(row, FieldOf(key)), le)
    {
      AsksMeets(pg, OpOf(key), filters[key], Field(row, FieldOf(key)), le);
    }
    forall key | InUse(filters, key) ensures
      var i := LastAt(keys, FieldOf(key));
      i >= 0 && OpOf(keys[i]) == OpOf(key) && filters[keys[i]] == filters[key]
    {
      LastIsSame(filters, order, key);
    }
    if AllMeet(pg, filters, row, le) {
      forall field | LastAt(keys, field) >= 0
        ensures Asks(OpOf(keys[LastAt(keys, field)]), filters[keys[LastAt(keys, field)]], Field(row, field), le)
      {
        assert InUse(filters, keys[LastAt(keys, field)]);
      }
    }
  }

  lemma SearchMeans(columns: seq<string>, search: string, row: Row)
    requires MetaFree(search) && forall i :: 0 <= i < |columns| ==> !Field(row, columns[i]).Int?
    ensures Mentions(columns, search, row) <==> Found(columns, search, row)
  {
    hide LikeMatch, Contains, Fold;
  }

  /** Where no filter displaces another or the tenant restriction, and all are clean, the document
      selects the rows the SQL stores select. */
  lemma FilterDocMeans(pg: bool, r: ResourceMeta, tenant: string, role: string, search: string,
                       filters: map<string, string>, order: seq<string>, row: Row, le: Order, tame: bool)
    requires NoneRefused(r, filters) && NoOr(r) && IsWalk(order, filters) && Compared(r, filters, row, tame)
    requires MetaFree(search) || SearchColumns(r.fields) == []
    requires OneOnField(filters) && TenantStays(r, tenant, role, filters) && AllClean(filters, tame)
    ensures DocSelects(Document(r, tenant, role, search, filters, order), row, le)
       <==> Wanted(pg, r, tenant, role, search, filters, row, le)
  {
    hide NoneRefused, NoOr, DocSelects, Document, OneOnField, TenantStays, AllClean, SearchColumns, Mentions,
      Found, Owned, Meets, FieldOf, OpOf, Asks, Active, MetaFree, IsWalk, LastAt;
    DocMeans(r, tenant, role, search, filters, order, row, le);
    LastAskedMeet(pg, r, filters, order, row, le, tame);
    if SearchColumns(r.fields) != [] { SearchMeans(SearchColumns(r.fields), search, row); }
    OwnedIs(r, tenant, row);
    if Scoped(r, role) && DocSelects(Document(r, tenant, role, search, filters, order), row, le) {
      SelectedOwned(r, tenant, role, search, filters, order, row, le);
    }
  }

  /******* And nothing less will do *******/

  /** Of two different operators, the stronger is kept to tell them apart. */
  function Strength(op: FilterOp): nat {
    match op
    case IsEqual => 0
    case Above => 1
    case Below => 1
    case AtLeast => 2
    case AtMost => 2
    case HasEnd => 3
    case HasStart => 4
    case HasPart => 5
  }

  function Unlike(c: char): char { if ToLower(c) == 'x' then 'y' else 'x' }

  /** A text the kept filter asks for and the dropped one does not. */
  function Splitting(kept: FilterOp, value: string, dropped: FilterOp, other: string, top: string,
                     bottom: string): string
    requires other != ""
  {
    match dropped
    case IsEqual => Stray(kept, value, other, top, bottom)
    case AtLeast => bottom
    case Above => if kept.AtLeast? then value else bottom
    case AtMost => top
    case Below => if kept.AtMost? then value else top
    case HasEnd => value + [Unlike(other[|other| - 1])]
    case HasStart => [Unlike(other[0])] + value
    case HasPart => value
  }

  lemma ExtremesSplit(kept: FilterOp, value: string, dropped: FilterOp, other: string, top: string, bottom: string)
    requires value != "" && other != "" && !IsPattern(dropped) && !dropped.IsEqual?
    requires Strength(kept) >= Strength(dropped) && kept != dropped
    requires |value| < |top| < |bottom| && |other| < |top|
    requires IsPattern(kept) ==>
      forall le: Order :: Asks(kept, value, Str(top), le) && Asks(kept, value, Str(bottom), le)
    ensures var v, le := Str(Splitting(kept, value, dropped, other, top, bottom)), Levels(top, bottom);
      Asks(kept, value, v, le) && !Asks(dropped, other, v, le)
  {
    LevelOf(value, top, bottom);
    LevelOf(other, top, bottom);
    if IsPattern(kept) { hide Fold; }
  }

  lemma PatternsSplit(kept: FilterOp, value: string, dropped: FilterOp, other: string, top: string, bottom: string)
    requires value != "" && other != "" && (dropped.HasEnd? || dropped.HasStart?)
    requires Strength(kept) >= Strength(dropped) && kept != dropped
    ensures var v, le := Str(Splitting(kept, value, dropped, other, top, bottom)), Levels(top, bottom);
      Asks(kept, value, v, le) && !Asks(dropped, other, v, le)
  {
    var c := Unlike(if dropped.HasEnd? then other[|other| - 1] else other[0]);
    assert ToLower(c) == c != '\n';
    FoldConcat(value, [c]);
    FoldConcat([c], value);
    if dropped.HasEnd? {
      assert OccursAt(Fold(value) + Fold([c]), Fold(value), 0);
      assert Fold(value + [c])[|value|] == c && Fold(other)[|other| - 1] != c;
    } else {
      assert OccursAt(Fold([c]) + Fold(value), Fold(value), 1);
      assert Fold([c] + value)[0] == c && Fold(other)[0] != c;
    }
  }

  /** Two different filters on one field differ in a text. */
  lemma SplittingSplits(kept: FilterOp, value: string, dropped: FilterOp, other: string, top: string, bottom: string)
    requires value != "" && other != ""
    requires if kept == dropped then kept.IsEqual? && value != other else Strength(kept) >= Strength(dropped)
    requires |value| < |top| < |bottom| && |other| < |top|
    requires IsPattern(kept) ==>
      forall le: Order :: Asks(kept, value, Str(top), le) && Asks(kept, value, Str(bottom), le)
    ensures var text, le := Splitting(kept, value, dropped, other, top, bottom), Levels(top, bottom);
      && Asks(kept, value, Str(text), le) && !Asks(dropped, other, Str(text), le)
      && (!EndsInNewline(value) && !EndsInNewline(top) && !EndsInNewline(bottom) ==> !EndsInNewline(text))
  {
    hide Fold;
    if dropped.IsEqual? {
      StrayAsked(kept, value, other, top, bottom);
    } else if IsPattern(dropped) {
      PatternsSplit(kept, value, dropped, other, top, bottom);
    } else {
      ExtremesSplit(kept, value, dropped, other, top, bottom);
    }
  }

  function Spelled(op: FilterOp): string {
    match op
    case IsEqual => "eq"
    case HasPart => "contains"
    case HasStart => "starts_with"
    case HasEnd => "ends_with"
    case AtLeast => "gte"
    case AtMost => "lte"
    case Above => "gt"
    case Below => "lt"
  }

  lemma CutAgain(key: string)
    ensures Cut(key, "::").found ==> key == FieldOf(key) + "::" + OperatorOf(key)
  {
    if Cut(key, "::").found {
      var i := Find(key, "::").value;
      assert key == key[..i] + key[i..i + 2] + key[i + 2..];
    }
  }

  lemma SpelledParses(operator: string)
    requires ParseOperator(operator).Some?
    ensures operator == Spelled(ParseOperator(operator).value)
  {}

  /** A key that is not an equality is its field and operator. */
  lemma KeySpelled(key: string)
    requires ParseOperator(OperatorOf(key)).Some? && !OpOf(key).IsEqual?
    ensures key == FieldOf(key) + "::" + Spelled(OpOf(key))
  {
    CutAgain(key);
    SpelledParses(OperatorOf(key));
    hide FieldOf, OperatorOf, ParseOperator, Spelled;
  }

  lemma DifferentKeysDiffer(r: ResourceMeta, filters: map<string, string>, j: string, k: string)
    requires NoneRefused(r, filters) && InUse(filters, j) && InUse(filters, k) && j != k && FieldOf(j) == FieldOf(k)
    ensures OpOf(j) == OpOf(k) ==> OpOf(j).IsEqual?
  {
    hide FieldOf, OperatorOf;
    assert !Refused(r, j, filters[j]) && !Refused(r, k, filters[k]);
    if OpOf(j) == OpOf(k) && !OpOf(j).IsEqual? {
      hide ParseOperator;
      KeySpelled(j);
      KeySpelled(k);
    }
  }

  /** Different filters on one field make the walk decide: one walk's document selects a row that
      the other's does not. */
  lemma WalksDiffer(r: ResourceMeta, tenant: string, role: string, filters: map<string, string>, kept: string,
                    dropped: string)
    returns (le: Order, first: seq<string>, second: seq<string>, row: Row)
    requires NoneRefused(r, filters) && NoOr(r)
    requires InUse(filters, kept) && InUse(filters, dropped) && FieldOf(kept) == FieldOf(dropped)
    requires if OpOf(kept) == OpOf(dropped) then OpOf(kept).IsEqual? && filters[kept] != filters[dropped]
      else Strength(OpOf(kept)) >= Strength(OpOf(dropped))
    ensures TotalPreorder(le) && IsWalk(first, filters) && IsWalk(second, filters)
    ensures forall tame :: (tame ==> PlainValues(filters)) ==> Compared(r, filters, row, tame)
    ensures DocSelects(Document(r, tenant, role, "", filters, first), row, le)
    ensures !DocSelects(Document(r, tenant, role, "", filters, second), row, le)
  {
    hide FieldOf, OpOf, NoneRefused, NoOr, Document, DocSelects, Asks, Compared, Levels, Splitting, Strength, Active,
      LastAt;
    var op, value := OpOf(kept), filters[kept];
    var top, bottom := Extremes(filters, tenant, op, value);
    LevelsOrder(top, bottom);
    SplittingSplits(op, value, OpOf(dropped), filters[dropped], top, bottom);
    le := Levels(top, bottom);
    var text := Splitting(op, value, OpOf(dropped), filters[dropped], top, bottom);
    first, row := SelectedWith(r, tenant, role, filters, kept, text, top, bottom);
    second := WalkEnding(filters, dropped);
    EndedWalk(filters, dropped, second);
    DocMeans(r, tenant, role, "", filters, second, row, le);
    assert !Asks(OpOf(dropped), filters[dropped], Field(row, FieldOf(dropped)), le);
  }

  ghost predicate DocAgrees(pg: bool, r: ResourceMeta, tenant: string, role: string, search: string,
                            filters: map<string, string>, order: seq<string>, row: Row, le: Order)
  {
    DocSelects(Document(r, tenant, role, search, filters, order), row, le)
    <==> Wanted(pg, r, tenant, role, search, filters, row, le)
  }

  /** The document agrees with the clauses on every row compared, walk and search without
      metacharacters, in every order of the values. */
  ghost predicate AlwaysAgrees(pg: bool, r: ResourceMeta, tenant: string, role: string, filters: map<string, string>,
                               tame: bool)
  {
    forall le, order, search, row
      | TotalPreorder(le) && IsWalk(order, filters) && MetaFree(search) && Compared(r, filters, row, tame) ::
      DocAgrees(pg, r, tenant, role, search, filters, order, row, le)
  }

  lemma PairsDisagree(pg: bool, r: ResourceMeta, tenant: string, role: string, filters: map<string, string>, tame: bool)
    requires NoneRefused(r, filters) && NoOr(r) && (tame ==> PlainValues(filters)) && !OneOnField(filters)
    ensures !AlwaysAgrees(pg, r, tenant, role, filters, tame)
  {
    hide FieldOf, OpOf, NoneRefused, NoOr, Document, DocSelects, Compared, Wanted, Strength;
    var j, k :| InUse(filters, j) && InUse(filters, k) && j != k && FieldOf(j) == FieldOf(k)
      && !(OpOf(j).IsEqual? && OpOf(k).IsEqual? && filters[j] == filters[k]);
    DifferentKeysDiffer(r, filters, j, k);
    var ordered := Strength(OpOf(j)) >= Strength(OpOf(k));
    var le, first, second, row :=
      WalksDiffer(r, tenant, role, filters, if ordered then j else k, if ordered then k else j);
    assert MetaFree("");
    assert !DocAgrees(pg, r, tenant, role, "", filters, first, row, le) ||
      !DocAgrees(pg, r, tenant, role, "", filters, second, row, le);
  }

  lemma TenantsDisagree(pg: bool, r: ResourceMeta, tenant: string, role: string, filters: map<string, string>,
                        tame: bool)
    requires NoneRefused(r, filters) && NoOr(r) && (tame ==> PlainValues(filters))
    requires !TenantStays(r, tenant, role, filters)
    ensures !AlwaysAgrees(pg, r, tenant, role, filters, tame)
  {
    hide FieldOf, OpOf, NoneRefused, NoOr, Document, DocSelects, Compared, Meets, Found, Owned;
    var le, order, row := StraySelected(r, tenant, role, filters);
    assert MetaFree("");
    assert !DocAgrees(pg, r, tenant, role, "", filters, order, row, le);
  }

  /** A lone backslash at the end of an `ends_with` value: the clause matches nothing. */
  lemma LoneDisagrees(pg: bool, r: ResourceMeta, tenant: string, role: string, filters: map<string, string>,
                      key: string, tame: bool)
    requires NoneRefused(r, filters) && NoOr(r) && (tame ==> PlainValues(filters)) && InUse(filters, key)
    requires OpOf(key).HasEnd? && !MetaFree(filters[key]) && LoneBackslash(Fold(filters[key]))
    ensures !AlwaysAgrees(pg, r, tenant, role, filters, tame)
  {
    hide FieldOf, OpOf, NoneRefused, NoOr, Document, DocSelects, Compared, Meets, Found, Owned, Asks, LoneBackslash,
      Levels;
    var top, bottom := Extremes(filters, tenant, IsEqual, "");
    LevelsOrder(top, bottom);
    var le, text := Levels(top, bottom), filters[key];
    TellingTells(pg, HasEnd, text, le);
    assert Telling(HasEnd, text) == text;
    var order, row := SelectedWith(r, tenant, role, filters, key, text, top, bottom);
    assert MetaFree("") && !Wanted(pg, r, tenant, role, "", filters, row, le);
    assert !DocAgrees(pg, r, tenant, role, "", filters, order, row, le);
  }

  /** Texts that meet every filter; one with a metacharacter gets a text its entry does not hold of. */
  function MeetingTexts(filters: map<string, string>, top: string, bottom: string): map<string, string> {
    map k | k in filters ::
      if IsPattern(OpOf(k)) && !MetaFree(filters[k]) then Telling(OpOf(k), filters[k])
      else Suiting(OpOf(k), filters[k], top, bottom)
  }

  predicate LoneEnd(filters: map<string, string>, key: string)
    requires key in filters
  {
    OpOf(key).HasEnd? && LoneBackslash(Fold(filters[key]))
  }

  lemma SuitingMeets(pg: bool, op: FilterOp, value: string, top: string, bottom: string)
    requires |value| < |top| < |bottom| && (IsPattern(op) ==> MetaFree(value))
    ensures Meets(pg, op, value, Str(Suiting(op, value, top, bottom)), Levels(top, bottom))
  {
    if op.HasEnd? {
      assert HasSuffix(Fold(value), Fold(value));
    } else {
      hide Asks;
      SuitingAsked(op, value, top, bottom);
      AsksMeets(pg, op, value, Str(Suiting(op, value, top, bottom)), Levels(top, bottom));
    }
  }

  lemma MeetingTextsMeet(pg: bool, filters: map<string, string>, tenant: string, top: string, bottom: string,
                         key: string)
    requires InUse(filters, key) && Beyond(filters, tenant, top, bottom)
    requires !MetaFree(filters[key]) ==> !LoneEnd(filters, key)
    ensures var op, text, le := OpOf(key), MeetingTexts(filters, top, bottom)[key], Levels(top, bottom);
      && Meets(pg, op, filters[key], Str(text), le)
      && (!EndsInNewline(filters[key]) && !EndsInNewline(top) && !EndsInNewline(bottom) ==> !EndsInNewline(text))
      && (IsPattern(op) && !MetaFree(filters[key]) ==> !Asks(op, filters[key], Str(text), le))
  {
    hide OpOf, Asks, Meets, Levels, MetaFree, LoneBackslash, Telling;
    var op, value, le := OpOf(key), filters[key], Levels(top, bottom);
    if IsPattern(op) && !MetaFree(value) {
      TellingTells(pg, op, value, le);
    } else {
      SuitingMeets(pg, op, value, top, bottom);
    }
  }

  lemma MeetingRowWanted(pg: bool, r: ResourceMeta, tenant: string, role: string, filters: map<string, string>,
                         order: seq<string>, top: string, bottom: string, tame: bool)
    requires IsWalk(order, filters) && Beyond(filters, tenant, top, bottom)
    requires tame ==> PlainValues(filters) && !EndsInNewline(top) && !EndsInNewline(bottom)
    requires OneOnField(filters) && TenantStays(r, tenant, role, filters)
    requires forall k :: InUse(filters, k) && !MetaFree(filters[k]) ==> !LoneEnd(filters, k)
    ensures var row := RowOf(r, tenant, Active(filters, order), MeetingTexts(filters, top, bottom));
      Wanted(pg, r, tenant, role, "", filters, row, Levels(top, bottom)) && Compared(r, filters, row, tame)
  {
    hide FieldOf, OpOf, Active, LastAt, Meets, Asks, Levels, MetaFree, LoneEnd, Compared, OneOnField, Beyond, RowOf,
      Found, Owned;
    var keys, texts, le := Active(filters, order), MeetingTexts(filters, top, bottom), Levels(top, bottom);
    var row := RowOf(r, tenant, keys, texts);
    forall k | InUse(filters, k)
      ensures tame ==> !EndsInNewline(texts[k])
      ensures Meets(pg, OpOf(k), filters[k], Field(row, FieldOf(k)), le)
    {
      LastIsSame(filters, order, k);
      var last := keys[LastAt(keys, FieldOf(k))];
      MeetingTextsMeet(pg, filters, tenant, top, bottom, k);
      MeetingTextsMeet(pg, filters, tenant, top, bottom, last);
      RowHolds(r, tenant, keys, texts, FieldOf(k));
    }
    RowCompared(r, tenant, filters, order, texts, tame);
    RowHolds(r, tenant, keys, texts, r.tenantKey);
    OwnedIs(r, tenant, row);
    if Scoped(r, role) && LastAt(keys, r.tenantKey) >= 0 {
      var last := keys[LastAt(keys, r.tenantKey)];
      assert OpOf(last).IsEqual? && filters[last] == tenant;
    }
  }

  /** Otherwise the decoys: a row that meets every clause and that the document does not select. */
  lemma DecoysDisagree(pg: bool, r: ResourceMeta, tenant: string, role: string, filters: map<string, string>,
                       key: string, tame: bool)
    requires NoneRefused(r, filters) && NoOr(r) && (tame ==> PlainValues(filters))
    requires OneOnField(filters) && TenantStays(r, tenant, role, filters)
    requires InUse(filters, key) && IsPattern(OpOf(key)) && !MetaFree(filters[key])
    requires forall k :: InUse(filters, k) && !MetaFree(filters[k]) ==> !LoneEnd(filters, k)
    ensures !AlwaysAgrees(pg, r, tenant, role, filters, tame)
  {
    hide FieldOf, OpOf, Active, LastAt, Asks, Levels, LoneEnd, Compared, OneOnField, TenantStays, RowOf, Wanted,
      NoneRefused, NoOr, Document, DocSelects, IsPattern;
    var top, bottom := Extremes(filters, tenant, IsEqual, "");
    LevelsOrder(top, bottom);
    var order := WalkEnding(filters, key);
    EndedWalk(filters, key, order);
    var keys, texts, le := Active(filters, order), MeetingTexts(filters, top, bottom), Levels(top, bottom);
    var row := RowOf(r, tenant, keys, texts);
    MeetingRowWanted(pg, r, tenant, role, filters, order, top, bottom, tame);
    MeetingTextsMeet(pg, filters, tenant, top, bottom, key);
    RowHolds(r, tenant, keys, texts, FieldOf(key));
    DocMeans(r, tenant, role, "", filters, order, row, le);
    assert !Asks(OpOf(key), filters[key], Field(row, FieldOf(key)), le);
    assert MetaFree("") && !DocAgrees(pg, r, tenant, role, "", filters, order, row, le);
  }

  /** An `ends_with` value that is not only newlines: the value and a final newline. */
  lemma NewlineDisagrees(pg: bool, r: ResourceMeta, tenant: string, role: string, filters: map<string, string>,
                         key: string)
    requires NoneRefused(r, filters) && NoOr(r) && InUse(filters, key)
    requires !Clean(OpOf(key), filters[key], false) && (IsPattern(OpOf(key)) ==> MetaFree(filters[key]))
    ensures !AlwaysAgrees(pg, r, tenant, role, filters, false)
  {
    hide FieldOf, OpOf, NoneRefused, NoOr, Document, DocSelects, Compared, Found, Owned, LoneBackslash, Levels, Fold;
    var top, bottom := Extremes(filters, tenant, IsEqual, "");
    LevelsOrder(top, bottom);
    var le, value := Levels(top, bottom), filters[key];
    NewlineAfter(value);
    assert (value + "\n")[..|value|] == value && HasSuffix(Fold(value), Fold(value));
    assert Asks(HasEnd, value, Str(value + "\n"), le) && !Meets(pg, HasEnd, value, Str(value + "\n"), le);
    hide Asks, Meets;
    var order, row := SelectedWith(r, tenant, role, filters, key, value + "\n", top, bottom);
    assert MetaFree("") && !Wanted(pg, r, tenant, role, "", filters, row, le);
    assert !DocAgrees(pg, r, tenant, role, "", filters, order, row, le);
  }

  /** The document says what the SQL clauses say, whatever the walk, exactly when two filters on one
      field are the same equality, none displaces the tenant restriction, and every filter is clean:
      no pattern has a LIKE metacharacter and, unless no text ends in a newline, no `ends_with` value
      has anything but newlines. */
  lemma DocAgreesExactly(pg: bool, r: ResourceMeta, tenant: string, role: string, filters: map<string, string>,
                         tame: bool)
    requires NoneRefused(r, filters) && NoOr(r) && (tame ==> PlainValues(filters))
    ensures AlwaysAgrees(pg, r, tenant, role, filters, tame)
       <==> OneOnField(filters) && TenantStays(r, tenant, role, filters) && AllClean(filters, tame)
  {
    hide FieldOf, OpOf, NoneRefused, NoOr, OneOnField, TenantStays, TotalPreorder, IsWalk, MetaFree, Compared,
      DocSelects, Document, Wanted, LoneBackslash, OnlyNewlines;
    if !OneOnField(filters) {
      PairsDisagree(pg, r, tenant, role, filters, tame);
    } else if !TenantStays(r, tenant, role, filters) {
      TenantsDisagree(pg, r, tenant, role, filters, tame);
    } else if k :| InUse(filters, k) && !MetaFree(filters[k]) && LoneEnd(filters, k) {
      LoneDisagrees(pg, r, tenant, role, filters, k, tame);
    } else if k :| InUse(filters, k) && IsPattern(OpOf(k)) && !MetaFree(filters[k]) {
      DecoysDisagree(pg, r, tenant, role, filters, k, tame);
    } else if k :| InUse(filters, k) && !Clean(OpOf(k), filters[k], tame) {
      NewlineDisagrees(pg, r, tenant, role, filters, k);
    } else {
      forall le: Order, order, search, row
        | TotalPreorder(le) && IsWalk(order, filters) && MetaFree(search) && Compared(r, filters, row, tame)
        ensures DocAgrees(pg, r, tenant, role, search, filters, order, row, le)
      {
        FilterDocMeans(pg, r, tenant, role, search, filters, order, row, le, tame);
      }
    }
  }

  lemma CutKey(field: string, operator: string, key: string)
    requires key == field + "::" + operator && ':' !in field
    ensures FieldOf(key) == field && OperatorOf(key) == operator
  {
    assert key[|field|..|field| + 2] == "::";
    forall i | 0 <= i < |field| ensures !OccursAt(key, "::", i) { assert key[i..i + 2][0] == field[i]; }
    FindAt(key, "::", |field|);
    assert key[|field| + 2..] == operator && key[..|field|] == field;
  }

  lemma ActivePair(filters: map<string, string>, first: string, second: string)
    requires first in filters && second in filters && filters[first] != "" && filters[second] != ""
    ensures Active(filters, [first, second]) == [first, second]
  {
    assert [first, second][..1] == [first] && [first][..0] == [];
    assert Active(filters, []) == [] && Active(filters, [first]) == [first];
  }

  /** Two filters on one field, such as the two bounds of a range: both are accepted and the document
      asks for the one walked last, whatever the other says. */
  lemma TwoFiltersDiffer(r: ResourceMeta, tenant: string, role: string, field: string, operator: string, value: string,
                         later: string, last: string, row: Row, le: Order)
    requires NoOr(r) && Filterable(r, field) && ':' !in field && value != "" && last != "" && operator != later
    requires ParseOperator(operator).Some? && ParseOperator(later).Some?
    ensures var first, second := field + "::" + operator, field + "::" + later;
      var filters := map[first := value, second := last];
      && NoneRefused(r, filters) && IsWalk([first, second], filters)
      && (DocSelects(Document(r, tenant, role, "", filters, [first, second]), row, le) <==>
            (Asks(ParseOperator(later).value, last, Field(row, field), le)
             && (Scoped(r, role) && field != r.tenantKey ==> Field(row, r.tenantKey) == Str(tenant))))
  {
    hide DocSelects, Document, SearchColumns, FieldOf, OperatorOf, Asks, ParseOperator, Filterable, NoOr, Mentions,
      Active, LastAt;
    var first, second := field + "::" + operator, field + "::" + later;
    var filters := map[first := value, second := last];
    CutKey(field, operator, first);
    CutKey(field, later, second);
    ActivePair(filters, first, second);
    var keys := [first, second];
    assert FieldOf(first) == FieldOf(second) == field && first != second;
    DocMeans(r, tenant, role, "", filters, keys, row, le);
    assert LastAt(keys, field) == 1 && keys[1] == second;
    assert forall i :: 0 <= i < 2 ==> FieldOf(keys[i]) == field;
    assert forall c :: c != field ==> LastAt(keys, c) == -1;
  }
}
