/** Filter keys of list requests: `filter[f][op]` is read by two parsers, one of which passes it on
    as `f::op` to be cut apart again. */
module FilterKeys {
  import opened Wrappers
  import opened Text
  import opened Pagination
  import opened QueryFilters
  import ListFilters

  /** The key a client writes. */
  function KeyText(field: string, op: string): string { "filter[" + field + "][" + op + "]" }

  /** The key the request handler passes on. */
  function Reencoded(key: string): Option<string> {
    if !HasPrefix(key, FILTER) then None
    else
      var parts := Split(TrimPrefix(key, FILTER), "][");
      var field := TrimSuffix(parts[0], "]");
      if field == "" then None
      else Some(if |parts| > 1 then field + "::" + TrimSuffix(parts[1], "]") else field)
  }

  /** Walks the query in whatever order comes; of two keys read alike the later walked stays. */
  method ParseRequestFilters(query: Values) returns (filters: map<string, string>)
    ensures forall k :: k in filters <==> exists q :: q in query && query[q] != [] && Reencoded(q) == Some(k)
    ensures forall k :: k in filters ==>
      exists q :: q in query && query[q] != [] && Reencoded(q) == Some(k) && filters[k] == query[q][0]
  {
    filters := map[];
    var remaining := query.Keys;
    while remaining != {}
      invariant remaining <= query.Keys
      invariant forall k :: k in filters <==>
        exists q :: q in query && q !in remaining && query[q] != [] && Reencoded(q) == Some(k)
      invariant forall k :: k in filters ==>
        exists q :: q in query && q !in remaining && query[q] != [] && Reencoded(q) == Some(k) &&
          filters[k] == query[q][0]
      decreases |remaining|
    {
      var key :| key in remaining;
      ghost var was := remaining;
      remaining := remaining - {key};
      var given := query[key];
      if !HasPrefix(key, FILTER) || |given| == 0 { continue; }
      var parts := Split(TrimPrefix(key, FILTER), "][");
      var field := TrimSuffix(parts[0], "]");
      if field == "" { continue; }
      if |parts| > 1 { field := field + "::" + TrimSuffix(parts[1], "]"); }
      filters := filters[field := given[0]];
    }
  }

  /******* Two-character separators *******/

  /** Where the pair ab first occurs in f + ab + rest: after f, unless f has it already, or f ends
      in a and the pair is doubled. */
  lemma PairFirst(f: string, a: char, b: char, rest: string) returns (n: nat)
    ensures Find(f + [a, b] + rest, [a, b]) == Some(n) && n <= |f|
    ensures n == |f| <==> !Contains(f, [a, b]) && !(a == b && f != "" && f[|f| - 1] == a)
  {
    var s, sep := f + [a, b] + rest, [a, b];
    assert s[|f|..|f| + 2] == sep;
    assert OccursAt(s, sep, |f|);
    n := Find(s, sep).value;
    forall i | 0 <= i < |f| - 1 ensures OccursAt(s, sep, i) <==> OccursAt(f, sep, i) {
      assert s[i..i + 2] == f[i..i + 2];
    }
    if f != "" {
      assert s[|f| - 1..|f| + 1] == [f[|f| - 1], a];
      assert OccursAt(s, sep, |f| - 1) <==> f[|f| - 1] == a && a == b;
    }
    if Contains(f, sep) {
      var i :| OccursAt(f, sep, i);
      assert OccursAt(s, sep, i);
    }
    if n < |f| - 1 { assert OccursAt(f, sep, n); }
  }

  lemma CutPair(f: string, a: char, b: char, rest: string)
    ensures var cut := Cut(f + [a, b] + rest, [a, b]);
      && cut.found && cut.before <= f
      && (cut.before == f <==> !Contains(f, [a, b]) && !(a == b && f != "" && f[|f| - 1] == a))
      && (cut.before == f ==> cut.after == rest)
  {
    var s := f + [a, b] + rest;
    var n := PairFirst(f, a, b, rest);
    assert s[..|f|] == f && s[|f| + 2..] == rest && s[..n] == f[..n];
  }

  /******* Brackets *******/

  predicate EndsIn(s: string, c: char) { s != "" && s[|s| - 1] == c }

  lemma TrimBracket(s: string)
    ensures TrimSuffix(s + "]", "]") == s
  {
    var all := s + "]";
    assert all[|all| - 1..] == "]" && all[..|all| - 1] == s;
  }

  /** The first part of a split is what a cut gives. */
  lemma SplitIsCut(s: string, sep: string)
    requires sep != ""
    ensures Split(s, sep)[0] == Cut(s, sep).before
    ensures Cut(s, sep).found ==> |Split(s, sep)| > 1 && Split(s, sep)[1] == Cut(Cut(s, sep).after, sep).before
  {
    if Cut(s, sep).found { assert Split(s, sep)[1] == Split(Cut(s, sep).after, sep)[0]; }
  }

  /** The last part, `op]`, is cut short exactly when op itself holds a seam. */
  lemma LastPart(op: string)
    ensures TrimSuffix(Cut(op + "]", "][").before, "]") == op <==> !Contains(op, "][")
  {
    var s := op + "]";
    TrimBracket(op);
    forall i | 0 <= i <= |op| - 2
      ensures OccursAt(s, "][", i) <==> OccursAt(op, "][", i)
    {
      assert s[i..i + 2] == op[i..i + 2];
    }
    if op != "" {
      assert s[|op| - 1..|op| + 1] == [op[|op| - 1], ']'];
      assert !OccursAt(s, "][", |op| - 1);
    }
    if Contains(op, "][") {
      var i :| OccursAt(op, "][", i);
      assert OccursAt(s, "][", i);
    }
  }

  lemma TrimEnd(s: string)
    ensures TrimSuffix(s, "]") == if EndsIn(s, ']') then s[..|s| - 1] else s
  {
    if s != "" { assert s[|s| - 1..] == [s[|s| - 1]]; }
  }

  /** The field part comes back exactly when it holds no seam and does not end in a bracket. */
  lemma FieldPart(field: string, op: string)
    ensures var first := TrimSuffix(Cut(field + "][" + (op + "]"), "][").before, "]");
      && first <= field && (first == field <==> !Contains(field, "][") && !EndsIn(field, ']'))
  {
    hide Cut, TrimSuffix, Contains;
    CutPair(field, ']', '[', op + "]");
    TrimEnd(Cut(field + "][" + (op + "]"), "][").before);
  }

  lemma Trimmed(field: string, op: string)
    ensures HasPrefix(KeyText(field, op), FILTER) && HasSuffix(KeyText(field, op), "]")
    ensures TrimPrefix(KeyText(field, op), FILTER) == field + "][" + (op + "]")
  {
    var rest := field + "][" + (op + "]");
    assert KeyText(field, op) == FILTER + rest;
    assert KeyText(field, op)[|FILTER|..] == rest;
    assert KeyText(field, op)[|KeyText(field, op)| - 1..] == "]";
  }

  predicate GoodField(field: string) { field != "" && Find(field, "][").None? && !EndsIn(field, ']') }

  lemma FindNone(s: string, sep: string)
    ensures Find(s, sep).None? <==> !Contains(s, sep)
  {
    if Find(s, sep).Some? { assert OccursAt(s, sep, Find(s, sep).value); }
  }

  /** What the parts of a key's text are. */
  lemma KeyParts(field: string, op: string, parts: seq<string>)
    requires parts == Split(TrimPrefix(KeyText(field, op), FILTER), "][")
    ensures HasPrefix(KeyText(field, op), FILTER) && HasSuffix(KeyText(field, op), "]") && |parts| > 1
    ensures var first := TrimSuffix(parts[0], "]");
      first <= field && (first == field <==> Find(field, "][").None? && !EndsIn(field, ']'))
    ensures TrimSuffix(parts[0], "]") == field ==> (TrimSuffix(parts[1], "]") == op <==> Find(op, "][").None?)
  {
    hide Split, Cut, TrimSuffix, Contains, Find;
    var s := field + "][" + (op + "]");
    Trimmed(field, op);
    SplitIsCut(s, "][");
    FieldPart(field, op);
    CutPair(field, ']', '[', op + "]");
    LastPart(op);
    FindNone(field, "][");
    FindNone(op, "][");
  }

  /** The parser of pkg/filters gives (f, op) back exactly when f is not empty, neither has `][`
      inside, and f does not end in `]`. */
  lemma FilterKeyExactly(field: string, op: string)
    ensures ParseFilterKey(KeyText(field, op)) == Some((field, op)) <==> GoodField(field) && Find(op, "][").None?
  {
    hide Split, TrimSuffix, TrimPrefix, HasPrefix, HasSuffix, Find, KeyText;
    KeyParts(field, op, Split(TrimPrefix(KeyText(field, op), FILTER), "]["));
  }

  /** Through the handler's `f::op` and the cut in the WHERE builder, (f, op) comes back exactly when
      moreover f has no `::` inside and does not end in `:`. */
  lemma ReencodedExactly(field: string, op: string)
    ensures var key := Reencoded(KeyText(field, op));
      (key.Some? && Cut(key.value, "::") == CutResult(field, op, true))
        <==> GoodField(field) && Find(op, "][").None? && Find(field, "::").None? && !EndsIn(field, ':')
  {
    hide Split, Cut, TrimSuffix, TrimPrefix, HasPrefix, HasSuffix, Find, KeyText, Contains;
    var parts := Split(TrimPrefix(KeyText(field, op), FILTER), "][");
    KeyParts(field, op, parts);
    var first, second := TrimSuffix(parts[0], "]"), TrimSuffix(parts[1], "]");
    CutPair(first, ':', ':', second);
    assert [':', ':'] == "::";
    var cut := Cut(first + "::" + second, "::");
    assert cut == CutResult(cut.before, cut.after, cut.found);
    assert first != "" ==> Reencoded(KeyText(field, op)) == Some(first + "::" + second);
    FindNone(field, "::");
  }

  /** What the stores then filter by. */
  lemma ReencodedFilters(field: string, op: string)
    requires GoodField(field) && Find(op, "][").None? && Find(field, "::").None? && !EndsIn(field, ':')
    ensures Reencoded(KeyText(field, op)).Some?
    ensures ListFilters.FieldOf(Reencoded(KeyText(field, op)).value) == field
    ensures ListFilters.OperatorOf(Reencoded(KeyText(field, op)).value) == op
  {
    ReencodedExactly(field, op);
  }

  /******* Keys without an operator *******/

  lemma PlainTrimmed(field: string, head: string, key: string)
    requires head == FILTER && key == head + field + "]"
    ensures HasPrefix(key, FILTER) && HasSuffix(key, "]") && TrimPrefix(key, FILTER) == field + "]"
  {
    assert key == head + (field + "]");
    assert key[|key| - 1..] == "]";
  }

  lemma SeamInside(field: string)
    ensures Find(field + "]", "][") == Find(field, "][")
  {
    var s := field + "]";
    forall i ensures OccursAt(s, "][", i) <==> OccursAt(field, "][", i) {
      if 0 <= i <= |field| - 2 {
        assert s[i..i + 2] == field[i..i + 2];
      } else if i == |field| - 1 && i >= 0 {
        assert s[i..i + 2][1] == ']';
      }
    }
    var a, b := Find(s, "]["), Find(field, "][");
    if b.Some? { FindAt(s, "][", b.value); }
  }

  lemma SeamFirst(field: string)
    requires Find(field, "][").Some?
    ensures var first := TrimSuffix(Cut(field + "]", "][").before, "]");
      |first| < |field| && field[|first|] == ']' && Cut(field + "]", "][").found
  {
    SeamInside(field);
    var n := Find(field, "][").value;
    assert field[n] == field[n..n + 2][0] == ']';
    var before := Cut(field + "]", "][").before;
    assert before == field[..n];
    TrimEnd(before);
    hide Find, Cut, TrimSuffix;
    if EndsIn(before, ']') { assert field[n - 1] == before[n - 1]; }
  }

  /** The only part of a key without a seam, and of one with a seam the first, which is shorter. */
  lemma PlainParts(field: string)
    ensures var parts := Split(field + "]", "][");
      var first := TrimSuffix(parts[0], "]");
      if Find(field, "][").None? then |parts| == 1 && first == field
      else |parts| > 1 && |first| < |field| && field[|first|] == ']'
  {
    if Find(field, "][").None? {
      SeamInside(field);
      TrimBracket(field);
    } else {
      SplitIsCut(field + "]", "][");
      SeamFirst(field);
    }
  }

  /** The stores then read f as a field to be equal exactly when it has no `::` inside. */
  lemma PlainFilters(field: string)
    ensures Find(field, "::").None? <==>
      ListFilters.FieldOf(field) == field && ListFilters.OperatorOf(field) == "eq"
  {}

  /** `filter[f]` is f without an operator for the parser of pkg/filters, and passed on as f by the handler,
      exactly when f is not empty and has no `][` inside. */
  lemma PlainKeyExactly(field: string)
    ensures var key := "filter[" + field + "]";
      && (ParseFilterKey(key) == Some((field, "")) <==> field != "" && Find(field, "][").None?)
      && (Reencoded(key) == Some(field) <==> field != "" && Find(field, "][").None?)
  {
    hide Split, TrimPrefix, TrimSuffix, HasPrefix, HasSuffix, Find;
    PlainTrimmed(field, "filter[", "filter[" + field + "]");
    PlainParts(field);
    var parts := Split(field + "]", "][");
    if |parts| > 1 {
      var first, second := TrimSuffix(parts[0], "]"), TrimSuffix(parts[1], "]");
      assert (first + "::" + second)[|first|] == ':';
    }
  }

  /******* What a parameter contributes *******/

  /** The operators a field's type allows; text contains by default, and everything else is equal. */
  lemma FilterReads(key: string, field: string, op: string, value: string, more: seq<string>, allowed: AllowedFields)
    requires HasPrefix(key, "filter[") && ParseFilterKey(key) == Some((field, op)) && value != ""
    ensures var r := FilterFrom(key, [value] + more, allowed);
      if field !in allowed || !allowed[field].filterable then r.Failure?
      else
        var kind := allowed[field].kind;
        var text, ordered := kind.TypeString? || kind.TypeJSONB?,
          kind.TypeNumber? || kind.TypeDate? || kind.TypeDateTime?;
        var operator := if op != "" then op else if text then "contains" else "eq";
        if || operator == "eq"
           || (text && operator in ["contains", "starts_with", "ends_with"])
           || (ordered && operator in ["gte", "lte", "gt", "lt"])
           || ((kind.TypeEnum? || kind.TypeRelation?) && operator == "in")
        then r == Success(Some(Filter(field, operator, value))) else r.Failure?
    ensures FilterFrom(key, [], allowed) == FilterFrom(key, [""] + more, allowed) == Success(None)
  {
    hide ParseFilterKey;
  }
}
