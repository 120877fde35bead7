/** How the stores spell statements in each dialect, and that every spelling lexes to the
    tokens of the statement meant: Postgres with `$n`, MySQL and SQLite with `?`.  Lemmas take
    fixed pieces of text as parameters to keep their characters out of the reasoning. */
module SqlText {
  import opened Wrappers
  import opened Text
  import opened SqlLexer
  import opened SqlSyntax

  datatype Dialect = Postgres | MySQL | SQLite

  function QuoteChar(d: Dialect): char { if d.MySQL? then '`' else '"' }

  function QuoteIdent(d: Dialect, name: string): string { Quoted(QuoteChar(d), name) }

  function Placeholder(d: Dialect, n: nat): string { if d.Postgres? then "$" + Decimal(n) else "?" }

  /** The tokens a dialect shows for a statement: numbers vanish where marks are positional. */
  function Shown(d: Dialect, ts: seq<Token>): (r: seq<Token>)
    ensures |r| == |ts|
  {
    if d.Postgres? then ts else Positional(ts)
  }

  lemma ShownConcat(d: Dialect, a: seq<Token>, b: seq<Token>)
    ensures Shown(d, a + b) == Shown(d, a) + Shown(d, b)
  {
    forall i | 0 <= i < |a + b| ensures Positional(a + b)[i] == (Positional(a) + Positional(b))[i] {}
    assert Positional(a + b) == Positional(a) + Positional(b);
  }

  /** Tokens without placeholders are shown as they are. */
  predicate Fixed(ts: seq<Token>) { forall i :: 0 <= i < |ts| ==> !ts[i].Param? }

  /** A text spells a token sequence in a dialect. */
  ghost predicate Spells(d: Dialect, s: string, ts: seq<Token>) { Lexes(s, Shown(d, ts)) }

  lemma SpellsFixed(d: Dialect, s: string, ts: seq<Token>)
    requires Lexes(s, ts) && Fixed(ts)
    ensures Spells(d, s, ts)
  {
    assert Shown(d, ts) == ts;
  }

  lemma SpellsConcat(d: Dialect, a: string, ta: seq<Token>, b: string, tb: seq<Token>)
    requires Spells(d, a, ta) && Spells(d, b, tb) && Seam(a, b)
    ensures Spells(d, a + b, ta + tb)
  {
    Chain(a, Shown(d, ta), b, Shown(d, tb));
    ShownConcat(d, ta, tb);
  }

  lemma SpellsThree(d: Dialect, a: string, ta: seq<Token>, b: string, tb: seq<Token>, c: string, tc: seq<Token>)
    requires Spells(d, a, ta) && Spells(d, b, tb) && Spells(d, c, tc)
    requires Seam(a, b) && b != "" && Seam(b, c)
    ensures Spells(d, a + b + c, ta + tb + tc)
  {
    hide Spells;
    SpellsConcat(d, a, ta, b, tb);
    assert (a + b)[|a + b| - 1] == b[|b| - 1];
    SpellsConcat(d, a + b, ta + tb, c, tc);
  }

  lemma SpellsName(d: Dialect, name: string)
    ensures Spells(d, QuoteIdent(d, name), [Name(name)])
  {
    LexQuoted(QuoteChar(d), name);
    SpellsFixed(d, QuoteIdent(d, name), [Name(name)]);
  }

  lemma SpellsPlaceholder(d: Dialect, n: nat)
    ensures Spells(d, Placeholder(d, n), [Param(n)])
  {
    if d.Postgres? {
      LexParam(n);
    } else {
      LexMark();
      assert Shown(d, [Param(n)]) == [Mark];
    }
  }

  lemma SpellsKeyword(d: Dialect, w: string)
    requires w != "" && forall i :: 0 <= i < |w| ==> IsWordChar(w[i])
    ensures Spells(d, w, [Word(w)]) && Spells(d, w + " ", [Word(w)])
    ensures Spells(d, " " + w, [Word(w)]) && Spells(d, " " + w + " ", [Word(w)])
  {
    Keyword(w);
    SpellsFixed(d, w, [Word(w)]);
    SpellsFixed(d, w + " ", [Word(w)]);
    SpellsFixed(d, " " + w, [Word(w)]);
    SpellsFixed(d, " " + w + " ", [Word(w)]);
  }

  /** A keyword and a space, given as one string. */
  lemma SpellsLead(d: Dialect, w: string, lead: string)
    requires w != "" && forall i :: 0 <= i < |w| ==> IsWordChar(w[i])
    requires lead == w + " "
    ensures Spells(d, lead, [Word(w)]) && lead[|lead| - 1] == ' '
  {
    SpellsKeyword(d, w);
  }

  /** A keyword between spaces, given as one string. */
  lemma SpellsHead(d: Dialect, w: string, head: string)
    requires w != "" && forall i :: 0 <= i < |w| ==> IsWordChar(w[i])
    requires head == " " + w + " "
    ensures Spells(d, head, [Word(w)]) && head[0] == ' ' && head[|head| - 1] == ' '
  {
    SpellsKeyword(d, w);
  }

  /** Two keywords between spaces. */
  lemma SpellsHeads(d: Dialect, w: string, v: string, head: string)
    requires w != "" && forall i :: 0 <= i < |w| ==> IsWordChar(w[i])
    requires v != "" && forall i :: 0 <= i < |v| ==> IsWordChar(v[i])
    requires head == " " + w + " " + v + " "
    ensures Spells(d, head, [Word(w), Word(v)]) && head[0] == ' ' && head[|head| - 1] == ' '
  {
    hide Spells;
    SpellsKeyword(d, w);
    SpellsKeyword(d, v);
    SpellsConcat(d, " " + w + " ", [Word(w)], v + " ", [Word(v)]);
    assert head == " " + w + " " + (v + " ");
    assert [Word(w)] + [Word(v)] == [Word(w), Word(v)];
  }

  lemma SpellsSymbol(d: Dialect, c: char)
    requires IsSymbol(c)
    ensures Spells(d, [c], [Sym([c])]) && Spells(d, [c] + " ", [Sym([c])])
    ensures Spells(d, " " + [c] + " ", [Sym([c])])
  {
    LexSymbol(c);
    LexSpaced([c]);
    LexSpaced(" " + [c]);
    SpellsFixed(d, [c], [Sym([c])]);
    SpellsFixed(d, [c] + " ", [Sym([c])]);
    SpellsFixed(d, " " + [c] + " ", [Sym([c])]);
  }

  /******* Conditions *******/

  function OpText(op: Op): string {
    match op
    case Eq => "="
    case Ilike => "ilike"
    case Like => "like"
    case Ge => ">="
    case Le => "<="
    case Gt => ">"
    case Lt => "<"
  }

  function OperandText(d: Dialect, o: Operand): string {
    match o
    case Col(c) => QuoteIdent(d, c)
    case Arg(n) => Placeholder(d, n)
    case AsText(Col(c)) => if d.Postgres? then QuoteIdent(d, c) + "::text" else "cast(" + QuoteIdent(d, c) + " as char)"
    case AsText(_) => ""
    case Lower(inner) => "lower(" + OperandText(d, inner) + ")"
  }

  function TestText(d: Dialect, t: Test): string {
    OperandText(d, t.left) + (" " + OpText(t.op) + " ") + OperandText(d, t.right)
  }

  lemma SpellsOp(d: Dialect, op: Op)
    ensures Spells(d, " " + OpText(op) + " ", [OpToken(op)])
  {
    match op {
      case Eq => SpellsSymbol(d, '=');
      case Gt => SpellsSymbol(d, '>');
      case Lt => SpellsSymbol(d, '<');
      case Ilike => SpellsKeyword(d, "ilike");
      case Like => SpellsKeyword(d, "like");
      case Ge => SpellsPair(d, '>');
      case Le => SpellsPair(d, '<');
    }
  }

  lemma SpellsPair(d: Dialect, c: char)
    requires c == '>' || c == '<'
    ensures Spells(d, " " + [c, '='] + " ", [Sym([c, '='])])
  {
    LexPair(c, '=');
    LexSpaced([c, '=']);
    LexSpaced(" " + [c, '=']);
    SpellsFixed(d, " " + [c, '='] + " ", [Sym([c, '='])]);
  }

  lemma SpellsColonCast(d: Dialect, c: string, text: string)
    requires text == "::text"
    ensures Spells(d, QuoteIdent(d, c) + text, [Name(c), Sym("::"), Word("text")])
  {
    hide Spells;
    SpellsName(d, c);
    SpellsColonText(d, "text", text);
    SpellsConcat(d, QuoteIdent(d, c), [Name(c)], text, [Sym("::"), Word("text")]);
    assert [Name(c)] + [Sym("::"), Word("text")] == [Name(c), Sym("::"), Word("text")];
  }

  lemma SpellsCharCast(d: Dialect, c: string, cast: string, close: string)
    requires cast == "cast(" && close == " as char)"
    ensures Spells(d, cast + QuoteIdent(d, c) + close, OperandTokens(false, AsText(Col(c))))
  {
    hide Spells;
    var q := QuoteIdent(d, c);
    SpellsName(d, c);
    SpellsCall(d, "cast", cast);
    SpellsAsChar(d, "as", "char", close);
    SpellsThree(d, cast, [Word("cast"), Sym("(")], q, [Name(c)], close, [Word("as"), Word("char"), Sym(")")]);
    assert [Word("cast"), Sym("(")] + [Name(c)] + [Word("as"), Word("char"), Sym(")")]
        == OperandTokens(false, AsText(Col(c)));
  }

  lemma SpellsColonText(d: Dialect, w: string, s: string)
    requires w != "" && (forall i :: 0 <= i < |w| ==> IsWordChar(w[i])) && s == "::" + w
    ensures Spells(d, s, [Sym("::"), Word(w)]) && s[0] == ':'
  {
    hide Spells;
    LexPair(':', ':');
    SpellsFixed(d, "::", [Sym("::")]);
    SpellsKeyword(d, w);
    SpellsConcat(d, "::", [Sym("::")], w, [Word(w)]);
    assert [Sym("::")] + [Word(w)] == [Sym("::"), Word(w)];
  }

  lemma SpellsCall(d: Dialect, w: string, s: string)
    requires w != "" && (forall i :: 0 <= i < |w| ==> IsWordChar(w[i])) && s == w + "("
    ensures Spells(d, s, [Word(w), Sym("(")]) && s[|s| - 1] == '('
  {
    hide Spells;
    SpellsKeyword(d, w);
    SpellsSymbol(d, '(');
    SpellsConcat(d, w, [Word(w)], "(", [Sym("(")]);
    assert [Word(w)] + [Sym("(")] == [Word(w), Sym("(")];
  }

  lemma SpellsAsChar(d: Dialect, w: string, v: string, s: string)
    requires w != "" && (forall i :: 0 <= i < |w| ==> IsWordChar(w[i])) && s == " " + w + " " + v + ")"
    requires v != "" && (forall i :: 0 <= i < |v| ==> IsWordChar(v[i]))
    ensures Spells(d, s, [Word(w), Word(v), Sym(")")]) && s[0] == ' '
  {
    hide Spells;
    SpellsKeyword(d, w);
    SpellsKeyword(d, v);
    SpellsSymbol(d, ')');
    SpellsConcat(d, " " + w + " ", [Word(w)], v, [Word(v)]);
    SpellsConcat(d, " " + w + " " + v, [Word(w)] + [Word(v)], ")", [Sym(")")]);
    assert [Word(w)] + [Word(v)] + [Sym(")")] == [Word(w), Word(v), Sym(")")];
  }

  lemma {:induction false} SpellsOperand(d: Dialect, o: Operand)
    requires Writable(o)
    ensures Spells(d, OperandText(d, o), OperandTokens(d.Postgres?, o))
  {
    match o {
      case Col(c) => SpellsName(d, c);
      case Arg(n) => SpellsPlaceholder(d, n);
      case AsText(inner) =>
        if d.Postgres? {
          SpellsColonCast(d, inner.name, "::text");
        } else {
          SpellsCharCast(d, inner.name, "cast(", " as char)");
        }
      case Lower(inner) =>
        SpellsOperand(d, inner);
        SpellsCall(d, "lower", "lower(");
        SpellsSymbol(d, ')');
        var s, ts := OperandText(d, inner), OperandTokens(d.Postgres?, inner);
        SpellsConcat(d, "lower(", [Word("lower"), Sym("(")], s, ts);
        SpellsConcat(d, "lower(" + s, [Word("lower"), Sym("(")] + ts, ")", [Sym(")")]);
    }
  }

  lemma SpellsTest(d: Dialect, t: Test)
    requires WritableTest(t)
    ensures Spells(d, TestText(d, t), TestTokens(d.Postgres?, t))
  {
    hide Spells;
    var mid := " " + OpText(t.op) + " ";
    SpellsOperand(d, t.left);
    SpellsOp(d, t.op);
    SpellsOperand(d, t.right);
    SpellsConcat(d, OperandText(d, t.left), OperandTokens(d.Postgres?, t.left), mid, [OpToken(t.op)]);
    assert (OperandText(d, t.left) + mid)[|OperandText(d, t.left) + mid| - 1] == ' ';
    SpellsConcat(d, OperandText(d, t.left) + mid, OperandTokens(d.Postgres?, t.left) + [OpToken(t.op)],
                 OperandText(d, t.right), OperandTokens(d.Postgres?, t.right));
  }

  lemma {:induction false} SpellsTests(d: Dialect, parts: seq<string>, tests: seq<Test>)
    requires |parts| == |tests| > 0 && forall i :: 0 <= i < |tests| ==> WritableTest(tests[i])
    requires forall i :: 0 <= i < |parts| ==> parts[i] == TestText(d, tests[i])
    ensures Spells(d, Join(parts, " or "), TestsTokens(d.Postgres?, tests))
  {
    hide Spells;
    SpellsTest(d, tests[0]);
    if |tests| > 1 {
      SpellsTests(d, parts[1..], tests[1..]);
      SpellsKeyword(d, "or");
      var a, ta := parts[0], TestTokens(d.Postgres?, tests[0]);
      SpellsConcat(d, a, ta, " " + "or" + " ", [Word("or")]);
      assert a + (" " + "or" + " ") == a + " or ";
      SpellsConcat(d, a + " or ", ta + [Word("or")], Join(parts[1..], " or "), TestsTokens(d.Postgres?, tests[1..]));
    }
  }

  lemma SpellsAny(d: Dialect, parts: seq<string>, tests: seq<Test>)
    requires |parts| == |tests| > 0 && forall i :: 0 <= i < |tests| ==> WritableTest(tests[i])
    requires forall i :: 0 <= i < |parts| ==> parts[i] == TestText(d, tests[i])
    ensures Spells(d, "(" + Join(parts, " or ") + ")", ClauseTokens(d.Postgres?, Any(tests)))
  {
    hide Spells;
    var ts := TestsTokens(d.Postgres?, tests);
    SpellsTests(d, parts, tests);
    SpellsSymbol(d, '(');
    SpellsSymbol(d, ')');
    SpellsConcat(d, "(", [Sym("(")], Join(parts, " or "), ts);
    SpellsConcat(d, "(" + Join(parts, " or "), [Sym("(")] + ts, ")", [Sym(")")]);
  }

  lemma {:induction false} SpellsClauses(d: Dialect, texts: seq<string>, cs: seq<Clause>)
    requires |texts| == |cs| > 0
    requires forall i :: 0 <= i < |cs| ==> Spells(d, texts[i], ClauseTokens(d.Postgres?, cs[i]))
    ensures Spells(d, Join(texts, " and "), ClausesTokens(d.Postgres?, cs))
  {
    hide Spells;
    if |cs| > 1 {
      SpellsClauses(d, texts[1..], cs[1..]);
      SpellsKeyword(d, "and");
      var a, ta := texts[0], ClauseTokens(d.Postgres?, cs[0]);
      SpellsConcat(d, a, ta, " " + "and" + " ", [Word("and")]);
      assert a + (" " + "and" + " ") == a + " and ";
      SpellsConcat(d, a + " and ", ta + [Word("and")], Join(texts[1..], " and "), ClausesTokens(d.Postgres?, cs[1..]));
    }
  }

  ghost predicate SpellsEach(d: Dialect, texts: seq<string>, cs: seq<Clause>) {
    |texts| == |cs| && forall i :: 0 <= i < |cs| ==> Spells(d, texts[i], ClauseTokens(d.Postgres?, cs[i]))
  }

  lemma SpellsOneMore(d: Dialect, texts: seq<string>, cs: seq<Clause>, text: string, c: Clause)
    requires SpellsEach(d, texts, cs) && Spells(d, text, ClauseTokens(d.Postgres?, c))
    ensures SpellsEach(d, texts + [text], cs + [c])
  {}

  /** The text of a whole filter: empty, or ` where ` and the clauses joined by ` and `. */
  ghost predicate SpellsFilter(d: Dialect, text: string, cs: seq<Clause>) {
    Spells(d, text, FilterTokens(d.Postgres?, cs)) && (text == "" || text[0] == ' ')
  }

  lemma SpellsFilterFrom(d: Dialect, head: string, joined: string, cs: seq<Clause>)
    requires cs != [] && Spells(d, joined, ClausesTokens(d.Postgres?, cs))
    requires Spells(d, head, [Word("where")]) && head != "" && head[0] == ' ' && head[|head| - 1] == ' '
    ensures SpellsFilter(d, head + joined, cs)
  {
    hide Spells, ClausesTokens;
    SpellsConcat(d, head, [Word("where")], joined, ClausesTokens(d.Postgres?, cs));
  }

  lemma SpellsWhere(d: Dialect, texts: seq<string>, cs: seq<Clause>)
    requires |texts| == |cs| > 0
    requires forall i :: 0 <= i < |cs| ==> Spells(d, texts[i], ClauseTokens(d.Postgres?, cs[i]))
    ensures SpellsFilter(d, " where " + Join(texts, " and "), cs)
  {
    hide Spells, Join, ClauseTokens, ClausesTokens, SpellsFilter, Seam;
    SpellsClauses(d, texts, cs);
    SpellsHead(d, "where", " where ");
    SpellsFilterFrom(d, " where ", Join(texts, " and "), cs);
  }

  lemma SpellsNothing(d: Dialect)
    ensures SpellsFilter(d, "", [])
  {
    assert Shown(d, []) == [];
  }

  lemma SpellsWhole(d: Dialect, texts: seq<string>, forms: seq<Clause>, text: string)
    requires SpellsEach(d, texts, forms)
    requires text == if texts == [] then "" else " where " + Join(texts, " and ")
    ensures SpellsFilter(d, text, forms)
  {
    hide Spells, Join, ClauseTokens, SpellsFilter;
    if texts == [] { SpellsNothing(d); } else { SpellsWhere(d, texts, forms); }
  }

  /******* Lists *******/

  lemma {:induction false} SpellsNames(d: Dialect, texts: seq<string>, names: seq<string>)
    requires |texts| == |names| > 0 && forall i :: 0 <= i < |names| ==> texts[i] == QuoteIdent(d, names[i])
    ensures Spells(d, Join(texts, ", "), NamesTokens(names))
  {
    hide Spells;
    SpellsName(d, names[0]);
    if |names| > 1 {
      SpellsNames(d, texts[1..], names[1..]);
      SpellsSymbol(d, ',');
      assert [','] + " " == ", ";
      SpellsConcat(d, texts[0], [Name(names[0])], ", ", [Sym(",")]);
      SpellsConcat(d, texts[0] + ", ", [Name(names[0])] + [Sym(",")], Join(texts[1..], ", "), NamesTokens(names[1..]));
      assert [Name(names[0])] + [Sym(",")] == [Name(names[0]), Sym(",")];
    }
  }

  lemma {:induction false} SpellsParams(d: Dialect, texts: seq<string>, ns: seq<nat>)
    requires |texts| == |ns| > 0 && forall i :: 0 <= i < |ns| ==> texts[i] == Placeholder(d, ns[i])
    ensures Spells(d, Join(texts, ", "), ParamsTokens(ns))
  {
    hide Spells;
    SpellsPlaceholder(d, ns[0]);
    if |ns| > 1 {
      SpellsParams(d, texts[1..], ns[1..]);
      SpellsSymbol(d, ',');
      assert [','] + " " == ", ";
      SpellsConcat(d, texts[0], [Param(ns[0])], ", ", [Sym(",")]);
      SpellsConcat(d, texts[0] + ", ", [Param(ns[0])] + [Sym(",")], Join(texts[1..], ", "), ParamsTokens(ns[1..]));
      assert [Param(ns[0])] + [Sym(",")] == [Param(ns[0]), Sym(",")];
    }
  }

  function EqualsText(d: Dialect, c: string, n: nat): string { QuoteIdent(d, c) + " = " + Placeholder(d, n) }

  lemma SpellsSet(d: Dialect, s: (string, nat))
    ensures Spells(d, EqualsText(d, s.0, s.1), SetTokens(s))
  {
    SpellsTest(d, Test(Col(s.0), Eq, Arg(s.1)));
    assert " " + "=" + " " == " = ";
    assert [Name(s.0)] + [Sym("=")] + [Param(s.1)] == SetTokens(s);
  }

  lemma {:induction false} SpellsSets(d: Dialect, texts: seq<string>, sets: seq<(string, nat)>)
    requires |texts| == |sets| > 0
    requires forall i :: 0 <= i < |sets| ==> texts[i] == EqualsText(d, sets[i].0, sets[i].1)
    ensures Spells(d, Join(texts, ", "), SetsTokens(sets))
  {
    hide Spells;
    SpellsSet(d, sets[0]);
    if |sets| > 1 {
      SpellsSets(d, texts[1..], sets[1..]);
      SpellsSymbol(d, ',');
      assert [','] + " " == ", ";
      SpellsConcat(d, texts[0], SetTokens(sets[0]), ", ", [Sym(",")]);
      SpellsConcat(d, texts[0] + ", ", SetTokens(sets[0]) + [Sym(",")], Join(texts[1..], ", "), SetsTokens(sets[1..]));
    }
  }

  function KeyText(d: Dialect, k: OrderKey): string {
    QuoteIdent(d, k.column) + " " + (if k.desc then "desc" else "asc")
  }

  lemma SpellsKey(d: Dialect, k: OrderKey)
    ensures Spells(d, KeyText(d, k), KeyTokens(k))
  {
    hide Spells;
    var w := if k.desc then "desc" else "asc";
    SpellsName(d, k.column);
    SpellsKeyword(d, w);
    SpellsConcat(d, QuoteIdent(d, k.column), [Name(k.column)], " " + w, [Word(w)]);
    assert QuoteIdent(d, k.column) + " " + w == QuoteIdent(d, k.column) + (" " + w);
    assert [Name(k.column)] + [Word(w)] == KeyTokens(k);
  }

  lemma {:induction false} SpellsKeys(d: Dialect, texts: seq<string>, keys: seq<OrderKey>)
    requires |texts| == |keys| > 0 && forall i :: 0 <= i < |keys| ==> texts[i] == KeyText(d, keys[i])
    ensures Spells(d, Join(texts, ", "), KeysTokens(keys))
  {
    hide Spells;
    SpellsKey(d, keys[0]);
    if |keys| > 1 {
      SpellsKeys(d, texts[1..], keys[1..]);
      SpellsSymbol(d, ',');
      assert [','] + " " == ", ";
      SpellsConcat(d, texts[0], KeyTokens(keys[0]), ", ", [Sym(",")]);
      SpellsConcat(d, texts[0] + ", ", KeyTokens(keys[0]) + [Sym(",")], Join(texts[1..], ", "), KeysTokens(keys[1..]));
    }
  }

  ghost predicate SpellsOrder(d: Dialect, text: string, keys: seq<OrderKey>) {
    Spells(d, text, OrderTokens(keys)) && (text == "" || text[0] == ' ')
  }

  lemma SpellsOrdered(d: Dialect, texts: seq<string>, keys: seq<OrderKey>, head: string)
    requires |texts| == |keys| > 0 && forall i :: 0 <= i < |keys| ==> texts[i] == KeyText(d, keys[i])
    requires head == " order by "
    ensures SpellsOrder(d, head + Join(texts, ", "), keys)
  {
    hide Spells, KeyText, Join;
    SpellsKeys(d, texts, keys);
    SpellsHeads(d, "order", "by", head);
    SpellsConcat(d, head, [Word("order"), Word("by")], Join(texts, ", "), KeysTokens(keys));
  }

  lemma SpellsOrderBy(d: Dialect, texts: seq<string>, keys: seq<OrderKey>, head: string)
    requires |texts| == |keys| && forall i :: 0 <= i < |keys| ==> texts[i] == KeyText(d, keys[i])
    requires head == " order by "
    ensures SpellsOrder(d, if keys == [] then "" else head + Join(texts, ", "), keys)
  {
    hide Spells, KeyText, Join;
    if keys == [] { SpellsNothing(d); } else { SpellsOrdered(d, texts, keys, head); }
  }

  ghost predicate SpellsLimit(d: Dialect, text: string, l: Limit) {
    Spells(d, text, LimitTokens(l)) && (text == "" || text[0] == ' ')
  }

  lemma SpellsOne(d: Dialect, one: string)
    requires one == "1"
    ensures Spells(d, one, [Number(1)]) && one[0] == '1'
  {
    DigitLengthIs("1", 1);
    assert "1"[..1] == "1" && "1"[..0] == "";
    LexWhole("1");
    SpellsFixed(d, "1", [Number(1)]);
  }

  lemma SpellsFirst(d: Dialect, text: string, limit: string, one: string)
    requires limit == " limit " && one == "1" && text == limit + one
    ensures SpellsLimit(d, text, First)
  {
    hide Spells;
    SpellsHead(d, "limit", limit);
    SpellsOne(d, one);
    SpellsConcat(d, limit, [Word("limit")], one, [Number(1)]);
    assert [Word("limit")] + [Number(1)] == LimitTokens(First);
  }

  lemma SpellsWindow(d: Dialect, l: nat, o: nat, limit: string, offset: string)
    requires limit == " limit " && offset == " offset "
    ensures SpellsLimit(d, limit + Placeholder(d, l) + offset + Placeholder(d, o), Window(l, o))
  {
    hide Spells;
    SpellsHead(d, "limit", limit);
    SpellsHead(d, "offset", offset);
    SpellsPlaceholder(d, l);
    SpellsPlaceholder(d, o);
    var a := limit + Placeholder(d, l);
    SpellsConcat(d, limit, [Word("limit")], Placeholder(d, l), [Param(l)]);
    SpellsConcat(d, a, [Word("limit")] + [Param(l)], offset, [Word("offset")]);
    SpellsConcat(d, a + offset, [Word("limit")] + [Param(l)] + [Word("offset")], Placeholder(d, o), [Param(o)]);
    assert [Word("limit")] + [Param(l)] + [Word("offset")] + [Param(o)] == LimitTokens(Window(l, o));
  }

  /******* Whole statements *******/

  lemma SpellsSelect(d: Dialect, columns: string, c: Columns, table: string, where: string, cs: seq<Clause>,
                     order: string, keys: seq<OrderKey>, limit: string, l: Limit, select: string, from: string)
    requires select == "select " && from == " from "
    requires Spells(d, columns, ColumnsTokens(c)) && SpellsFilter(d, where, cs) && SpellsOrder(d, order, keys)
    requires SpellsLimit(d, limit, l)
    ensures Spells(d, select + columns + from + QuoteIdent(d, table) + where + order + limit,
                   SelectTokens(d.Postgres?, c, table, cs, keys, l))
  {
    hide Spells;
    SpellsLead(d, "select", select);
    SpellsHead(d, "from", from);
    SpellsName(d, table);
    var s1, t1 := select + columns, [Word("select")] + ColumnsTokens(c);
    SpellsConcat(d, select, [Word("select")], columns, ColumnsTokens(c));
    SpellsThree(d, s1, t1, from, [Word("from")], QuoteIdent(d, table), [Name(table)]);
    assert t1 + [Word("from")] + [Name(table)] == t1 + [Word("from"), Name(table)];
    SpellsTail(d, s1 + from + QuoteIdent(d, table), t1 + [Word("from"), Name(table)], where, cs, order, keys, limit, l);
  }

  lemma SpellsTail(d: Dialect, s: string, ts: seq<Token>, where: string, cs: seq<Clause>, order: string,
                   keys: seq<OrderKey>, limit: string, l: Limit)
    requires Spells(d, s, ts) && SpellsFilter(d, where, cs) && SpellsOrder(d, order, keys) && SpellsLimit(d, limit, l)
    ensures Spells(d, s + where + order + limit,
                   ts + FilterTokens(d.Postgres?, cs) + OrderTokens(keys) + LimitTokens(l))
  {
    hide Spells;
    var filter := FilterTokens(d.Postgres?, cs);
    SpellsConcat(d, s, ts, where, filter);
    SpellsConcat(d, s + where, ts + filter, order, OrderTokens(keys));
    SpellsConcat(d, s + where + order, ts + filter + OrderTokens(keys), limit, LimitTokens(l));
  }

  lemma SpellsCountFrom(d: Dialect, table: string, where: string, cs: seq<Clause>, head: string)
    requires Spells(d, head, COUNT_HEAD) && head != "" && head[|head| - 1] == ' ' && SpellsFilter(d, where, cs)
    ensures Spells(d, head + QuoteIdent(d, table) + where, CountTokens(d.Postgres?, table, cs))
  {
    hide Spells;
    SpellsName(d, table);
    SpellsConcat(d, head, COUNT_HEAD, QuoteIdent(d, table), [Name(table)]);
    SpellsConcat(d, head + QuoteIdent(d, table), COUNT_HEAD + [Name(table)], where, FilterTokens(d.Postgres?, cs));
  }

  lemma SpellsCount(d: Dialect, table: string, where: string, cs: seq<Clause>, head: string)
    requires head == "select count(*) from " && SpellsFilter(d, where, cs)
    ensures Spells(d, head + QuoteIdent(d, table) + where, CountTokens(d.Postgres?, table, cs))
  {
    hide Spells, SpellsFilter, CountTokens, QuoteIdent;
    SpellsCountHead(d, head, "select ", "count(", "*", ")", " from ");
    SpellsCountFrom(d, table, where, cs, head);
  }

  lemma SpellsCountHead(d: Dialect, head: string, select: string, count: string, star: string, close: string,
                        from: string)
    requires select == "select " && count == "count(" && star == "*" && close == ")" && from == " from "
    requires head == select + count + star + close + from
    ensures Spells(d, head, COUNT_HEAD) && head[|head| - 1] == ' '
  {
    hide Spells;
    SpellsLead(d, "select", select);
    SpellsHead(d, "from", from);
    SpellsCountStar(d, count, star, close);
    var call := [Word("count"), Sym("("), Sym("*"), Sym(")")];
    SpellsThree(d, select, [Word("select")], count + star + close, call, from, [Word("from")]);
    assert select + (count + star + close) + from == head;
    assert [Word("select")] + call + [Word("from")] == COUNT_HEAD;
  }

  lemma SpellsCountStar(d: Dialect, count: string, star: string, close: string)
    requires count == "count(" && star == "*" && close == ")"
    ensures Spells(d, count + star + close, [Word("count"), Sym("("), Sym("*"), Sym(")")])
  {
    hide Spells;
    SpellsCall(d, "count", count);
    SpellsSymbol(d, '*');
    SpellsSymbol(d, ')');
    SpellsThree(d, count, [Word("count"), Sym("(")], star, [Sym("*")], close, [Sym(")")]);
    assert [Word("count"), Sym("(")] + [Sym("*")] + [Sym(")")] == [Word("count"), Sym("("), Sym("*"), Sym(")")];
  }

  lemma SpellsInsert(d: Dialect, table: string, columns: string, names: seq<string>, marks: string, ns: seq<nat>,
                     insert: string, open: string, values: string, close: string)
    requires insert == "insert into " && open == " (" && values == ") values (" && close == ")"
    requires Spells(d, columns, NamesTokens(names)) && Spells(d, marks, ParamsTokens(ns))
    ensures Spells(d, insert + QuoteIdent(d, table) + open + columns + values + marks + close,
                   InsertTokens(table, names, ns))
  {
    hide Spells;
    var s1, t1 := insert + QuoteIdent(d, table) + open, [Word("insert"), Word("into"), Name(table), Sym("(")];
    SpellsInto(d, table, "insert ", "into ", open);
    assert insert == "insert " + "into ";
    SpellsValues(d, values, ")", " values ", "(");
    SpellsSymbol(d, ')');
    SpellsConcat(d, s1, t1, columns, NamesTokens(names));
    SpellsConcat(d, s1 + columns, t1 + NamesTokens(names), values, [Sym(")"), Word("values"), Sym("(")]);
    SpellsConcat(d, s1 + columns + values, t1 + NamesTokens(names) + [Sym(")"), Word("values"), Sym("(")],
                 marks, ParamsTokens(ns));
    SpellsConcat(d, s1 + columns + values + marks,
                 t1 + NamesTokens(names) + [Sym(")"), Word("values"), Sym("(")] + ParamsTokens(ns),
                 close, [Sym(")")]);
  }

  lemma SpellsOpen(d: Dialect, open: string, paren: string)
    requires paren == "(" && open == " " + paren
    ensures Spells(d, open, [Sym("(")]) && open[0] == ' ' && open[|open| - 1] == '('
  {
    LexSymbol('(');
    LexSpaced(paren);
    SpellsFixed(d, open, [Sym("(")]);
  }

  lemma SpellsInto(d: Dialect, table: string, lead: string, into: string, open: string)
    requires lead == "insert " && into == "into " && open == " ("
    ensures Spells(d, lead + into + QuoteIdent(d, table) + open, [Word("insert"), Word("into"), Name(table), Sym("(")])
    ensures open[|open| - 1] == '('
  {
    hide Spells;
    SpellsLead(d, "insert", lead);
    SpellsLead(d, "into", into);
    SpellsName(d, table);
    SpellsOpen(d, open, "(");
    SpellsConcat(d, lead, [Word("insert")], into, [Word("into")]);
    SpellsThree(d, lead + into, [Word("insert")] + [Word("into")], QuoteIdent(d, table),
                [Name(table)], open, [Sym("(")]);
    assert [Word("insert")] + [Word("into")] + [Name(table)] + [Sym("(")] ==
      [Word("insert"), Word("into"), Name(table), Sym("(")];
  }

  lemma SpellsValues(d: Dialect, values: string, close: string, word: string, open: string)
    requires close == ")" && word == " values " && open == "(" && values == close + word + open
    ensures Spells(d, values, [Sym(")"), Word("values"), Sym("(")]) && values[0] == ')' && values[|values| - 1] == '('
  {
    hide Spells;
    SpellsSymbol(d, ')');
    SpellsSymbol(d, '(');
    SpellsHead(d, "values", word);
    SpellsConcat(d, close, [Sym(")")], word, [Word("values")]);
    SpellsConcat(d, close + word, [Sym(")")] + [Word("values")], open, [Sym("(")]);
    assert [Sym(")")] + [Word("values")] + [Sym("(")] == [Sym(")"), Word("values"), Sym("(")];
  }

  lemma SpellsUpdate(d: Dialect, table: string, assignments: string, sets: seq<(string, nat)>, where: string,
                     cs: seq<Clause>, update: string, set_: string)
    requires update == "update " && set_ == " set "
    requires Spells(d, assignments, SetsTokens(sets)) && SpellsFilter(d, where, cs)
    ensures Spells(d, update + QuoteIdent(d, table) + set_ + assignments + where,
                   UpdateTokens(d.Postgres?, table, sets, cs))
  {
    hide Spells;
    SpellsLead(d, "update", update);
    SpellsHead(d, "set", set_);
    SpellsName(d, table);
    var s, t := update + QuoteIdent(d, table) + set_, [Word("update"), Name(table), Word("set")];
    SpellsConcat(d, update, [Word("update")], QuoteIdent(d, table), [Name(table)]);
    SpellsConcat(d, update + QuoteIdent(d, table), [Word("update")] + [Name(table)], set_, [Word("set")]);
    assert [Word("update")] + [Name(table)] + [Word("set")] == t;
    SpellsConcat(d, s, t, assignments, SetsTokens(sets));
    SpellsConcat(d, s + assignments, t + SetsTokens(sets), where, FilterTokens(d.Postgres?, cs));
  }

  lemma SpellsDelete(d: Dialect, table: string, where: string, cs: seq<Clause>, head: string, delete: string,
                     from: string)
    requires delete == "delete " && from == "from " && head == delete + from && SpellsFilter(d, where, cs)
    ensures Spells(d, head + QuoteIdent(d, table) + where, DeleteTokens(d.Postgres?, table, cs))
  {
    hide Spells;
    SpellsLead(d, "delete", delete);
    SpellsLead(d, "from", from);
    SpellsName(d, table);
    SpellsThree(d, delete, [Word("delete")], from, [Word("from")], QuoteIdent(d, table), [Name(table)]);
    assert [Word("delete")] + [Word("from")] + [Name(table)] == [Word("delete"), Word("from"), Name(table)];
    SpellsConcat(d, head + QuoteIdent(d, table), [Word("delete"), Word("from"), Name(table)], where,
                 FilterTokens(d.Postgres?, cs));
  }

  /******* Placeholder numbers *******/

  function OperandArgs(o: Operand): seq<nat> {
    match o case Col(_) => [] case Arg(n) => [n] case AsText(i) => OperandArgs(i) case Lower(i) => OperandArgs(i)
  }

  function TestArgs(t: Test): seq<nat> { OperandArgs(t.left) + OperandArgs(t.right) }

  function TestsArgs(ts: seq<Test>): seq<nat> { if ts == [] then [] else TestArgs(ts[0]) + TestsArgs(ts[1..]) }

  function ClauseArgs(c: Clause): seq<nat> { match c case Single(t) => TestArgs(t) case Any(ts) => TestsArgs(ts) }

  function ClausesArgs(cs: seq<Clause>): seq<nat> { if cs == [] then [] else ClauseArgs(cs[0]) + ClausesArgs(cs[1..]) }

  function SetsArgs(sets: seq<(string, nat)>): seq<nat> { seq(|sets|, i requires 0 <= i < |sets| => sets[i].1) }

  function LimitArgs(l: Limit): seq<nat> { if l.Window? then [l.limit, l.offset] else [] }

  function Upto(k: nat, n: nat): seq<nat> { seq(n, i requires 0 <= i < n => k + i) }

  lemma UptoConcat(k: nat, m: nat, n: nat)
    ensures Upto(k, m) + Upto(k + m, n) == Upto(k, m + n)
  {}

  lemma {:induction false} ClausesArgsConcat(a: seq<Clause>, b: seq<Clause>)
    ensures ClausesArgs(a + b) == ClausesArgs(a) + ClausesArgs(b)
  {
    hide ClauseArgs;
    if a == [] {
      assert a + b == b;
    } else {
      ClausesArgsConcat(a[1..], b);
      assert (a + b)[1..] == a[1..] + b && (a + b)[0] == a[0];
      Assoc(ClauseArgs(a[0]), ClausesArgs(a[1..]), ClausesArgs(b));
    }
  }

  lemma ConcatCounts(a: seq<Clause>, m: nat, b: seq<Clause>, n: nat)
    requires WritableClauses(a) && WritableClauses(b)
    requires ClausesArgs(a) == Upto(1, m) && ClausesArgs(b) == Upto(m + 1, n)
    ensures WritableClauses(a + b) && ClausesArgs(a + b) == Upto(1, m + n)
  {
    ClausesArgsConcat(a, b);
    UptoConcat(1, m, n);
  }

  /** A clause with the one placeholder k. */
  predicate Takes(c: Clause, k: nat) { ClauseArgs(c) == [k] && WritableClause(c) }

  lemma {:induction false} SinglesArgs(cs: seq<Clause>, n: nat)
    requires forall i :: 0 <= i < |cs| ==> Takes(cs[i], n + i)
    ensures ClausesArgs(cs) == Upto(n, |cs|)
  {
    hide ClauseArgs, WritableClause;
    if cs != [] {
      forall i | 0 <= i < |cs| - 1 ensures Takes(cs[1..][i], n + 1 + i) { assert Takes(cs[i + 1], n + (i + 1)); }
      SinglesArgs(cs[1..], n + 1);
      assert Takes(cs[0], n + 0);
      UptoConcat(n, 1, |cs| - 1);
      assert Upto(n, 1) == [n];
    }
  }

  /** A token sequence shows these placeholder numbers, and no mark. */
  ghost predicate Numbers(ts: seq<Token>, ns: seq<nat>) { Params(ts) == ns && MarkFree(ts) }

  lemma NumbersConcat(a: seq<Token>, m: seq<nat>, b: seq<Token>, n: seq<nat>)
    requires Numbers(a, m) && Numbers(b, n)
    ensures Numbers(a + b, m + n)
  {
    ParamsConcat(a, b);
  }

  lemma {:induction false} NumbersNone(ts: seq<Token>)
    requires Fixed(ts) && MarkFree(ts)
    ensures Numbers(ts, [])
  {
    if ts != [] { NumbersNone(ts[1..]); }
  }

  lemma {:induction false} OperandNumbers(pg: bool, o: Operand)
    requires Writable(o)
    ensures Numbers(OperandTokens(pg, o), OperandArgs(o))
  {
    match o
    case Col(_) =>
    case Arg(n) => assert [Param(n)][1..] == [];
    case AsText(_) => NumbersNone(OperandTokens(pg, o));
    case Lower(i) =>
      OperandNumbers(pg, i);
      NumbersNone([Word("lower"), Sym("(")]);
      NumbersNone([Sym(")")]);
      NumbersConcat([Word("lower"), Sym("(")], [], OperandTokens(pg, i), OperandArgs(i));
      NumbersConcat([Word("lower"), Sym("(")] + OperandTokens(pg, i), [] + OperandArgs(i), [Sym(")")], []);
      assert [] + OperandArgs(i) + [] == OperandArgs(i);
  }

  lemma TestNumbers(pg: bool, t: Test)
    requires WritableTest(t)
    ensures Numbers(TestTokens(pg, t), TestArgs(t))
  {
    OperandNumbers(pg, t.left);
    OperandNumbers(pg, t.right);
    NumbersNone([OpToken(t.op)]);
    NumbersConcat(OperandTokens(pg, t.left), OperandArgs(t.left), [OpToken(t.op)], []);
    NumbersConcat(OperandTokens(pg, t.left) + [OpToken(t.op)], OperandArgs(t.left) + [], OperandTokens(pg, t.right),
                  OperandArgs(t.right));
    assert OperandArgs(t.left) + [] == OperandArgs(t.left);
  }

  lemma {:induction false} TestsNumbers(pg: bool, ts: seq<Test>)
    requires forall i :: 0 <= i < |ts| ==> WritableTest(ts[i])
    ensures Numbers(TestsTokens(pg, ts), TestsArgs(ts))
  {
    if ts != [] {
      TestNumbers(pg, ts[0]);
      TestsNumbers(pg, ts[1..]);
      if |ts| == 1 {
        assert TestArgs(ts[0]) + [] == TestArgs(ts[0]);
      } else {
        NumbersNone([Word("or")]);
        NumbersConcat(TestTokens(pg, ts[0]), TestArgs(ts[0]), [Word("or")], []);
        NumbersConcat(TestTokens(pg, ts[0]) + [Word("or")], TestArgs(ts[0]) + [], TestsTokens(pg, ts[1..]),
                      TestsArgs(ts[1..]));
        assert TestArgs(ts[0]) + [] == TestArgs(ts[0]);
      }
    }
  }

  lemma ClauseNumbers(pg: bool, c: Clause)
    requires WritableClause(c)
    ensures Numbers(ClauseTokens(pg, c), ClauseArgs(c))
  {
    match c
    case Single(t) => TestNumbers(pg, t);
    case Any(ts) =>
      TestsNumbers(pg, ts);
      NumbersNone([Sym("(")]);
      NumbersNone([Sym(")")]);
      NumbersConcat([Sym("(")], [], TestsTokens(pg, ts), TestsArgs(ts));
      NumbersConcat([Sym("(")] + TestsTokens(pg, ts), [] + TestsArgs(ts), [Sym(")")], []);
      assert [] + TestsArgs(ts) + [] == TestsArgs(ts);
  }

  lemma {:induction false} ClausesNumbers(pg: bool, cs: seq<Clause>)
    requires WritableClauses(cs)
    ensures Numbers(ClausesTokens(pg, cs), ClausesArgs(cs))
  {
    if cs != [] {
      ClauseNumbers(pg, cs[0]);
      ClausesNumbers(pg, cs[1..]);
      if |cs| == 1 {
        assert ClauseArgs(cs[0]) + [] == ClauseArgs(cs[0]);
      } else {
        NumbersNone([Word("and")]);
        NumbersConcat(ClauseTokens(pg, cs[0]), ClauseArgs(cs[0]), [Word("and")], []);
        NumbersConcat(ClauseTokens(pg, cs[0]) + [Word("and")], ClauseArgs(cs[0]) + [], ClausesTokens(pg, cs[1..]),
                      ClausesArgs(cs[1..]));
        assert ClauseArgs(cs[0]) + [] == ClauseArgs(cs[0]);
      }
    }
  }

  lemma FilterNumbers(pg: bool, cs: seq<Clause>)
    requires WritableClauses(cs)
    ensures Numbers(FilterTokens(pg, cs), ClausesArgs(cs))
  {
    if cs != [] {
      ClausesNumbers(pg, cs);
      NumbersNone([Word("where")]);
      NumbersConcat([Word("where")], [], ClausesTokens(pg, cs), ClausesArgs(cs));
      assert [] + ClausesArgs(cs) == ClausesArgs(cs);
    }
  }

  lemma {:induction false} NamesNumbers(names: seq<string>)
    ensures Numbers(NamesTokens(names), [])
  {
    if names != [] {
      NamesNumbers(names[1..]);
      NumbersNone(if |names| == 1 then [Name(names[0])] else [Name(names[0]), Sym(",")]);
      if |names| > 1 { NumbersConcat([Name(names[0]), Sym(",")], [], NamesTokens(names[1..]), []); }
    }
  }

  lemma {:induction false} KeysNumbers(keys: seq<OrderKey>)
    ensures Numbers(KeysTokens(keys), [])
  {
    if keys != [] {
      KeysNumbers(keys[1..]);
      NumbersNone(KeyTokens(keys[0]));
      if |keys| > 1 {
        NumbersNone(KeyTokens(keys[0]) + [Sym(",")]);
        NumbersConcat(KeyTokens(keys[0]) + [Sym(",")], [], KeysTokens(keys[1..]), []);
      }
    }
  }

  lemma {:induction false} ParamsNumbers(ns: seq<nat>)
    ensures Numbers(ParamsTokens(ns), ns)
  {
    if ns != [] {
      ParamsNumbers(ns[1..]);
      OperandNumbers(true, Arg(ns[0]));
      assert ns == [ns[0]] + ns[1..];
      if |ns| > 1 {
        NumbersNone([Sym(",")]);
        NumbersConcat([Param(ns[0])], [ns[0]], [Sym(",")], []);
        NumbersConcat([Param(ns[0])] + [Sym(",")], [ns[0]] + [], ParamsTokens(ns[1..]), ns[1..]);
        assert [Param(ns[0])] + [Sym(",")] == [Param(ns[0]), Sym(",")] && [ns[0]] + [] == [ns[0]];
      }
    }
  }

  lemma {:induction false} SetsNumbers(sets: seq<(string, nat)>)
    ensures Numbers(SetsTokens(sets), SetsArgs(sets))
  {
    if sets != [] {
      var s := sets[0];
      SetsNumbers(sets[1..]);
      TestNumbers(true, Test(Col(s.0), Eq, Arg(s.1)));
      assert [Name(s.0)] + [Sym("=")] + [Param(s.1)] == SetTokens(s) && [] + [s.1] == [s.1];
      assert SetsArgs(sets) == [s.1] + SetsArgs(sets[1..]);
      if |sets| > 1 {
        NumbersNone([Sym(",")]);
        NumbersConcat(SetTokens(s), [s.1], [Sym(",")], []);
        NumbersConcat(SetTokens(s) + [Sym(",")], [s.1] + [], SetsTokens(sets[1..]), SetsArgs(sets[1..]));
        assert [s.1] + [] == [s.1];
      }
    }
  }

  /** A spelled statement whose numbers count 1, 2, 3, … reads back as the statement meant,
      under explicit and under positional binding alike. */
  lemma ReadsAs(d: Dialect, text: string, ts: seq<Token>, ns: seq<nat>)
    requires Spells(d, text, ts) && Numbers(ts, ns) && CountsFrom(ns, 1)
    ensures ReadText(text) == ReadStmt(ts)
  {
    if d.Postgres? { NumberFree(ts, 1); } else { NumberPositional(ts, 1); }
  }

  lemma SelectNumbers(pg: bool, c: Columns, table: string, cs: seq<Clause>, keys: seq<OrderKey>, l: Limit)
    requires WritableClauses(cs)
    ensures Numbers(SelectTokens(pg, c, table, cs, keys, l), ClausesArgs(cs) + LimitArgs(l))
  {
    var head := [Word("select")] + ColumnsTokens(c) + [Word("from"), Name(table)];
    if c.Named? { NamesNumbers(c.names); } else { NumbersNone(ColumnsTokens(c)); }
    NumbersNone([Word("select")]);
    NumbersNone([Word("from"), Name(table)]);
    NumbersConcat([Word("select")], [], ColumnsTokens(c), []);
    NumbersConcat([Word("select")] + ColumnsTokens(c), [] + [], [Word("from"), Name(table)], []);
    assert Numbers(head, []);
    TailNumbers(pg, head, cs, keys, l);
  }

  lemma TailNumbers(pg: bool, head: seq<Token>, cs: seq<Clause>, keys: seq<OrderKey>, l: Limit)
    requires WritableClauses(cs) && Numbers(head, [])
    ensures Numbers(head + FilterTokens(pg, cs) + OrderTokens(keys) + LimitTokens(l), ClausesArgs(cs) + LimitArgs(l))
  {
    var filter := FilterTokens(pg, cs);
    FilterNumbers(pg, cs);
    OrderNumbers(keys);
    LimitNumbers(l);
    NumbersConcat(head, [], filter, ClausesArgs(cs));
    assert [] + ClausesArgs(cs) == ClausesArgs(cs);
    NumbersConcat(head + filter, ClausesArgs(cs), OrderTokens(keys), []);
    assert ClausesArgs(cs) + [] == ClausesArgs(cs);
    NumbersConcat(head + filter + OrderTokens(keys), ClausesArgs(cs), LimitTokens(l), LimitArgs(l));
  }

  lemma OrderNumbers(keys: seq<OrderKey>)
    ensures Numbers(OrderTokens(keys), [])
  {
    if keys != [] {
      KeysNumbers(keys);
      NumbersNone([Word("order"), Word("by")]);
      NumbersConcat([Word("order"), Word("by")], [], KeysTokens(keys), []);
    }
  }

  lemma LimitNumbers(l: Limit)
    ensures Numbers(LimitTokens(l), LimitArgs(l))
  {
    match l
    case NoLimit => 
    case First => NumbersNone(LimitTokens(l));
    case Window(n, o) =>
      NumbersNone([Word("limit")]);
      NumbersNone([Word("offset")]);
      OperandNumbers(true, Arg(n));
      OperandNumbers(true, Arg(o));
      NumbersConcat([Word("limit")], [], [Param(n)], [n]);
      NumbersConcat([Word("offset")], [], [Param(o)], [o]);
      NumbersConcat([Word("limit")] + [Param(n)], [] + [n], [Word("offset")] + [Param(o)], [] + [o]);
      assert [Word("limit")] + [Param(n)] + ([Word("offset")] + [Param(o)]) == LimitTokens(l);
      assert [] + [n] + ([] + [o]) == LimitArgs(l);
  }

  lemma WindowArgs(n: nat)
    ensures Upto(1, n) + LimitArgs(Window(n + 1, n + 2)) == Upto(1, n + 2)
  {
    assert LimitArgs(Window(n + 1, n + 2)) == Upto(n + 1, 2);
    UptoConcat(1, n, 2);
  }

  lemma CountHeadNumbers(table: string)
    ensures Numbers(COUNT_HEAD + [Name(table)], [])
  {
    NumbersNone(COUNT_HEAD + [Name(table)]);
  }

  lemma CountNumbers(pg: bool, table: string, cs: seq<Clause>)
    requires WritableClauses(cs)
    ensures Numbers(CountTokens(pg, table, cs), ClausesArgs(cs))
  {
    hide Numbers;
    FilterNumbers(pg, cs);
    CountHeadNumbers(table);
    NumbersConcat(COUNT_HEAD + [Name(table)], [], FilterTokens(pg, cs), ClausesArgs(cs));
    assert [] + ClausesArgs(cs) == ClausesArgs(cs);
  }

  lemma CountStatementReads(d: Dialect, table: string, where: string, cs: seq<Clause>, head: string)
    requires head == "select count(*) from " && SpellsFilter(d, where, cs) && WritableClauses(cs)
    requires CountsFrom(ClausesArgs(cs), 1)
    ensures ReadText(head + QuoteIdent(d, table) + where) == Some(Count(table, FilterExpr(cs)))
  {
    hide Spells, Numbers, ReadText, ReadStmt;
    SpellsCount(d, table, where, cs, head);
    CountNumbers(d.Postgres?, table, cs);
    ReadsAs(d, head + QuoteIdent(d, table) + where, CountTokens(d.Postgres?, table, cs), ClausesArgs(cs));
    ReadWrittenCount(d.Postgres?, table, cs);
  }
}
