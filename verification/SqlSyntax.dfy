/** The statements the stores emit, as trees: a reader from tokens (with the usual precedence
    of `and` over `or`), the tokens each tree is written with, and the law that reading
    undoes writing.  Positional `?` marks are numbered left to right before reading. */
module SqlSyntax {
  import opened Wrappers
  import opened Text
  import opened SqlLexer

  /******* Trees *******/

  datatype Operand = Col(name: string) | AsText(of: Operand) | Lower(of: Operand) | Arg(index: nat)

  datatype Op = Eq | Ilike | Like | Ge | Le | Gt | Lt

  datatype Expr = Cmp(left: Operand, op: Op, right: Operand) | And(fst: Expr, snd: Expr) | Or(fst: Expr, snd: Expr)

  datatype OrderKey = OrderKey(column: string, desc: bool)

  /** `limit 1`, or `limit $l offset $o`. */
  datatype Limit = NoLimit | First | Window(limit: nat, offset: nat)

  datatype Columns = Star | Named(names: seq<string>)

  /** Arguments are named by their 1-based placeholder numbers. */
  datatype Stmt =
    | Select(columns: Columns, table: string, filter: Option<Expr>, order: seq<OrderKey>, limit: Limit)
    | Count(table: string, filter: Option<Expr>)
    | Insert(table: string, into: seq<string>, args: seq<nat>)
    | Update(table: string, sets: seq<(string, nat)>, filter: Option<Expr>)
    | Delete(table: string, filter: Option<Expr>)

  /******* Expressions: reading *******/

  type Read<T> = Option<(T, seq<Token>)>

  function ReadOperand(ts: seq<Token>): (r: Read<Operand>)
    ensures r.Some? ==> |r.value.1| < |ts|
  {
    if ts == [] then None
    else if ts[0].Param? then Some((Arg(ts[0].index), ts[1..]))
    else if ts[0].Name? then
      if |ts| >= 3 && ts[1] == Sym("::") && ts[2] == Word("text") then Some((AsText(Col(ts[0].name)), ts[3..]))
      else Some((Col(ts[0].name), ts[1..]))
    else if ts[0] == Word("cast") then
      if |ts| >= 6 && ts[1] == Sym("(") && ts[2].Name? && ts[3] == Word("as") &&
        ts[4] == Word("char") && ts[5] == Sym(")")
      then Some((AsText(Col(ts[2].name)), ts[6..])) else None
    else if ts[0] == Word("lower") && |ts| >= 2 && ts[1] == Sym("(") then
      match ReadOperand(ts[2..])
      case None => None
      case Some((o, rest)) => if rest != [] && rest[0] == Sym(")") then Some((Lower(o), rest[1..])) else None
    else None
  }

  function OpToken(op: Op): Token {
    match op
    case Eq => Sym("=")
    case Ilike => Word("ilike")
    case Like => Word("like")
    case Ge => Sym(">=")
    case Le => Sym("<=")
    case Gt => Sym(">")
    case Lt => Sym("<")
  }

  function ReadOp(t: Token): Option<Op> {
    if t == Sym("=") then Some(Eq) else if t == Word("ilike") then Some(Ilike)
    else if t == Word("like") then Some(Like) else if t == Sym(">=") then Some(Ge)
    else if t == Sym("<=") then Some(Le) else if t == Sym(">") then Some(Gt)
    else if t == Sym("<") then Some(Lt) else None
  }

  function ReadCmp(ts: seq<Token>): (r: Read<Expr>)
    ensures r.Some? ==> |r.value.1| < |ts|
  {
    match ReadOperand(ts)
    case None => None
    case Some((l, rest)) =>
      if rest == [] || ReadOp(rest[0]).None? then None
      else
        match ReadOperand(rest[1..])
        case None => None
        case Some((r, tail)) => Some((Cmp(l, ReadOp(rest[0]).value, r), tail))
  }

  function ReadFactor(ts: seq<Token>): (r: Read<Expr>)
    ensures r.Some? ==> |r.value.1| < |ts|
    decreases |ts|, 0
  {
    if ts != [] && ts[0] == Sym("(") then
      match ReadOr(ts[1..])
      case None => None
      case Some((e, rest)) => if rest != [] && rest[0] == Sym(")") then Some((e, rest[1..])) else None
    else ReadCmp(ts)
  }

  function ReadAnd(ts: seq<Token>): (r: Read<Expr>)
    ensures r.Some? ==> |r.value.1| < |ts|
    decreases |ts|, 1
  {
    match ReadFactor(ts)
    case None => None
    case Some((e, rest)) =>
      if rest != [] && rest[0] == Word("and") then
        match ReadAnd(rest[1..])
        case None => None
        case Some((f, tail)) => Some((And(e, f), tail))
      else Some((e, rest))
  }

  function ReadOr(ts: seq<Token>): (r: Read<Expr>)
    ensures r.Some? ==> |r.value.1| < |ts|
    decreases |ts|, 2
  {
    match ReadAnd(ts)
    case None => None
    case Some((e, rest)) =>
      if rest != [] && rest[0] == Word("or") then
        match ReadOr(rest[1..])
        case None => None
        case Some((f, tail)) => Some((Or(e, f), tail))
      else Some((e, rest))
  }

  /******* Expressions: writing *******/

  /** A comparison, or a parenthesised disjunction of comparisons: the two clause shapes. */
  datatype Clause = Single(test: Test) | Any(tests: seq<Test>)

  datatype Test = Test(left: Operand, op: Op, right: Operand)

  /** `"c"::text` when postgres, `cast("c" as char)` otherwise. */
  function OperandTokens(pg: bool, o: Operand): seq<Token> {
    match o
    case Col(c) => [Name(c)]
    case Arg(n) => [Param(n)]
    case AsText(Col(c)) =>
      if pg then [Name(c), Sym("::"), Word("text")]
      else [Word("cast"), Sym("("), Name(c), Word("as"), Word("char"), Sym(")")]
    case AsText(_) => []
    case Lower(inner) => [Word("lower"), Sym("(")] + OperandTokens(pg, inner) + [Sym(")")]
  }

  predicate Writable(o: Operand) {
    match o
    case Col(_) => true
    case Arg(_) => true
    case AsText(inner) => inner.Col?
    case Lower(inner) => Writable(inner)
  }

  function TestTokens(pg: bool, t: Test): seq<Token> {
    OperandTokens(pg, t.left) + [OpToken(t.op)] + OperandTokens(pg, t.right)
  }

  predicate WritableTest(t: Test) { Writable(t.left) && Writable(t.right) }

  predicate WritableClause(c: Clause) {
    match c
    case Single(t) => WritableTest(t)
    case Any(ts) => ts != [] && forall i :: 0 <= i < |ts| ==> WritableTest(ts[i])
  }

  predicate WritableClauses(cs: seq<Clause>) { forall i :: 0 <= i < |cs| ==> WritableClause(cs[i]) }

  function TestsTokens(pg: bool, tests: seq<Test>): seq<Token> {
    if tests == [] then [] else if |tests| == 1 then TestTokens(pg, tests[0])
    else TestTokens(pg, tests[0]) + [Word("or")] + TestsTokens(pg, tests[1..])
  }

  function ClauseTokens(pg: bool, c: Clause): seq<Token> {
    match c
    case Single(t) => TestTokens(pg, t)
    case Any(ts) => [Sym("(")] + TestsTokens(pg, ts) + [Sym(")")]
  }

  function ClausesTokens(pg: bool, cs: seq<Clause>): seq<Token> {
    if cs == [] then [] else if |cs| == 1 then ClauseTokens(pg, cs[0])
    else ClauseTokens(pg, cs[0]) + [Word("and")] + ClausesTokens(pg, cs[1..])
  }

  function TestExpr(t: Test): Expr { Cmp(t.left, t.op, t.right) }

  function AnyExpr(ts: seq<Test>): Expr
    requires ts != []
  {
    if |ts| == 1 then TestExpr(ts[0]) else Or(TestExpr(ts[0]), AnyExpr(ts[1..]))
  }

  function ClauseExpr(c: Clause): Expr
    requires c.Any? ==> c.tests != []
  {
    match c
    case Single(t) => TestExpr(t)
    case Any(ts) => AnyExpr(ts)
  }

  function AllExpr(cs: seq<Clause>): Expr
    requires cs != [] && WritableClauses(cs)
  {
    if |cs| == 1 then ClauseExpr(cs[0]) else And(ClauseExpr(cs[0]), AllExpr(cs[1..]))
  }

  /** Nothing after an operand may extend it. */
  predicate NoCast(rest: seq<Token>) { rest == [] || rest[0] != Sym("::") }

  /** Nothing after an expression may extend it. */
  predicate Ends(rest: seq<Token>) {
    rest == [] || (rest[0] != Sym("::") && rest[0] != Word("and") && rest[0] != Word("or"))
  }

  /******* Reading undoes writing: expressions *******/

  lemma ReadColonCast(c: string, rest: seq<Token>)
    ensures ReadOperand([Name(c), Sym("::"), Word("text")] + rest) == Some((AsText(Col(c)), rest))
  {
    assert ([Name(c), Sym("::"), Word("text")] + rest)[3..] == rest;
  }

  lemma ReadCharCast(c: string, rest: seq<Token>)
    ensures ReadOperand([Word("cast"), Sym("("), Name(c), Word("as"), Word("char"), Sym(")")] + rest) ==
      Some((AsText(Col(c)), rest))
  {
    assert ([Word("cast"), Sym("("), Name(c), Word("as"), Word("char"), Sym(")")] + rest)[6..] == rest;
  }

  lemma ReadLower(ts: seq<Token>, o: Operand, rest: seq<Token>)
    requires ReadOperand(ts) == Some((o, [Sym(")")] + rest))
    ensures ReadOperand([Word("lower"), Sym("(")] + ts) == Some((Lower(o), rest))
  {
    assert ([Word("lower"), Sym("(")] + ts)[2..] == ts;
    assert ([Sym(")")] + rest)[1..] == rest;
  }

  lemma {:induction false} ReadWrittenOperand(pg: bool, o: Operand, rest: seq<Token>)
    requires Writable(o) && NoCast(rest)
    ensures ReadOperand(OperandTokens(pg, o) + rest) == Some((o, rest))
  {
    match o {
      case Col(c) =>
        assert ([Name(c)] + rest)[1..] == rest;
      case Arg(n) =>
        assert ([Param(n)] + rest)[1..] == rest;
      case AsText(inner) =>
        if pg { ReadColonCast(inner.name, rest); } else { ReadCharCast(inner.name, rest); }
      case Lower(inner) =>
        var ts := OperandTokens(pg, inner);
        ReadWrittenOperand(pg, inner, [Sym(")")] + rest);
        ReadLower(ts + ([Sym(")")] + rest), inner, rest);
        Around([Word("lower"), Sym("(")], ts, [Sym(")")], rest);
    }
  }

  lemma ReadOpToken(op: Op)
    ensures ReadOp(OpToken(op)) == Some(op) && OpToken(op) != Sym("::")
  {}

  lemma ReadComparison(ts: seq<Token>, l: Operand, op: Op, us: seq<Token>, r: Operand, rest: seq<Token>)
    requires ReadOperand(ts) == Some((l, [OpToken(op)] + us)) && ReadOperand(us) == Some((r, rest))
    ensures ReadCmp(ts) == Some((Cmp(l, op, r), rest))
  {
    ReadOpToken(op);
    assert ([OpToken(op)] + us)[1..] == us;
  }

  lemma OperandOpens(pg: bool, o: Operand, rest: seq<Token>)
    requires Writable(o)
    ensures var ts := OperandTokens(pg, o) + rest; ts != [] && ts[0] != Sym("(")
  {}

  lemma ReadWrittenTest(pg: bool, t: Test, rest: seq<Token>)
    requires WritableTest(t) && NoCast(rest)
    ensures ReadCmp(TestTokens(pg, t) + rest) == Some((TestExpr(t), rest))
    ensures ReadFactor(TestTokens(pg, t) + rest) == Some((TestExpr(t), rest))
  {
    var right := OperandTokens(pg, t.right) + rest;
    var tail := [OpToken(t.op)] + right;
    Around(OperandTokens(pg, t.left), [OpToken(t.op)], OperandTokens(pg, t.right), rest);
    ReadOpToken(t.op);
    ReadWrittenOperand(pg, t.left, tail);
    ReadWrittenOperand(pg, t.right, rest);
    ReadComparison(OperandTokens(pg, t.left) + tail, t.left, t.op, right, t.right, rest);
    OperandOpens(pg, t.left, tail);
  }

  lemma AndLast(ts: seq<Token>, e: Expr, rest: seq<Token>)
    requires ReadFactor(ts) == Some((e, rest)) && (rest == [] || rest[0] != Word("and"))
    ensures ReadAnd(ts) == Some((e, rest))
  {}

  lemma AndMore(ts: seq<Token>, e: Expr, more: seq<Token>, f: Expr, rest: seq<Token>)
    requires ReadFactor(ts) == Some((e, [Word("and")] + more)) && ReadAnd(more) == Some((f, rest))
    ensures ReadAnd(ts) == Some((And(e, f), rest))
  {
    assert ([Word("and")] + more)[1..] == more;
  }

  lemma OrLast(ts: seq<Token>, e: Expr, rest: seq<Token>)
    requires ReadAnd(ts) == Some((e, rest)) && (rest == [] || rest[0] != Word("or"))
    ensures ReadOr(ts) == Some((e, rest))
  {}

  lemma OrMore(ts: seq<Token>, e: Expr, more: seq<Token>, f: Expr, rest: seq<Token>)
    requires ReadAnd(ts) == Some((e, [Word("or")] + more)) && ReadOr(more) == Some((f, rest))
    ensures ReadOr(ts) == Some((Or(e, f), rest))
  {
    assert ([Word("or")] + more)[1..] == more;
  }

  lemma {:induction false} ReadWrittenTests(pg: bool, ts: seq<Test>, rest: seq<Token>)
    requires ts != [] && (forall i :: 0 <= i < |ts| ==> WritableTest(ts[i])) && Ends(rest)
    ensures ReadOr(TestsTokens(pg, ts) + rest) == Some((AnyExpr(ts), rest))
  {
    if |ts| == 1 {
      ReadWrittenTest(pg, ts[0], rest);
      AndLast(TestTokens(pg, ts[0]) + rest, TestExpr(ts[0]), rest);
      OrLast(TestTokens(pg, ts[0]) + rest, TestExpr(ts[0]), rest);
    } else {
      var more := TestsTokens(pg, ts[1..]) + rest;
      var tail := [Word("or")] + more;
      var all := TestTokens(pg, ts[0]) + tail;
      Around(TestTokens(pg, ts[0]), [Word("or")], TestsTokens(pg, ts[1..]), rest);
      ReadWrittenTest(pg, ts[0], tail);
      ReadWrittenTests(pg, ts[1..], rest);
      AndLast(all, TestExpr(ts[0]), tail);
      OrMore(all, TestExpr(ts[0]), more, AnyExpr(ts[1..]), rest);
    }
  }

  lemma ReadGroup(ts: seq<Token>, e: Expr, rest: seq<Token>)
    requires ReadOr(ts) == Some((e, [Sym(")")] + rest))
    ensures ReadFactor([Sym("(")] + ts) == Some((e, rest))
  {
    assert ([Sym("(")] + ts)[1..] == ts;
    assert ([Sym(")")] + rest)[1..] == rest;
  }

  lemma ReadWrittenClause(pg: bool, c: Clause, rest: seq<Token>)
    requires WritableClause(c) && NoCast(rest)
    ensures ReadFactor(ClauseTokens(pg, c) + rest) == Some((ClauseExpr(c), rest))
  {
    match c {
      case Single(t) => ReadWrittenTest(pg, t, rest);
      case Any(ts) =>
        var tail := [Sym(")")] + rest;
        ReadWrittenTests(pg, ts, tail);
        ReadGroup(TestsTokens(pg, ts) + tail, AnyExpr(ts), rest);
        Around([Sym("(")], TestsTokens(pg, ts), [Sym(")")], rest);
    }
  }

  lemma ClausesSplit(pg: bool, cs: seq<Clause>, rest: seq<Token>)
    requires |cs| > 1
    ensures ClausesTokens(pg, cs) + rest
         == ClauseTokens(pg, cs[0]) + ([Word("and")] + (ClausesTokens(pg, cs[1..]) + rest))
  {}

  /** A conjunction of clauses, written without outer parentheses, reads back as itself:
      no `or` escapes its parentheses. */
  lemma {:induction false} ReadWrittenClauses(pg: bool, cs: seq<Clause>, rest: seq<Token>)
    requires cs != [] && WritableClauses(cs) && Ends(rest)
    ensures ReadAnd(ClausesTokens(pg, cs) + rest) == Some((AllExpr(cs), rest))
  {
    if |cs| == 1 {
      ReadWrittenClause(pg, cs[0], rest);
      AndLast(ClauseTokens(pg, cs[0]) + rest, ClauseExpr(cs[0]), rest);
    } else {
      var more := ClausesTokens(pg, cs[1..]) + rest;
      ReadWrittenClauses(pg, cs[1..], rest);
      ReadWrittenClause(pg, cs[0], [Word("and")] + more);
      ClausesSplit(pg, cs, rest);
      AndMore(ClausesTokens(pg, cs) + rest, ClauseExpr(cs[0]), more, AllExpr(cs[1..]), rest);
    }
  }

  lemma ReadWritten(pg: bool, cs: seq<Clause>, rest: seq<Token>)
    requires cs != [] && WritableClauses(cs) && Ends(rest)
    ensures ReadOr(ClausesTokens(pg, cs) + rest) == Some((AllExpr(cs), rest))
  {
    ReadWrittenClauses(pg, cs, rest);
    OrLast(ClausesTokens(pg, cs) + rest, AllExpr(cs), rest);
  }

  /******* Statements: reading *******/

  function ReadNames(ts: seq<Token>): (r: Read<seq<string>>)
    ensures r.Some? ==> |r.value.1| < |ts|
  {
    if ts == [] || !ts[0].Name? then None
    else if |ts| > 1 && ts[1] == Sym(",") then
      match ReadNames(ts[2..])
      case None => None
      case Some((names, rest)) => Some(([ts[0].name] + names, rest))
    else Some(([ts[0].name], ts[1..]))
  }

  function ReadParams(ts: seq<Token>): (r: Read<seq<nat>>)
    ensures r.Some? ==> |r.value.1| < |ts|
  {
    if ts == [] || !ts[0].Param? then None
    else if |ts| > 1 && ts[1] == Sym(",") then
      match ReadParams(ts[2..])
      case None => None
      case Some((ns, rest)) => Some(([ts[0].index] + ns, rest))
    else Some(([ts[0].index], ts[1..]))
  }

  function ReadSets(ts: seq<Token>): (r: Read<seq<(string, nat)>>)
    ensures r.Some? ==> |r.value.1| < |ts|
  {
    if |ts| < 3 || !ts[0].Name? || ts[1] != Sym("=") || !ts[2].Param? then None
    else if |ts| > 3 && ts[3] == Sym(",") then
      match ReadSets(ts[4..])
      case None => None
      case Some((sets, rest)) => Some(([(ts[0].name, ts[2].index)] + sets, rest))
    else Some(([(ts[0].name, ts[2].index)], ts[3..]))
  }

  function ReadKeys(ts: seq<Token>): (r: Read<seq<OrderKey>>)
    ensures r.Some? ==> |r.value.1| < |ts|
  {
    if |ts| < 2 || !ts[0].Name? || (ts[1] != Word("asc") && ts[1] != Word("desc")) then None
    else
      var key := OrderKey(ts[0].name, ts[1] == Word("desc"));
      if |ts| > 2 && ts[2] == Sym(",") then
        match ReadKeys(ts[3..])
        case None => None
        case Some((keys, rest)) => Some(([key] + keys, rest))
      else Some(([key], ts[2..]))
  }

  function ReadFilter(ts: seq<Token>): Read<Option<Expr>> {
    if ts != [] && ts[0] == Word("where") then
      match ReadOr(ts[1..])
      case None => None
      case Some((e, rest)) => Some((Some(e), rest))
    else Some((None, ts))
  }

  function ReadOrder(ts: seq<Token>): Read<seq<OrderKey>> {
    if |ts| >= 2 && ts[0] == Word("order") && ts[1] == Word("by") then ReadKeys(ts[2..]) else Some(([], ts))
  }

  /** The limit clause ends the statement. */
  function ReadLimit(ts: seq<Token>): Option<Limit> {
    if ts == [] then Some(NoLimit)
    else if ts == [Word("limit"), Number(1)] then Some(First)
    else if |ts| == 4 && ts[0] == Word("limit") && ts[1].Param? && ts[2] == Word("offset") && ts[3].Param? then
      Some(Window(ts[1].index, ts[3].index))
    else None
  }

  function ReadSelect(columns: Columns, ts: seq<Token>): Option<Stmt> {
    if |ts| < 2 || ts[0] != Word("from") || !ts[1].Name? then None
    else
      match ReadFilter(ts[2..])
      case None => None
      case Some((filter, rest)) =>
        match ReadOrder(rest)
        case None => None
        case Some((order, tail)) =>
          match ReadLimit(tail)
          case None => None
          case Some(limit) => Some(Select(columns, ts[1].name, filter, order, limit))
  }

  const COUNT_HEAD: seq<Token> := [Word("select"), Word("count"), Sym("("), Sym("*"), Sym(")"), Word("from")]

  function ReadInsert(ts: seq<Token>): Option<Stmt> {
    if |ts| < 4 || ts[1] != Word("into") || !ts[2].Name? || ts[3] != Sym("(") then None
    else
      match ReadNames(ts[4..])
      case None => None
      case Some((names, rest)) =>
        if |rest| < 3 || rest[0] != Sym(")") || rest[1] != Word("values") || rest[2] != Sym("(") then None
        else
          match ReadParams(rest[3..])
          case None => None
          case Some((ns, tail)) => if tail == [Sym(")")] then Some(Insert(ts[2].name, names, ns)) else None
  }

  function ReadUpdate(ts: seq<Token>): Option<Stmt> {
    if |ts| < 3 || !ts[1].Name? || ts[2] != Word("set") then None
    else
      match ReadSets(ts[3..])
      case None => None
      case Some((sets, rest)) =>
        match ReadFilter(rest)
        case None => None
        case Some((filter, tail)) => if tail == [] then Some(Update(ts[1].name, sets, filter)) else None
  }

  /** A whole table name and filter, up to the end: the tail of count and delete. */
  function ReadTarget(ts: seq<Token>): Option<(string, Option<Expr>)> {
    if ts == [] || !ts[0].Name? then None
    else
      match ReadFilter(ts[1..])
      case None => None
      case Some((filter, tail)) => if tail == [] then Some((ts[0].name, filter)) else None
  }

  function ReadStmt(ts: seq<Token>): Option<Stmt> {
    if |ts| < 2 then None
    else if COUNT_HEAD <= ts then
      match ReadTarget(ts[6..])
      case None => None
      case Some((table, filter)) => Some(Count(table, filter))
    else if ts[0] == Word("select") && ts[1] == Sym("*") then ReadSelect(Star, ts[2..])
    else if ts[0] == Word("select") then
      match ReadNames(ts[1..])
      case None => None
      case Some((names, rest)) => ReadSelect(Named(names), rest)
    else if ts[0] == Word("insert") then ReadInsert(ts)
    else if ts[0] == Word("update") then ReadUpdate(ts)
    else if ts[0] == Word("delete") && ts[1] == Word("from") then
      match ReadTarget(ts[2..])
      case None => None
      case Some((table, filter)) => Some(Delete(table, filter))
    else None
  }

  /******* Statements: writing *******/

  function NamesTokens(names: seq<string>): seq<Token> {
    if names == [] then [] else if |names| == 1 then [Name(names[0])]
    else [Name(names[0]), Sym(",")] + NamesTokens(names[1..])
  }

  function ParamsTokens(ns: seq<nat>): seq<Token> {
    if ns == [] then [] else if |ns| == 1 then [Param(ns[0])] else [Param(ns[0]), Sym(",")] + ParamsTokens(ns[1..])
  }

  function SetTokens(s: (string, nat)): seq<Token> { [Name(s.0), Sym("="), Param(s.1)] }

  function SetsTokens(sets: seq<(string, nat)>): seq<Token> {
    if sets == [] then [] else if |sets| == 1 then SetTokens(sets[0])
    else SetTokens(sets[0]) + [Sym(",")] + SetsTokens(sets[1..])
  }

  function KeyTokens(k: OrderKey): seq<Token> { [Name(k.column), Word(if k.desc then "desc" else "asc")] }

  function KeysTokens(keys: seq<OrderKey>): seq<Token> {
    if keys == [] then [] else if |keys| == 1 then KeyTokens(keys[0])
    else KeyTokens(keys[0]) + [Sym(",")] + KeysTokens(keys[1..])
  }

  function FilterTokens(pg: bool, cs: seq<Clause>): seq<Token> {
    if cs == [] then [] else [Word("where")] + ClausesTokens(pg, cs)
  }

  function OrderTokens(keys: seq<OrderKey>): seq<Token> {
    if keys == [] then [] else [Word("order"), Word("by")] + KeysTokens(keys)
  }

  function LimitTokens(l: Limit): seq<Token> {
    match l
    case NoLimit => []
    case First => [Word("limit"), Number(1)]
    case Window(n, o) => [Word("limit"), Param(n), Word("offset"), Param(o)]
  }

  function ColumnsTokens(c: Columns): seq<Token> {
    match c
    case Star => [Sym("*")]
    case Named(names) => NamesTokens(names)
  }

  function SelectTokens(pg: bool, c: Columns, table: string, cs: seq<Clause>, order: seq<OrderKey>,
                        l: Limit): seq<Token>
  {
    [Word("select")] + ColumnsTokens(c) + [Word("from"), Name(table)] + FilterTokens(pg, cs) +
      OrderTokens(order) + LimitTokens(l)
  }

  function CountTokens(pg: bool, table: string, cs: seq<Clause>): seq<Token> {
    COUNT_HEAD + [Name(table)] + FilterTokens(pg, cs)
  }

  function InsertTokens(table: string, names: seq<string>, ns: seq<nat>): seq<Token> {
    [Word("insert"), Word("into"), Name(table), Sym("(")] + NamesTokens(names)
      + [Sym(")"), Word("values"), Sym("(")] + ParamsTokens(ns) + [Sym(")")]
  }

  function UpdateTokens(pg: bool, table: string, sets: seq<(string, nat)>, cs: seq<Clause>): seq<Token> {
    [Word("update"), Name(table), Word("set")] + SetsTokens(sets) + FilterTokens(pg, cs)
  }

  function DeleteTokens(pg: bool, table: string, cs: seq<Clause>): seq<Token> {
    [Word("delete"), Word("from"), Name(table)] + FilterTokens(pg, cs)
  }

  function FilterExpr(cs: seq<Clause>): Option<Expr>
    requires WritableClauses(cs)
  {
    if cs == [] then None else Some(AllExpr(cs))
  }

  /******* Reading undoes writing: statements *******/

  lemma NamesLast(name: string, rest: seq<Token>)
    requires rest == [] || rest[0] != Sym(",")
    ensures ReadNames([Name(name)] + rest) == Some(([name], rest))
  {
    assert ([Name(name)] + rest)[1..] == rest;
  }

  lemma NamesMore(name: string, more: seq<Token>, names: seq<string>, rest: seq<Token>)
    requires ReadNames(more) == Some((names, rest))
    ensures ReadNames([Name(name), Sym(",")] + more) == Some(([name] + names, rest))
  {
    assert ([Name(name), Sym(",")] + more)[2..] == more;
  }

  lemma {:induction false} ReadWrittenNames(names: seq<string>, rest: seq<Token>)
    requires names != [] && (rest == [] || rest[0] != Sym(","))
    ensures ReadNames(NamesTokens(names) + rest) == Some((names, rest))
  {
    FirstAndRest(names);
    if |names| == 1 {
      NamesLast(names[0], rest);
    } else {
      ReadWrittenNames(names[1..], rest);
      NamesMore(names[0], NamesTokens(names[1..]) + rest, names[1..], rest);
      Assoc([Name(names[0]), Sym(",")], NamesTokens(names[1..]), rest);
    }
  }

  lemma ParamsLast(n: nat, rest: seq<Token>)
    requires rest == [] || rest[0] != Sym(",")
    ensures ReadParams([Param(n)] + rest) == Some(([n], rest))
  {
    assert ([Param(n)] + rest)[1..] == rest;
  }

  lemma ParamsMore(n: nat, more: seq<Token>, ns: seq<nat>, rest: seq<Token>)
    requires ReadParams(more) == Some((ns, rest))
    ensures ReadParams([Param(n), Sym(",")] + more) == Some(([n] + ns, rest))
  {
    assert ([Param(n), Sym(",")] + more)[2..] == more;
  }

  lemma {:induction false} ReadWrittenParams(ns: seq<nat>, rest: seq<Token>)
    requires ns != [] && (rest == [] || rest[0] != Sym(","))
    ensures ReadParams(ParamsTokens(ns) + rest) == Some((ns, rest))
  {
    FirstAndRest(ns);
    if |ns| == 1 {
      ParamsLast(ns[0], rest);
    } else {
      ReadWrittenParams(ns[1..], rest);
      ParamsMore(ns[0], ParamsTokens(ns[1..]) + rest, ns[1..], rest);
      Assoc([Param(ns[0]), Sym(",")], ParamsTokens(ns[1..]), rest);
    }
  }

  lemma SetsLast(s: (string, nat), rest: seq<Token>)
    requires rest == [] || rest[0] != Sym(",")
    ensures ReadSets(SetTokens(s) + rest) == Some(([s], rest))
  {
    assert (SetTokens(s) + rest)[3..] == rest;
  }

  lemma SetsMore(s: (string, nat), more: seq<Token>, sets: seq<(string, nat)>, rest: seq<Token>)
    requires ReadSets(more) == Some((sets, rest))
    ensures ReadSets(SetTokens(s) + ([Sym(",")] + more)) == Some(([s] + sets, rest))
  {
    var ts := SetTokens(s) + ([Sym(",")] + more);
    assert ts[4..] == more && ts[3] == Sym(",");
  }

  lemma {:induction false} ReadWrittenSets(sets: seq<(string, nat)>, rest: seq<Token>)
    requires sets != [] && (rest == [] || rest[0] != Sym(","))
    ensures ReadSets(SetsTokens(sets) + rest) == Some((sets, rest))
  {
    FirstAndRest(sets);
    if |sets| == 1 {
      SetsLast(sets[0], rest);
    } else {
      ReadWrittenSets(sets[1..], rest);
      SetsMore(sets[0], SetsTokens(sets[1..]) + rest, sets[1..], rest);
      Around(SetTokens(sets[0]), [Sym(",")], SetsTokens(sets[1..]), rest);
    }
  }

  lemma KeysLast(k: OrderKey, rest: seq<Token>)
    requires rest == [] || rest[0] != Sym(",")
    ensures ReadKeys(KeyTokens(k) + rest) == Some(([k], rest))
  {
    assert (KeyTokens(k) + rest)[2..] == rest;
  }

  lemma KeysMore(k: OrderKey, more: seq<Token>, keys: seq<OrderKey>, rest: seq<Token>)
    requires ReadKeys(more) == Some((keys, rest))
    ensures ReadKeys(KeyTokens(k) + ([Sym(",")] + more)) == Some(([k] + keys, rest))
  {
    var ts := KeyTokens(k) + ([Sym(",")] + more);
    assert ts[3..] == more && ts[2] == Sym(",");
  }

  lemma {:induction false} ReadWrittenKeys(keys: seq<OrderKey>, rest: seq<Token>)
    requires keys != [] && (rest == [] || rest[0] != Sym(","))
    ensures ReadKeys(KeysTokens(keys) + rest) == Some((keys, rest))
  {
    FirstAndRest(keys);
    if |keys| == 1 {
      KeysLast(keys[0], rest);
    } else {
      ReadWrittenKeys(keys[1..], rest);
      KeysMore(keys[0], KeysTokens(keys[1..]) + rest, keys[1..], rest);
      Around(KeyTokens(keys[0]), [Sym(",")], KeysTokens(keys[1..]), rest);
    }
  }

  lemma FilterFrom(ts: seq<Token>, e: Expr, rest: seq<Token>)
    requires ReadOr(ts) == Some((e, rest))
    ensures ReadFilter([Word("where")] + ts) == Some((Some(e), rest))
  {
    assert ([Word("where")] + ts)[1..] == ts;
  }

  lemma ReadWrittenFilter(pg: bool, cs: seq<Clause>, rest: seq<Token>)
    requires WritableClauses(cs) && Ends(rest) && (rest == [] || rest[0] != Word("where"))
    ensures ReadFilter(FilterTokens(pg, cs) + rest) == Some((FilterExpr(cs), rest))
  {
    if cs == [] {
      assert FilterTokens(pg, cs) + rest == rest;
    } else {
      ReadWritten(pg, cs, rest);
      assert FilterTokens(pg, cs) + rest == [Word("where")] + (ClausesTokens(pg, cs) + rest);
      FilterFrom(ClausesTokens(pg, cs) + rest, AllExpr(cs), rest);
    }
  }

  lemma ReadWrittenTarget(pg: bool, table: string, cs: seq<Clause>)
    requires WritableClauses(cs)
    ensures ReadTarget([Name(table)] + FilterTokens(pg, cs)) == Some((table, FilterExpr(cs)))
  {
    ReadWrittenFilter(pg, cs, []);
    assert ([Name(table)] + FilterTokens(pg, cs))[1..] == FilterTokens(pg, cs) + [];
  }

  lemma OrderFrom(ts: seq<Token>)
    ensures ReadOrder([Word("order"), Word("by")] + ts) == ReadKeys(ts)
  {
    assert ([Word("order"), Word("by")] + ts)[2..] == ts;
  }

  lemma ReadWrittenOrder(order: seq<OrderKey>, l: Limit)
    ensures ReadOrder(OrderTokens(order) + LimitTokens(l)) == Some((order, LimitTokens(l)))
  {
    var limit := LimitTokens(l);
    if order == [] {
      assert OrderTokens(order) + limit == limit;
    } else {
      ReadWrittenKeys(order, limit);
      OrderFrom(KeysTokens(order) + limit);
      Assoc([Word("order"), Word("by")], KeysTokens(order), limit);
    }
  }

  lemma SelectFrom(c: Columns, table: string, ts: seq<Token>, filter: Option<Expr>, rest: seq<Token>,
                   order: seq<OrderKey>, l: Limit)
    requires ReadFilter(ts) == Some((filter, rest))
    requires ReadOrder(rest) == Some((order, LimitTokens(l)))
    ensures ReadSelect(c, [Word("from"), Name(table)] + ts) == Some(Select(c, table, filter, order, l))
  {
    assert ([Word("from"), Name(table)] + ts)[2..] == ts;
  }

  lemma ReadWrittenTail(pg: bool, c: Columns, table: string, cs: seq<Clause>, order: seq<OrderKey>, l: Limit)
    requires WritableClauses(cs)
    ensures ReadSelect(c, [Word("from"), Name(table)] + FilterTokens(pg, cs) + OrderTokens(order) + LimitTokens(l))
         == Some(Select(c, table, FilterExpr(cs), order, l))
  {
    var rest := OrderTokens(order) + LimitTokens(l);
    var ts := FilterTokens(pg, cs) + rest;
    ReadWrittenFilter(pg, cs, rest);
    ReadWrittenOrder(order, l);
    SelectFrom(c, table, ts, FilterExpr(cs), rest, order, l);
    Around([Word("from"), Name(table)], FilterTokens(pg, cs), OrderTokens(order), LimitTokens(l));
  }

  lemma SelectNames(names: seq<string>, ts: seq<Token>)
    requires names != [] && ts != [] && ts[0] == Word("from")
    ensures ReadStmt([Word("select")] + NamesTokens(names) + ts) == ReadSelect(Named(names), ts)
  {
    ReadWrittenNames(names, ts);
    var all := [Word("select")] + NamesTokens(names) + ts;
    assert all[1] == Name(names[0]);
    assert all[1..] == NamesTokens(names) + ts;
  }

  lemma SelectStar(ts: seq<Token>)
    ensures ReadStmt([Word("select"), Sym("*")] + ts) == ReadSelect(Star, ts)
  {
    assert ([Word("select"), Sym("*")] + ts)[2..] == ts;
  }

  lemma ReadWrittenSelect(pg: bool, c: Columns, table: string, cs: seq<Clause>, order: seq<OrderKey>, l: Limit)
    requires WritableClauses(cs) && (c.Named? ==> c.names != [])
    ensures ReadStmt(SelectTokens(pg, c, table, cs, order, l)) == Some(Select(c, table, FilterExpr(cs), order, l))
  {
    ReadWrittenTail(pg, c, table, cs, order, l);
    var head, from := [Word("select")] + ColumnsTokens(c), [Word("from"), Name(table)];
    var tail := from + FilterTokens(pg, cs) + OrderTokens(order) + LimitTokens(l);
    Regroup5(head, from, FilterTokens(pg, cs), OrderTokens(order), LimitTokens(l));
    if c.Star? { SelectStar(tail); } else { SelectNames(c.names, tail); }
  }

  lemma Regroup5<T>(a: seq<T>, b: seq<T>, c: seq<T>, d: seq<T>, e: seq<T>)
    ensures a + b + c + d + e == a + (b + c + d + e)
  {}

  lemma CountFrom(ts: seq<Token>, table: string, filter: Option<Expr>)
    requires ReadTarget(ts) == Some((table, filter))
    ensures ReadStmt(COUNT_HEAD + ts) == Some(Count(table, filter))
  {
    var all := COUNT_HEAD + ts;
    assert COUNT_HEAD <= all && all[6..] == ts;
  }

  lemma ReadWrittenCount(pg: bool, table: string, cs: seq<Clause>)
    requires WritableClauses(cs)
    ensures ReadStmt(CountTokens(pg, table, cs)) == Some(Count(table, FilterExpr(cs)))
  {
    ReadWrittenTarget(pg, table, cs);
    CountFrom([Name(table)] + FilterTokens(pg, cs), table, FilterExpr(cs));
    Assoc(COUNT_HEAD, [Name(table)], FilterTokens(pg, cs));
  }

  lemma InsertFrom(table: string, ts: seq<Token>, names: seq<string>, us: seq<Token>, ns: seq<nat>)
    requires ReadNames(ts) == Some((names, [Sym(")"), Word("values"), Sym("(")] + us))
    requires ReadParams(us) == Some((ns, [Sym(")")]))
    ensures ReadInsert([Word("insert"), Word("into"), Name(table), Sym("(")] + ts) == Some(Insert(table, names, ns))
  {
    assert ([Word("insert"), Word("into"), Name(table), Sym("(")] + ts)[4..] == ts;
    assert ([Sym(")"), Word("values"), Sym("(")] + us)[3..] == us;
  }

  lemma Regroup6<T>(a: seq<T>, b: seq<T>, c: seq<T>, d: seq<T>, e: seq<T>)
    ensures a + b + c + d + e == a + (b + (c + (d + e)))
  {}

  lemma ReadWrittenInsert(table: string, names: seq<string>, ns: seq<nat>)
    requires names != [] && ns != []
    ensures ReadStmt(InsertTokens(table, names, ns)) == Some(Insert(table, names, ns))
  {
    var us := ParamsTokens(ns) + [Sym(")")];
    var ts := NamesTokens(names) + ([Sym(")"), Word("values"), Sym("(")] + us);
    ReadWrittenNames(names, [Sym(")"), Word("values"), Sym("(")] + us);
    ReadWrittenParams(ns, [Sym(")")]);
    InsertFrom(table, ts, names, us, ns);
    Regroup6([Word("insert"), Word("into"), Name(table), Sym("(")], NamesTokens(names),
             [Sym(")"), Word("values"), Sym("(")], ParamsTokens(ns), [Sym(")")]);
  }

  lemma UpdateStmt(table: string, ts: seq<Token>)
    ensures ReadStmt([Word("update"), Name(table), Word("set")] + ts) ==
      ReadUpdate([Word("update"), Name(table), Word("set")] + ts)
  {
    var all := [Word("update"), Name(table), Word("set")] + ts;
    assert all[0] == Word("update") && COUNT_HEAD[0] == Word("select");
  }

  lemma UpdateFrom(table: string, ts: seq<Token>, sets: seq<(string, nat)>, rest: seq<Token>, filter: Option<Expr>)
    requires ReadSets(ts) == Some((sets, rest)) && ReadFilter(rest) == Some((filter, []))
    ensures ReadStmt([Word("update"), Name(table), Word("set")] + ts) == Some(Update(table, sets, filter))
  {
    UpdateStmt(table, ts);
    assert ([Word("update"), Name(table), Word("set")] + ts)[3..] == ts;
  }

  lemma ReadWrittenUpdate(pg: bool, table: string, sets: seq<(string, nat)>, cs: seq<Clause>)
    requires WritableClauses(cs) && sets != []
    ensures ReadStmt(UpdateTokens(pg, table, sets, cs)) == Some(Update(table, sets, FilterExpr(cs)))
  {
    var tail := FilterTokens(pg, cs);
    ReadWrittenSets(sets, tail);
    ReadWrittenFilter(pg, cs, []);
    assert tail + [] == tail;
    UpdateFrom(table, SetsTokens(sets) + tail, sets, tail, FilterExpr(cs));
    Assoc([Word("update"), Name(table), Word("set")], SetsTokens(sets), tail);
  }

  lemma DeleteStmt(ts: seq<Token>)
    requires |ts| >= 2 && ts[0] == Word("delete") && ts[1] == Word("from")
    ensures ReadTarget(ts[2..]).Some? ==>
      ReadStmt(ts) == Some(Delete(ReadTarget(ts[2..]).value.0, ReadTarget(ts[2..]).value.1))
  {
    assert COUNT_HEAD[0] == Word("select");
  }

  lemma ReadWrittenDelete(pg: bool, table: string, cs: seq<Clause>)
    requires WritableClauses(cs)
    ensures ReadStmt(DeleteTokens(pg, table, cs)) == Some(Delete(table, FilterExpr(cs)))
  {
    ReadWrittenTarget(pg, table, cs);
    var ts := DeleteTokens(pg, table, cs);
    assert ts[2..] == [Name(table)] + FilterTokens(pg, cs);
    DeleteStmt(ts);
  }

  /******* Positional marks *******/

  /** Numbers the `?` marks from left to right, as a positional driver binds them. */
  function NumberMarks(ts: seq<Token>, k: nat): seq<Token> {
    if ts == [] then []
    else if ts[0].Mark? then [Param(k)] + NumberMarks(ts[1..], k + 1)
    else [ts[0]] + NumberMarks(ts[1..], k)
  }

  /** The placeholder numbers in order of appearance. */
  function Params(ts: seq<Token>): seq<nat> {
    if ts == [] then [] else (if ts[0].Param? then [ts[0].index] else []) + Params(ts[1..])
  }

  /** The same tokens with every number dropped from its placeholder. */
  function Positional(ts: seq<Token>): (r: seq<Token>)
    ensures |r| == |ts| && forall i :: 0 <= i < |ts| ==> r[i] == if ts[i].Param? then Mark else ts[i]
  {
    seq(|ts|, i requires 0 <= i < |ts| => if ts[i].Param? then Mark else ts[i])
  }

  predicate CountsFrom(ns: seq<nat>, k: nat) { forall i :: 0 <= i < |ns| ==> ns[i] == k + i }

  predicate MarkFree(ts: seq<Token>) { forall i :: 0 <= i < |ts| ==> !ts[i].Mark? }

  /** Binding `?` by position is binding `$n` by number, exactly when the numbers count up. */
  lemma {:induction false} NumberPositional(ts: seq<Token>, k: nat)
    requires MarkFree(ts)
    ensures NumberMarks(Positional(ts), k) == ts <==> CountsFrom(Params(ts), k)
  {
    if ts != [] {
      var rest := ts[1..];
      assert Positional(ts)[1..] == Positional(rest);
      assert ts == [ts[0]] + rest;
      if ts[0].Param? {
        NumberPositional(rest, k + 1);
        var ns := Params(ts);
        assert ns == [ts[0].index] + Params(rest);
        assert ns[1..] == Params(rest);
        assert CountsFrom(ns, k) <==> ns[0] == k && CountsFrom(ns[1..], k + 1) by {
          if ns[0] == k && CountsFrom(ns[1..], k + 1) {
            forall i | 0 <= i < |ns| ensures ns[i] == k + i { if i > 0 { assert ns[1..][i - 1] == ns[i]; } }
          }
        }
        assert NumberMarks(Positional(ts), k) == [Param(k)] + NumberMarks(Positional(rest), k + 1);
      } else {
        NumberPositional(rest, k);
        assert NumberMarks(Positional(ts), k) == [ts[0]] + NumberMarks(Positional(rest), k);
        assert [] + Params(rest) == Params(rest);
      }
    }
  }

  lemma {:induction false} NumberFree(ts: seq<Token>, k: nat)
    requires MarkFree(ts)
    ensures NumberMarks(ts, k) == ts
  {
    if ts != [] { NumberFree(ts[1..], k); }
  }

  lemma {:induction false} ParamsConcat(a: seq<Token>, b: seq<Token>)
    ensures Params(a + b) == Params(a) + Params(b)
  {
    if a == [] {
      assert a + b == b && Params(a) + Params(b) == Params(b);
    } else {
      ParamsConcat(a[1..], b);
      assert (a + b)[1..] == a[1..] + b && (a + b)[0] == a[0];
      Assoc(if a[0].Param? then [a[0].index] else [], Params(a[1..]), Params(b));
    }
  }

  /** A whole statement read from text: lexed, its marks numbered, and parsed. */
  function ReadText(text: string): Option<Stmt> {
    match Lex(text)
    case None => None
    case Some(ts) => ReadStmt(NumberMarks(ts, 1))
  }
}
