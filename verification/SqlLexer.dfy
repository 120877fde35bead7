/** A lexer for the SQL text the stores emit: quoted names (with the doubled-quote escape),
    keywords, `$n` and `?` placeholders, numbers and symbols.  The one law that matters is
    LexConcat: text whose seam cannot fuse two tokens lexes piece by piece. */
module SqlLexer {
  import opened Wrappers
  import opened Text

  datatype Token =
    | Name(name: string)
    | Word(word: string)
    | Param(index: nat)
    | Mark
    | Number(value: nat)
    | Sym(sym: string)

  /******* Quoting *******/

  /** Every occurrence of the quote character, doubled. */
  function Doubled(q: char, s: string): string {
    if s == "" then "" else (if s[0] == q then [q, q] else [s[0]]) + Doubled(q, s[1..])
  }

  function Quoted(q: char, s: string): string { [q] + Doubled(q, s) + [q] }

  lemma {:induction false} DoubledClean(q: char, s: string)
    requires forall i :: 0 <= i < |s| ==> s[i] != q
    ensures Doubled(q, s) == s
  {
    if s != "" { DoubledClean(q, s[1..]); }
  }

  /** Reads a quoted name after its opening quote: the name, and the characters consumed. */
  function Unquote(q: char, s: string): (r: Option<(string, nat)>)
    ensures r.Some? ==> 1 <= r.value.1 <= |s| && s[r.value.1 - 1] == q
  {
    if s == "" then None
    else if s[0] == q && |s| > 1 && s[1] == q then
      match Unquote(q, s[2..])
      case None => None
      case Some((name, n)) => Some(([q] + name, n + 2))
    else if s[0] == q then Some(("", 1))
    else
      match Unquote(q, s[1..])
      case None => None
      case Some((name, n)) => Some(([s[0]] + name, n + 1))
  }

  /** Quoting is undone by reading, whatever characters the name holds. */
  lemma UnquoteStep(q: char, c: char, tail: string, name: string, n: nat)
    requires Unquote(q, tail) == Some((name, n))
    ensures Unquote(q, (if c == q then [q, q] else [c]) + tail) == Some(([c] + name, n + if c == q then 2 else 1))
  {
    var head := if c == q then [q, q] else [c];
    assert (head + tail)[|head|..] == tail;
  }

  lemma {:induction false} UnquoteDoubled(q: char, name: string, b: string)
    requires b == "" || b[0] != q
    ensures Unquote(q, Doubled(q, name) + [q] + b) == Some((name, |Doubled(q, name)| + 1))
  {
    if name == "" {
      UnquoteEnd(q, b);
    } else {
      UnquoteDoubled(q, name[1..], b);
      var head, more := if name[0] == q then [q, q] else [name[0]], Doubled(q, name[1..]);
      UnquoteStep(q, name[0], more + [q] + b, name[1..], |more| + 1);
      Around(head, more, [q], b);
      Assoc(more, [q], b);
      FirstAndRest(name);
    }
  }

  lemma UnquoteEnd(q: char, b: string)
    requires b == "" || b[0] != q
    ensures Unquote(q, [] + [q] + b) == Some(("", 1))
  {
    assert [] + [q] + b == [q] + b;
  }

  lemma {:induction false} UnquoteExtends(q: char, a: string, b: string)
    requires Unquote(q, a).Some?
    requires Unquote(q, a).value.1 < |a| || b == "" || b[0] != q
    ensures Unquote(q, a + b) == Unquote(q, a)
  {
    if a[0] == q && |a| > 1 && a[1] == q {
      assert (a + b)[2..] == a[2..] + b;
      UnquoteExtends(q, a[2..], b);
    } else if a[0] != q {
      assert (a + b)[1..] == a[1..] + b;
      UnquoteExtends(q, a[1..], b);
    }
  }

  /******* Lexing *******/

  predicate IsWordChar(c: char) { IsLower(c) || IsUpper(c) || c == '_' }

  function WordLength(s: string): (n: nat)
    ensures n <= |s| && forall i :: 0 <= i < n ==> IsWordChar(s[i])
    ensures n < |s| ==> !IsWordChar(s[n])
  {
    if s == "" || !IsWordChar(s[0]) then 0 else 1 + WordLength(s[1..])
  }

  function DigitLength(s: string): (n: nat)
    ensures n <= |s| && AllDigits(s[..n])
    ensures n < |s| ==> !IsDigit(s[n])
  {
    if s == "" || !IsDigit(s[0]) then 0 else 1 + DigitLength(s[1..])
  }

  /** The two-character symbols `>=`, `<=` and `::`. */
  predicate IsPair(c: char, d: char) { ((c == '>' || c == '<') && d == '=') || (c == ':' && d == ':') }

  predicate IsSymbol(c: char) {
    c == '(' || c == ')' || c == ',' || c == '=' || c == '>' || c == '<' || c == '*'
  }

  function NextToken(s: string): (r: Option<(Token, nat)>)
    requires s != ""
    ensures r.Some? ==> 1 <= r.value.1 <= |s|
  {
    var c := s[0];
    if c == '"' || c == '`' then
      match Unquote(c, s[1..])
      case None => None
      case Some((name, n)) => Some((Name(name), n + 1))
    else if IsWordChar(c) then Some((Word(s[..WordLength(s)]), WordLength(s)))
    else if IsDigit(c) then Some((Number(DecimalValue(s[..DigitLength(s)])), DigitLength(s)))
    else if c == '$' then
      var n := DigitLength(s[1..]);
      if n == 0 then None else Some((Param(DecimalValue(s[1..][..n])), n + 1))
    else if c == '?' then Some((Mark, 1))
    else if |s| > 1 && IsPair(c, s[1]) then Some((Sym([c, s[1]]), 2))
    else if IsSymbol(c) then Some((Sym([c]), 1))
    else None
  }

  function Lex(s: string): Option<seq<Token>>
    decreases |s|
  {
    if s == "" then Some([])
    else if s[0] == ' ' then Lex(s[1..])
    else
      match NextToken(s)
      case None => None
      case Some((t, n)) =>
        match Lex(s[n..])
        case None => None
        case Some(ts) => Some([t] + ts)
  }

  predicate Opens(c: char) { c == ' ' || c == '(' || c == ',' || c == ':' }

  predicate Closes(c: char) { c == ' ' || c == '(' || c == ')' || c == ',' || c == ':' }

  /** The seam between a and b cannot fuse the last token of a with the first of b. */
  predicate Seam(a: string, b: string) {
    a == "" || b == "" || Opens(a[|a| - 1]) || Closes(b[0])
  }

  lemma WordLengthExtends(a: string, b: string)
    requires WordLength(a) < |a| || b == "" || !IsWordChar(b[0])
    ensures WordLength(a + b) == WordLength(a)
  {
    var n := WordLength(a);
    assert forall i :: 0 <= i < |a| ==> (a + b)[i] == a[i];
    WordLengthIs(a + b, n);
  }

  lemma {:induction false} WordLengthIs(s: string, n: nat)
    requires n <= |s| && forall i :: 0 <= i < n ==> IsWordChar(s[i])
    requires n < |s| ==> !IsWordChar(s[n])
    ensures WordLength(s) == n
  {
    if n > 0 { WordLengthIs(s[1..], n - 1); }
  }

  lemma {:induction false} DigitLengthIs(s: string, n: nat)
    requires n <= |s| && forall i :: 0 <= i < n ==> IsDigit(s[i])
    requires n < |s| ==> !IsDigit(s[n])
    ensures DigitLength(s) == n
  {
    if n > 0 { DigitLengthIs(s[1..], n - 1); }
  }

  lemma DigitLengthExtends(a: string, b: string)
    requires DigitLength(a) < |a| || b == "" || !IsDigit(b[0])
    ensures DigitLength(a + b) == DigitLength(a)
  {
    var n := DigitLength(a);
    assert forall i :: 0 <= i < n ==> a[i] == a[..n][i];
    DigitLengthIs(a + b, n);
  }

  lemma NextQuotedExtends(a: string, b: string)
    requires a != "" && (a[0] == '"' || a[0] == '`') && NextToken(a).Some? && Seam(a, b)
    ensures NextToken(a + b) == NextToken(a)
  {
    assert (a + b)[1..] == a[1..] + b;
    UnquoteExtends(a[0], a[1..], b);
  }

  lemma NextWordExtends(a: string, b: string)
    requires a != "" && IsWordChar(a[0]) && Seam(a, b)
    ensures NextToken(a + b) == NextToken(a)
  {
    WordLengthExtends(a, b);
    assert (a + b)[..WordLength(a)] == a[..WordLength(a)];
  }

  lemma NextNumberExtends(a: string, b: string)
    requires a != "" && IsDigit(a[0]) && Seam(a, b)
    ensures NextToken(a + b) == NextToken(a)
  {
    DigitLengthExtends(a, b);
    assert (a + b)[..DigitLength(a)] == a[..DigitLength(a)];
  }

  lemma NextParamExtends(a: string, b: string)
    requires a != "" && a[0] == '$' && NextToken(a).Some? && Seam(a, b)
    ensures NextToken(a + b) == NextToken(a)
  {
    assert (a + b)[1..] == a[1..] + b;
    DigitLengthExtends(a[1..], b);
    var n := DigitLength(a[1..]);
    assert (a[1..] + b)[..n] == a[1..][..n];
  }

  lemma NextTokenExtends(a: string, b: string)
    requires a != "" && a[0] != ' ' && NextToken(a).Some? && Seam(a, b)
    ensures NextToken(a + b) == NextToken(a)
  {
    var c := a[0];
    assert (a + b)[0] == c;
    if c == '"' || c == '`' {
      NextQuotedExtends(a, b);
    } else if IsWordChar(c) {
      NextWordExtends(a, b);
    } else if IsDigit(c) {
      NextNumberExtends(a, b);
    } else if c == '$' {
      NextParamExtends(a, b);
    } else if c != '?' {
      assert |a| > 1 ==> (a + b)[1] == a[1];
    }
  }

  /** Text lexes piece by piece across a seam. */
  lemma LexStep(s: string, rest: string, ts: seq<Token>)
    requires s != "" && s[0] != ' ' && NextToken(s).Some? && s[NextToken(s).value.1..] == rest
    ensures Lex(rest) == Some(ts) ==> Lex(s) == Some([NextToken(s).value.0] + ts)
    ensures Lex(s).Some? ==> Lex(rest).Some?
  {}

  lemma {:induction false} LexConcat(a: string, b: string)
    requires Lex(a).Some? && Lex(b).Some? && Seam(a, b)
    ensures Lex(a + b) == Some(Lex(a).value + Lex(b).value)
    decreases |a|
  {
    if a == "" {
      assert a + b == b;
      assert [] + Lex(b).value == Lex(b).value;
    } else if a[0] == ' ' {
      assert (a + b)[1..] == a[1..] + b;
      LexConcat(a[1..], b);
    } else {
      NextTokenExtends(a, b);
      var n := NextToken(a).value.1;
      assert (a + b)[n..] == a[n..] + b;
      var t, u, v := NextToken(a).value.0, Lex(a[n..]).value, Lex(b).value;
      LexStep(a, a[n..], u);
      LexConcat(a[n..], b);
      LexStep(a + b, a[n..] + b, u + v);
      assert [t] + (u + v) == ([t] + u) + v;
    }
  }

  /******* The lexemes the stores are built from *******/

  lemma LexWhole(s: string)
    requires s != "" && s[0] != ' ' && NextToken(s).Some? && NextToken(s).value.1 == |s|
    ensures Lex(s) == Some([NextToken(s).value.0])
  {
    assert s[|s|..] == "" && Lex("") == Some([]);
    assert [NextToken(s).value.0] + [] == [NextToken(s).value.0];
  }

  lemma LexQuoted(q: char, name: string)
    requires q == '"' || q == '`'
    ensures Lex(Quoted(q, name)) == Some([Name(name)])
  {
    var s := Quoted(q, name);
    assert s[1..] == Doubled(q, name) + [q] + "";
    UnquoteDoubled(q, name, "");
    LexWhole(s);
  }

  lemma LexWord(w: string)
    requires w != "" && forall i :: 0 <= i < |w| ==> IsWordChar(w[i])
    ensures Lex(w) == Some([Word(w)])
  {
    WordLengthIs(w, |w|);
    assert w[..|w|] == w;
    LexWhole(w);
  }

  lemma LexParam(n: nat)
    ensures Lex("$" + Decimal(n)) == Some([Param(n)])
  {
    var s := "$" + Decimal(n);
    assert s[1..] == Decimal(n);
    DigitLengthIs(Decimal(n), |Decimal(n)|);
    assert Decimal(n)[..|Decimal(n)|] == Decimal(n);
    DecimalRoundTrip(n);
    LexWhole(s);
  }

  lemma LexSymbol(c: char)
    requires IsSymbol(c)
    ensures Lex([c]) == Some([Sym([c])])
  {
    LexWhole([c]);
  }

  lemma LexPair(c: char, d: char)
    requires IsPair(c, d)
    ensures Lex([c, d]) == Some([Sym([c, d])])
  {
    LexWhole([c, d]);
  }

  lemma LexMark()
    ensures Lex("?") == Some([Mark])
  {
    LexWhole("?");
  }

  /** Spaces around a text are skipped. */
  lemma LexSpaced(s: string)
    requires Lex(s).Some?
    ensures Lex(" " + s) == Lex(s) == Lex(s + " ")
  {
    assert (" " + s)[1..] == s;
    assert " "[1..] == "";
    assert Lex(" ") == Some([]);
    LexConcat(s, " ");
    assert Lex(s).value + [] == Lex(s).value;
  }

  /******* Lexing results, chained *******/

  ghost predicate Lexes(s: string, ts: seq<Token>) { Lex(s) == Some(ts) }

  lemma Chain(a: string, ta: seq<Token>, b: string, tb: seq<Token>)
    requires Lexes(a, ta) && Lexes(b, tb) && Seam(a, b)
    ensures Lexes(a + b, ta + tb)
  {
    LexConcat(a, b);
  }

  /** A keyword with a space on either side. */
  lemma Keyword(w: string)
    requires w != "" && forall i :: 0 <= i < |w| ==> IsWordChar(w[i])
    ensures Lexes(w, [Word(w)]) && Lexes(w + " ", [Word(w)])
    ensures Lexes(" " + w, [Word(w)]) && Lexes(" " + w + " ", [Word(w)])
  {
    LexWord(w);
    LexSpaced(w);
    LexSpaced(" " + w);
  }
}
