/** LIKE patterns and quoted regular expressions: general matchers, and the exact conditions
    under which the patterns built from a filter value mean substring, prefix and suffix. */
module Patterns {
  import opened Wrappers
  import opened Text

  /** SQL LIKE: `%` any run, `_` any character, backslash quotes the next character.
      A pattern ending in a lone backslash matches nothing. */
  predicate LikeMatch(p: string, t: string)
    decreases |p| + |t|
  {
    if p == "" then t == ""
    else if p[0] == '%' then LikeMatch(p[1..], t) || (t != "" && LikeMatch(p, t[1..]))
    else if p[0] == '_' then t != "" && LikeMatch(p[1..], t[1..])
    else if p[0] == '\\' then |p| > 1 && t != "" && t[0] == p[1] && LikeMatch(p[2..], t[1..])
    else t != "" && t[0] == p[0] && LikeMatch(p[1..], t[1..])
  }

  predicate IsMeta(c: char) { c == '%' || c == '_' || c == '\\' }

  predicate MetaFree(v: string) { forall i :: 0 <= i < |v| ==> !IsMeta(v[i]) }

  /******* What the built patterns match *******/

  /** A leading `%` skips any prefix. */
  lemma {:induction false} LikePercent(p: string, t: string)
    ensures LikeMatch("%" + p, t) <==> exists i :: 0 <= i <= |t| && LikeMatch(p, t[i..])
    decreases |t|
  {
    assert ("%" + p)[1..] == p && t[0..] == t;
    if t != "" {
      LikePercent(p, t[1..]);
      if i :| 0 <= i <= |t| && LikeMatch(p, t[i..]) {
        if i > 0 { assert t[1..][i - 1..] == t[i..]; }
      }
      if i :| 0 <= i <= |t[1..]| && LikeMatch(p, t[1..][i..]) {
        assert t[1..][i..] == t[i + 1..];
      }
    }
  }

  /** A literal run in front of a pattern must be matched as it stands. */
  lemma {:induction false} LikeLiteral(v: string, p: string, t: string)
    requires MetaFree(v)
    ensures LikeMatch(v + p, t) <==> v <= t && LikeMatch(p, t[|v|..])
    decreases |v|
  {
    if v == "" {
      assert v + p == p && t[0..] == t;
    } else {
      assert (v + p)[0] == v[0] && (v + p)[1..] == v[1..] + p;
      if t != "" {
        LikeLiteral(v[1..], p, t[1..]);
        assert v <= t <==> v[0] == t[0] && v[1..] <= t[1..];
        if v <= t { assert t[1..][|v[1..]|..] == t[|v|..]; }
      }
    }
  }

  lemma {:induction false} LikeAnything(t: string)
    ensures LikeMatch("%", t)
    decreases |t|
  {
    assert "%"[1..] == "";
    if t != "" { LikeAnything(t[1..]); }
  }

  lemma LikeExact(v: string, t: string)
    requires MetaFree(v)
    ensures LikeMatch(v, t) <==> t == v
  {
    LikeLiteral(v, "", t);
    assert v + "" == v;
  }

  lemma LikeStarts(v: string, t: string)
    requires MetaFree(v)
    ensures LikeMatch(v + "%", t) <==> HasPrefix(t, v)
  {
    LikeLiteral(v, "%", t);
    if v <= t { LikeAnything(t[|v|..]); }
  }

  lemma LikeContains(v: string, t: string)
    requires MetaFree(v)
    ensures LikeMatch("%" + v + "%", t) <==> Contains(t, v)
  {
    assert "%" + v + "%" == "%" + (v + "%");
    LikePercent(v + "%", t);
    forall i | 0 <= i <= |t| ensures LikeMatch(v + "%", t[i..]) <==> OccursAt(t, v, i) {
      LikeStarts(v, t[i..]);
      if v <= t[i..] { assert t[i..][..|v|] == t[i..i + |v|]; }
      if OccursAt(t, v, i) { assert t[i..][..|v|] == t[i..i + |v|]; }
    }
    if Contains(t, v) {
      var i :| OccursAt(t, v, i);
      assert LikeMatch(v + "%", t[i..]);
    }
  }

  lemma LikeEnds(v: string, t: string)
    requires MetaFree(v)
    ensures LikeMatch("%" + v, t) <==> HasSuffix(t, v)
  {
    LikePercent(v, t);
    forall i | 0 <= i <= |t| ensures LikeMatch(v, t[i..]) <==> t[i..] == v {
      LikeExact(v, t[i..]);
    }
    if HasSuffix(t, v) { assert LikeMatch(v, t[|t| - |v|..]); }
  }

  /******* And nothing but metacharacter-free values will do *******/

  /** A text the pattern of v matches without containing v, when v has a metacharacter. */
  function Decoy(v: string): (d: string)
    ensures |d| <= |v|
    ensures !MetaFree(v) ==> |d| < |v| || d != v
  {
    if v == "" then ""
    else if v[0] == '%' || v[0] == '_' then "x" + Decoy(v[1..])
    else if v[0] == '\\' then if |v| == 1 then "%" else [v[1]] + Decoy(v[2..])
    else
      assert !MetaFree(v) ==> !MetaFree(v[1..]);
      var d := Decoy(v[1..]);
      assert ([v[0]] + d)[1..] == d;
      [v[0]] + d
  }

  predicate LoneBackslash(v: string) {
    v != "" && if v[0] == '\\' then |v| == 1 || LoneBackslash(v[2..]) else LoneBackslash(v[1..])
  }

  lemma {:induction false} DecoyMatches(v: string)
    ensures LikeMatch(v + "%", Decoy(v))
    decreases |v|
  {
    var d := Decoy(v);
    if v == "" {
      LikeAnything("");
    } else if v == "\\" {
      assert v + "%" == "\\%" && (v + "%")[2..] == "" && d[1..] == "";
    } else if v[0] == '\\' {
      DecoyMatches(v[2..]);
      assert (v + "%")[2..] == v[2..] + "%" && d[1..] == Decoy(v[2..]);
    } else {
      DecoyMatches(v[1..]);
      assert (v + "%")[1..] == v[1..] + "%" && d[1..] == Decoy(v[1..]);
      if v[0] == '%' { assert LikeMatch(v + "%", d[1..]); }
    }
  }

  lemma {:induction false} DecoyMatchesWhole(v: string)
    requires !LoneBackslash(v)
    ensures LikeMatch(v, Decoy(v))
    decreases |v|
  {
    var d := Decoy(v);
    if v != "" && v[0] == '\\' {
      DecoyMatchesWhole(v[2..]);
      assert d[1..] == Decoy(v[2..]);
    } else if v != "" {
      DecoyMatchesWhole(v[1..]);
      assert d[1..] == Decoy(v[1..]);
      if v[0] == '%' { assert LikeMatch(v, d[1..]); }
    }
  }

  lemma {:induction false} LoneBackslashMatchesNothing(v: string, t: string)
    requires LoneBackslash(v)
    ensures !LikeMatch(v, t)
    decreases |v| + |t|
  {
    if v[0] == '%' {
      LoneBackslashMatchesNothing(v[1..], t);
      if t != "" { LoneBackslashMatchesNothing(v, t[1..]); }
    } else if t != "" && v[0] == '\\' {
      if |v| > 1 { LoneBackslashMatchesNothing(v[2..], t[1..]); }
    } else if t != "" {
      LoneBackslashMatchesNothing(v[1..], t[1..]);
    }
  }

  /** `contains` means substring on every text exactly when the value has no metacharacter. */
  lemma ContainsExactlyWhenMetaFree(v: string)
    ensures (forall t :: LikeMatch("%" + v + "%", t) <==> Contains(t, v)) <==> MetaFree(v)
  {
    if MetaFree(v) {
      forall t ensures LikeMatch("%" + v + "%", t) <==> Contains(t, v) { LikeContains(v, t); }
    } else {
      var d := Decoy(v);
      DecoyMatches(v);
      assert "%" + v + "%" == "%" + (v + "%") && d[0..] == d;
      LikePercent(v + "%", d);
      assert LikeMatch("%" + v + "%", d);
      assert !OccursAt(d, v, 0);
    }
  }

  lemma StartsExactlyWhenMetaFree(v: string)
    ensures (forall t :: LikeMatch(v + "%", t) <==> HasPrefix(t, v)) <==> MetaFree(v)
  {
    if MetaFree(v) {
      forall t ensures LikeMatch(v + "%", t) <==> HasPrefix(t, v) { LikeStarts(v, t); }
    } else {
      DecoyMatches(v);
      assert LikeMatch(v + "%", Decoy(v)) && !HasPrefix(Decoy(v), v);
    }
  }

  lemma EndsExactlyWhenMetaFree(v: string)
    ensures (forall t :: LikeMatch("%" + v, t) <==> HasSuffix(t, v)) <==> MetaFree(v)
  {
    if MetaFree(v) {
      forall t ensures LikeMatch("%" + v, t) <==> HasSuffix(t, v) { LikeEnds(v, t); }
    } else if LoneBackslash(v) {
      LoneBackslashMatchesNothing("%" + v, v);
      assert HasSuffix(v, v) && !LikeMatch("%" + v, v);
    } else {
      var d := Decoy(v);
      DecoyMatchesWhole(v);
      LikePercent(v, d);
      assert d[0..] == d;
      assert LikeMatch("%" + v, d) && !HasSuffix(d, v);
    }
  }

  lemma {:induction false} FoldKeepsMeta(v: string)
    ensures MetaFree(Fold(v)) <==> MetaFree(v)
  {
    assert forall i :: 0 <= i < |v| ==> (IsMeta(Fold(v)[i]) <==> IsMeta(v[i]));
  }

  /******* Regular expressions *******/

  predicate IsRegexMeta(c: char) {
    c == '\\' || c == '.' || c == '+' || c == '*' || c == '?' || c == '(' || c == ')' || c == '|'
    || c == '[' || c == ']' || c == '{' || c == '}' || c == '^' || c == '$'
  }

  function Quoted(c: char): string { if IsRegexMeta(c) then ['\\', c] else [c] }

  /** Every metacharacter behind a backslash. */
  function QuoteMeta(s: string): string {
    if s == "" then "" else Quoted(s[0]) + QuoteMeta(s[1..])
  }

  datatype Atom = Start | End | Literal(c: char)

  /** Reads the fragment of regular expressions made of literals, quoted literals and anchors;
      any other metacharacter is outside the fragment. */
  function ReadRegex(r: string): Option<seq<Atom>> {
    if r == "" then Some([])
    else if r[0] == '\\' then
      if |r| == 1 then None
      else match ReadRegex(r[2..]) case None => None case Some(atoms) => Some([Literal(r[1])] + atoms)
    else
      match ReadRegex(r[1..])
      case None => None
      case Some(atoms) =>
        if r[0] == '^' then Some([Start] + atoms)
        else if r[0] == '$' then Some([End] + atoms)
        else if IsRegexMeta(r[0]) then None
        else Some([Literal(r[0])] + atoms)
  }

  /** The atoms match t from position i on.  `$` holds at the end and before a final newline. */
  predicate MatchHere(atoms: seq<Atom>, t: string, i: nat)
    requires i <= |t|
    decreases |atoms|
  {
    if atoms == [] then true
    else
      match atoms[0]
      case Start => i == 0 && MatchHere(atoms[1..], t, i)
      case End => (i == |t| || (i + 1 == |t| && t[i] == '\n')) && MatchHere(atoms[1..], t, i)
      case Literal(c) => i < |t| && t[i] == c && MatchHere(atoms[1..], t, i + 1)
  }

  /** An unanchored search, as `$regex` does. */
  ghost predicate RegexMatch(r: string, t: string) {
    var atoms := ReadRegex(r);
    atoms.Some? && exists i :: 0 <= i <= |t| && MatchHere(atoms.value, t, i)
  }

  function Literals(s: string): seq<Atom> {
    if s == "" then [] else [Literal(s[0])] + Literals(s[1..])
  }

  lemma QuotedHead(c: char, r: string)
    requires ReadRegex(r).Some?
    ensures ReadRegex(Quoted(c) + r) == Some([Literal(c)] + ReadRegex(r).value)
  {
    assert (Quoted(c) + r)[|Quoted(c)|..] == r;
  }

  /** Quoting makes every value read as itself, in front of any readable rest. */
  lemma {:induction false} QuotedReads(v: string, r: string)
    requires ReadRegex(r).Some?
    ensures ReadRegex(QuoteMeta(v) + r) == Some(Literals(v) + ReadRegex(r).value)
    decreases |v|
  {
    if v == "" {
      assert QuoteMeta(v) + r == r;
      assert Literals(v) + ReadRegex(r).value == ReadRegex(r).value;
    } else {
      hide ReadRegex, Quoted;
      QuotedReads(v[1..], r);
      QuotedHead(v[0], QuoteMeta(v[1..]) + r);
      Assoc(Quoted(v[0]), QuoteMeta(v[1..]), r);
      Assoc([Literal(v[0])], Literals(v[1..]), ReadRegex(r).value);
    }
  }

  lemma OccursStep(t: string, v: string, i: nat)
    requires v != "" && i < |t|
    ensures OccursAt(t, v, i) <==> t[i] == v[0] && OccursAt(t, v[1..], i + 1)
  {
    if OccursAt(t, v[1..], i + 1) && t[i] == v[0] {
      assert t[i..i + |v|] == [t[i]] + t[i + 1..i + 1 + |v[1..]|];
    }
    if OccursAt(t, v, i) {
      assert t[i + 1..i + 1 + |v[1..]|] == t[i..i + |v|][1..];
      assert t[i] == t[i..i + |v|][0];
    }
  }

  lemma {:induction false} MatchLiterals(v: string, rest: seq<Atom>, t: string, i: nat)
    requires i <= |t|
    ensures MatchHere(Literals(v) + rest, t, i) <==> OccursAt(t, v, i) && MatchHere(rest, t, i + |v|)
    decreases |v|
  {
    if v == "" {
      assert Literals(v) + rest == rest && t[i..i] == "";
    } else {
      assert (Literals(v) + rest)[1..] == Literals(v[1..]) + rest;
      if i < |t| {
        MatchLiterals(v[1..], rest, t, i + 1);
        OccursStep(t, v, i);
      }
    }
  }

  /** The quoted regex of `contains` finds exactly the substrings, for every value. */
  lemma RegexContains(v: string, t: string)
    ensures RegexMatch(QuoteMeta(v), t) <==> Contains(t, v)
  {
    QuotedReads(v, "");
    assert QuoteMeta(v) + "" == QuoteMeta(v);
    forall i | 0 <= i <= |t| ensures MatchHere(Literals(v) + [], t, i) <==> OccursAt(t, v, i) {
      MatchLiterals(v, [], t, i);
    }
    if Contains(t, v) {
      var i :| OccursAt(t, v, i);
      assert MatchHere(Literals(v) + [], t, i);
    }
  }

  lemma RegexStarts(v: string, t: string)
    ensures RegexMatch("^" + QuoteMeta(v), t) <==> HasPrefix(t, v)
  {
    QuotedReads(v, "");
    assert QuoteMeta(v) + "" == QuoteMeta(v);
    assert ("^" + QuoteMeta(v))[1..] == QuoteMeta(v);
    var atoms := [Start] + (Literals(v) + []);
    assert ReadRegex("^" + QuoteMeta(v)) == Some(atoms);
    assert atoms[1..] == Literals(v) + [];
    MatchLiterals(v, [], t, 0);
    assert OccursAt(t, v, 0) <==> v <= t;
    assert MatchHere(atoms, t, 0) <==> v <= t;
  }

  lemma EndAtoms(v: string)
    ensures ReadRegex(QuoteMeta(v) + "$") == Some(Literals(v) + [End])
  {
    assert "$"[1..] == "";
    assert ReadRegex("") == Some([]);
    assert [End] + [] == [End];
    assert ReadRegex("$") == Some([End]);
    QuotedReads(v, "$");
  }

  lemma MatchEnd(v: string, t: string, i: nat)
    requires i <= |t|
    ensures MatchHere(Literals(v) + [End], t, i) <==>
      OccursAt(t, v, i) && (i + |v| == |t| || (i + |v| + 1 == |t| && t[i + |v|] == '\n'))
  {
    MatchLiterals(v, [End], t, i);
    if OccursAt(t, v, i) { assert MatchHere([End][1..], t, i + |v|); }
  }

  /** `ends_with` also accepts the value just before a final newline, and nothing else. */
  lemma RegexEnds(v: string, t: string)
    ensures RegexMatch(QuoteMeta(v) + "$", t)
       <==> HasSuffix(t, v) || (t != "" && t[|t| - 1] == '\n' && HasSuffix(t[..|t| - 1], v))
  {
    EndAtoms(v);
    hide ReadRegex, MatchHere, Literals, QuoteMeta;
    if HasSuffix(t, v) { MatchEnd(v, t, |t| - |v|); }
    if t != "" && t[|t| - 1] == '\n' && HasSuffix(t[..|t| - 1], v) {
      var i := |t| - 1 - |v|;
      assert t[..|t| - 1][i..] == t[i..i + |v|];
      MatchEnd(v, t, i);
    }
    if i :| 0 <= i <= |t| && MatchHere(Literals(v) + [End], t, i) {
      MatchEnd(v, t, i);
      if i + |v| != |t| { assert t[..|t| - 1][i..] == t[i..i + |v|]; }
    }
  }
}
