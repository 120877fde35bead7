/** Column names and Go field names: the generator prints `created_at` as `CreatedAt`, the server
    reads it back.  The round trip fails exactly where two capitals run together. */
module Naming {
  import opened Text

  predicate IsAcronym(word: string) {
    word == "id" || word == "url" || word == "uuid" || word == "api" || word == "ip" || word == "uri"
  }

  function Upper(word: string): (u: string)
    ensures |u| == |word|
  {
    if word == "" then "" else [ToUpper(word[0])] + Upper(word[1..])
  }

  /** One word of a field name. */
  function FieldWord(word: string): string
    requires word != ""
  {
    if IsAcronym(word) then Upper(word) else [ToUpper(word[0])] + word[1..]
  }

  /** The words of a column, run together; empty words vanish. */
  function FieldName(words: seq<string>): string {
    if words == [] then "" else Added(words[0]) + FieldName(words[1..])
  }

  /** What a word adds to a field name. */
  function Added(word: string): string { if word == "" then "" else FieldWord(word) }

  lemma {:induction false} FieldNameAppend(words: seq<string>, word: string)
    ensures FieldName(words + [word]) == FieldName(words) + Added(word)
  {
    hide Added;
    if words == [] {
      assert ([] + [word])[0] == word && ([] + [word])[1..] == [];
      assert Added(word) + "" == Added(word) == "" + Added(word);
    } else {
      FieldNameAppend(words[1..], word);
      assert (words + [word])[0] == words[0] && (words + [word])[1..] == words[1..] + [word];
      Assoc(Added(words[0]), FieldName(words[1..]), Added(word));
    }
  }

  /** What a word of a column becomes: six acronyms are all capitals, any other word has one capital. */
  lemma WordsExactly(word: string)
    requires word != ""
    ensures FieldWord("id") == "ID" && FieldWord("url") == "URL" && FieldWord("uuid") == "UUID"
    ensures FieldWord("api") == "API" && FieldWord("ip") == "IP" && FieldWord("uri") == "URI"
    ensures word !in ["id", "url", "uuid", "api", "ip", "uri"] ==>
      FieldWord(word) == [if 'a' <= word[0] <= 'z' then word[0] - 'a' + 'A' else word[0]] + word[1..]
  {
    SpelledUpper("id", "ID");
    SpelledUpper("url", "URL");
    SpelledUpper("uuid", "UUID");
    SpelledUpper("api", "API");
    SpelledUpper("ip", "IP");
    SpelledUpper("uri", "URI");
  }

  lemma {:induction false} SpelledUpper(word: string, upper: string)
    requires |word| == |upper| && forall i :: 0 <= i < |word| ==> upper[i] == ToUpper(word[i])
    ensures Upper(word) == upper
  {
    if word != "" {
      SpelledUpper(word[1..], upper[1..]);
      FirstAndRest(upper);
    }
  }

  function FieldOfColumn(column: string): string { FieldName(Split(Fold(column), "_")) }

  method ColumnToFieldName(column: string) returns (name: string)
    ensures name == FieldOfColumn(column)
  {
    var words := Split(Fold(column), "_");
    name := "";
    for i := 0 to |words|
      invariant name == FieldName(words[..i])
    {
      FieldNameAppend(words[..i], words[i]);
      assert words[..i + 1] == words[..i] + [words[i]];
      if words[i] == "" { continue; }
      name := name + FieldWord(words[i]);
    }
    assert words[..|words|] == words;
  }

  /******* Reading a field name *******/

  /** Whether an underscore goes before a capital: after a small letter or a digit, or after a
      capital when a small letter follows. */
  predicate Breaks(prev: char, rest: string) {
    IsLower(prev) || IsDigit(prev) || (IsUpper(prev) && |rest| > 1 && IsLower(rest[1]))
  }

  /** What the first character of the rest becomes, given what is before it. */
  function Lowered(before: string, rest: string): string
    requires rest != ""
  {
    if IsUpper(rest[0])
    then (if before != "" && Breaks(before[|before| - 1], rest) then "_" else "") + [ToLower(rest[0])]
    else [rest[0]]
  }

  /** The snake form of the rest of a name, given what is before it. */
  function Snake(before: string, rest: string): string
    decreases |rest|
  {
    if rest == "" then "" else Lowered(before, rest) + Snake(before + [rest[0]], rest[1..])
  }

  method CamelToSnake(s: string) returns (out: string)
    ensures out == Snake("", s)
  {
    if s == "" { return s; }
    out := "";
    for i := 0 to |s|
      invariant out + Snake(s[..i], s[i..]) == Snake("", s)
    {
      assert s[..i + 1] == s[..i] + [s[i]] && s[i..][1..] == s[i + 1..];
      ghost var was := out;
      if IsUpper(s[i]) {
        if i > 0 {
          var prev := s[i - 1];
          var nextIsLower := i + 1 < |s| && IsLower(s[i + 1]);
          if IsLower(prev) || IsDigit(prev) || (IsUpper(prev) && nextIsLower) { out := out + "_"; }
        }
        out := out + [ToLower(s[i])];
      } else {
        out := out + [s[i]];
      }
      StepOut(was, out, s, i);
    }
    assert s[..|s|] == s && out + "" == out;
  }

  lemma StepOut(was: string, out: string, s: string, i: nat)
    requires i < |s| && was + Snake(s[..i], s[i..]) == Snake("", s) && out == was + Lowered(s[..i], s[i..])
    ensures out + Snake(s[..i + 1], s[i + 1..]) == Snake("", s)
  {
    hide Lowered;
    assert s[..i + 1] == s[..i] + [s[i]] && s[i..][1..] == s[i + 1..];
    Assoc(was, Lowered(s[..i], s[i..]), Snake(s[..i + 1], s[i + 1..]));
  }

  /******* The round trip *******/

  /** A small letter, then small letters and digits. */
  predicate IsSegment(word: string) {
    word != "" && IsLower(word[0]) && forall i :: 0 <= i < |word| ==> IsLower(word[i]) || IsDigit(word[i])
  }

  predicate AreSegments(words: seq<string>) { forall i :: 0 <= i < |words| ==> IsSegment(words[i]) }

  /** A word that ends in a capital. */
  predicate EndsCapital(word: string) { IsAcronym(word) || |word| == 1 }

  /** A word whose second character is not a small letter in the field name. */
  predicate StartsCapitals(word: string)
    requires word != ""
  {
    IsAcronym(word) || |word| == 1 || IsDigit(word[1])
  }

  /** No word ending in a capital is followed by one that starts with more than a capital. */
  predicate NoClash(words: seq<string>)
    requires AreSegments(words)
  {
    forall i :: 0 <= i < |words| - 1 ==> !(EndsCapital(words[i]) && StartsCapitals(words[i + 1]))
  }

  /** What reading the field name gives: the words, joined by an underscore or not. */
  function Glued(before: string, words: seq<string>): string
    requires AreSegments(words)
    decreases |words|
  {
    if words == [] then ""
    else
      var under := if before == "" || (EndsCapital(before) && StartsCapitals(words[0])) then "" else "_";
      under + words[0] + Glued(words[0], words[1..])
  }

  /** Nothing, or a capital next: where a word may stop. */
  predicate StopsWord(rest: string) { rest == "" || IsUpper(rest[0]) }

  lemma FieldNameStops(words: seq<string>)
    requires AreSegments(words)
    ensures StopsWord(FieldName(words))
  {
    if words != [] { assert FieldWord(words[0])[0] == ToUpper(words[0][0]) && IsUpper(ToUpper(words[0][0])); }
  }

  lemma {:induction false} SnakeSmall(before: string, tail: string, rest: string)
    requires forall i :: 0 <= i < |tail| ==> IsLower(tail[i]) || IsDigit(tail[i])
    ensures Snake(before, tail + rest) == tail + Snake(before + tail, rest)
    decreases |tail|
  {
    if tail == "" {
      assert tail + rest == rest && before + tail == before;
    } else {
      SnakeSmall(before + [tail[0]], tail[1..], rest);
      assert (tail + rest)[0] == tail[0] && (tail + rest)[1..] == tail[1..] + rest;
      FirstAndRest(tail);
      Assoc(before, [tail[0]], tail[1..]);
      Assoc([tail[0]], tail[1..], Snake(before + tail, rest));
    }
  }

  predicate AllLower(word: string) { forall i :: 0 <= i < |word| ==> IsLower(word[i]) }

  lemma SnakeHead(before: string, c: char, rest: string)
    requires IsUpper(c)
    ensures Snake(before, [c] + rest)
         == (if before != "" && Breaks(before[|before| - 1], [c] + rest) then "_" else "") + [ToLower(c)] +
           Snake(before + [c], rest)
  {
    hide Breaks;
    assert ([c] + rest)[0] == c && ([c] + rest)[1..] == rest;
  }

  lemma CapitalsDoNotBreak(prev: char, tail: string, rest: string)
    requires IsUpper(prev) && tail != "" && AllLower(tail) && StopsWord(rest)
    ensures var u := ToUpper(tail[0]);
      IsUpper(u) && ToLower(u) == tail[0] && !Breaks(prev, [u] + (Upper(tail[1..]) + rest))
  {
    var u, more := ToUpper(tail[0]), Upper(tail[1..]) + rest;
    assert more != "" ==> ([u] + more)[1] == more[0] && !IsLower(more[0]);
  }

  lemma SnakeCapital(before: string, tail: string, rest: string)
    requires before != "" && IsUpper(before[|before| - 1]) && tail != "" && AllLower(tail) && StopsWord(rest)
    requires var u, end := ToUpper(tail[0]), Upper(tail[1..]);
      Snake(before + [u], end + rest) == tail[1..] + Snake(before + [u] + end, rest)
    ensures Snake(before, Upper(tail) + rest) == tail + Snake(before + Upper(tail), rest)
  {
    var u, end := ToUpper(tail[0]), Upper(tail[1..]);
    CapitalsDoNotBreak(before[|before| - 1], tail, rest);
    assert Upper(tail) == [u] + end;
    hide Snake, Breaks, StopsWord, AllLower, ToUpper, ToLower, IsUpper, Upper;
    SnakeHead(before, u, end + rest);
    Assoc([u], end, rest);
    Assoc(before, [u], end);
    FirstAndRest(tail);
    Assoc([tail[0]], tail[1..], Snake(before + Upper(tail), rest));
  }

  lemma {:induction false} SnakeCapitals(before: string, tail: string, rest: string)
    requires before != "" && IsUpper(before[|before| - 1]) && AllLower(tail) && StopsWord(rest)
    ensures Snake(before, Upper(tail) + rest) == tail + Snake(before + Upper(tail), rest)
    decreases |tail|
  {
    if tail == "" {
      assert Upper(tail) + rest == rest && before + Upper(tail) == before;
    } else {
      var u := ToUpper(tail[0]);
      assert IsUpper(u) && AllLower(tail[1..]);
      hide Snake, StopsWord, AllLower, ToUpper, IsUpper, Upper;
      SnakeCapitals(before + [u], tail[1..], rest);
      SnakeCapital(before, tail, rest);
    }
  }

  /** The rest of a word after its first letter. */
  lemma SnakeTail(before: string, word: string, rest: string) returns (tail: string)
    requires IsSegment(word) && StopsWord(rest) && before != "" && IsUpper(before[|before| - 1])
    ensures FieldWord(word) == [ToUpper(word[0])] + tail
    ensures Snake(before, tail + rest) == word[1..] + Snake(before + tail, rest)
  {
    hide Snake;
    if IsAcronym(word) {
      tail := Upper(word[1..]);
      SnakeCapitals(before, word[1..], rest);
    } else {
      tail := word[1..];
      SnakeSmall(before, word[1..], rest);
    }
  }

  /** One word read back, with or without an underscore before it. */
  lemma SnakeWord(before: string, word: string, rest: string)
    requires IsSegment(word) && StopsWord(rest)
    ensures var s := FieldWord(word) + rest;
      Snake(before, s) == (if before != "" && Breaks(before[|before| - 1], s) then "_" else "") + word
                          + Snake(before + FieldWord(word), rest)
  {
    var u := ToUpper(word[0]);
    assert IsUpper(u) && ToLower(u) == word[0];
    hide FieldWord, Snake, Breaks, StopsWord, IsSegment;
    var tail := SnakeTail(before + [u], word, rest);
    Assoc([u], tail, rest);
    SnakeHead(before, u, tail + rest);
    Assoc(before, [u], tail);
    var under := if before != "" && Breaks(before[|before| - 1], FieldWord(word) + rest) then "_" else "";
    FirstAndRest(word);
    Assoc(under, [word[0]], word[1..]);
    Assoc(under + [word[0]], word[1..], Snake(before + FieldWord(word), rest));
  }

  lemma LastOfWord(before: string, word: string)
    requires IsSegment(word)
    ensures var s := before + FieldWord(word);
      s != "" && if EndsCapital(word) then IsUpper(s[|s| - 1]) else IsLower(s[|s| - 1]) || IsDigit(s[|s| - 1])
  {
    var s := before + FieldWord(word);
    assert s[|s| - 1] == FieldWord(word)[|word| - 1];
    if IsAcronym(word) { UpperAt(word, |word| - 1); }
  }

  lemma {:induction false} UpperAt(word: string, i: nat)
    requires i < |word|
    ensures Upper(word)[i] == ToUpper(word[i])
  {
    if i > 0 { UpperAt(word[1..], i - 1); }
  }

  /** A word is set off by an underscore unless capitals run together. */
  lemma BreaksExactly(prev: char, last: string, word: string, rest: string)
    requires IsSegment(word) && StopsWord(rest)
    requires if EndsCapital(last) then IsUpper(prev) else IsLower(prev) || IsDigit(prev)
    ensures Breaks(prev, FieldWord(word) + rest) <==> !(EndsCapital(last) && StartsCapitals(word))
  {
    var s := FieldWord(word) + rest;
    if |word| > 1 {
      assert s[1] == FieldWord(word)[1];
      if IsAcronym(word) { UpperAt(word, 1); }
    } else {
      assert |s| > 1 ==> s[1] == rest[0];
    }
  }

  lemma {:induction false} SnakeOfField(before: string, last: string, words: seq<string>)
    requires AreSegments(words)
    requires last == "" ==> before == ""
    requires last != "" ==>
      (before != "" &&
       var prev := before[|before| - 1];
       if EndsCapital(last) then IsUpper(prev) else IsLower(prev) || IsDigit(prev))
    ensures Snake(before, FieldName(words)) == Glued(last, words)
    decreases |words|
  {
    if words != [] {
      var word, rest := words[0], FieldName(words[1..]);
      FieldNameStops(words[1..]);
      SnakeWord(before, word, rest);
      LastOfWord(before, word);
      if last != "" { BreaksExactly(before[|before| - 1], last, word, rest); }
      SnakeOfField(before + FieldWord(word), word, words[1..]);
    }
  }

  /** The same, with the word before the first. */
  predicate NoClashAfter(last: string, words: seq<string>)
    requires AreSegments(words)
    decreases |words|
  {
    words == [] || (!(EndsCapital(last) && StartsCapitals(words[0])) && NoClashAfter(words[0], words[1..]))
  }

  lemma {:induction false} NoClashFirst(words: seq<string>)
    requires AreSegments(words) && words != []
    ensures NoClash(words) <==> NoClashAfter(words[0], words[1..])
  {
    if |words| > 1 {
      var rest := words[1..];
      NoClashFirst(rest);
      assert NoClash(words) <==> !(EndsCapital(words[0]) && StartsCapitals(words[1])) && NoClash(rest) by {
        if NoClash(words) {
          forall i | 0 <= i < |rest| - 1 ensures !(EndsCapital(rest[i]) && StartsCapitals(rest[i + 1])) {
            assert !(EndsCapital(words[i + 1]) && StartsCapitals(words[i + 2]));
          }
        }
        if NoClash(rest) && !(EndsCapital(words[0]) && StartsCapitals(words[1])) {
          forall i | 0 <= i < |words| - 1 ensures !(EndsCapital(words[i]) && StartsCapitals(words[i + 1])) {
            if i > 0 { assert !(EndsCapital(rest[i - 1]) && StartsCapitals(rest[i])); }
          }
        }
      }
    }
  }

  /** Every clash loses one underscore. */
  lemma {:induction false} GluedExactly(last: string, words: seq<string>)
    requires AreSegments(words) && last != "" && words != []
    ensures if NoClashAfter(last, words) then Glued(last, words) == "_" + Join(words, "_")
            else |Glued(last, words)| <= |Join(words, "_")|
    decreases |words|
  {
    var word, rest := words[0], words[1..];
    var under := if EndsCapital(last) && StartsCapitals(word) then "" else "_";
    hide EndsCapital, StartsCapitals, IsSegment;
    if rest == [] {
      assert Glued(last, words) == under + word + "" == under + word;
      assert NoClashAfter(word, rest);
    } else {
      GluedExactly(word, rest);
      assert Join(words, "_") == word + "_" + Join(rest, "_");
      assert Glued(last, words) == under + word + Glued(word, rest);
      if NoClashAfter(last, words) {
        Around("_", word, "_", Join(rest, "_"));
        Assoc("_", word, "_" + Join(rest, "_"));
        Assoc(word, "_", Join(rest, "_"));
      }
    }
  }

  lemma ColumnWords(words: seq<string>)
    requires AreSegments(words) && words != []
    ensures Fold(Join(words, "_")) == Join(words, "_") && Split(Join(words, "_"), "_") == words
  {
    JoinIsFolded(words);
    forall p | p in words ensures '_' !in p { assert IsSegment(p); }
    SplitJoin(words, '_');
  }

  lemma {:induction false} JoinIsFolded(words: seq<string>)
    requires AreSegments(words)
    ensures Fold(Join(words, "_")) == Join(words, "_")
  {
    if |words| == 1 {
      assert IsSegment(words[0]);
    } else if words != [] {
      assert IsSegment(words[0]);
      JoinIsFolded(words[1..]);
      FoldConcat(words[0] + "_", Join(words[1..], "_"));
      FoldConcat(words[0], "_");
    }
  }

  lemma GluedWhole(words: seq<string>)
    requires AreSegments(words) && words != []
    ensures Glued("", words) == Join(words, "_") <==> NoClash(words)
  {
    var column, word, rest := Join(words, "_"), words[0], words[1..];
    assert IsSegment(word) && AreSegments(rest) && (rest == [] ==> NoClashAfter(word, rest));
    hide IsSegment, EndsCapital, StartsCapitals, NoClash, NoClashAfter;
    NoClashFirst(words);
    if rest == [] {
      assert Glued("", words) == "" + word + "";
    } else {
      GluedExactly(word, rest);
      assert Glued("", words) == "" + word + Glued(word, rest);
      Assoc(word, "_", Join(rest, "_"));
    }
  }

  /** On columns of small-letter segments joined by single underscores, the field name reads back
      as the column exactly when no two capitals run together at a seam. */
  lemma RoundTripExactly(words: seq<string>)
    requires AreSegments(words) && words != []
    ensures var column := Join(words, "_"); Snake("", FieldOfColumn(column)) == column <==> NoClash(words)
  {
    hide Snake, FieldName, IsSegment, Fold, Split, NoClash, Glued, Join;
    ColumnWords(words);
    SnakeOfField("", "", words);
    GluedWhole(words);
  }

  /** On the columns that round trip, no two share a field name. */
  lemma FieldNamesDiffer(a: seq<string>, b: seq<string>)
    requires AreSegments(a) && a != [] && NoClash(a) && AreSegments(b) && b != [] && NoClash(b)
    requires FieldOfColumn(Join(a, "_")) == FieldOfColumn(Join(b, "_"))
    ensures a == b
  {
    RoundTripExactly(a);
    RoundTripExactly(b);
    ColumnWords(a);
    ColumnWords(b);
  }

  /******* When two columns share a field name *******/

  /** A word's letters, each a word of its own. */
  function Letters(word: string): seq<string> { seq(|word|, i requires 0 <= i < |word| => [word[i]]) }

  /** The words with every acronym spelled out. */
  function Spelled(words: seq<string>): seq<string> {
    if words == [] then [] else SpelledWord(words[0]) + Spelled(words[1..])
  }

  function SpelledWord(word: string): seq<string> { if IsAcronym(word) then Letters(word) else [word] }

  /** Words run together with a capital each, acronyms like any other. */
  function Capitalised(words: seq<string>): string
    requires AreSegments(words)
  {
    if words == [] then "" else [ToUpper(words[0][0])] + words[0][1..] + Capitalised(words[1..])
  }

  lemma {:induction false} CapitalisedConcat(a: seq<string>, b: seq<string>)
    requires AreSegments(a) && AreSegments(b)
    ensures AreSegments(a + b) && Capitalised(a + b) == Capitalised(a) + Capitalised(b)
  {
    if a == [] {
      assert a + b == b;
    } else {
      CapitalisedConcat(a[1..], b);
      assert (a + b)[0] == a[0] && (a + b)[1..] == a[1..] + b;
      Assoc([ToUpper(a[0][0])] + a[0][1..], Capitalised(a[1..]), Capitalised(b));
    }
  }

  lemma {:induction false} LettersCapitalised(word: string)
    requires AllLower(word)
    ensures AreSegments(Letters(word)) && Capitalised(Letters(word)) == Upper(word)
  {
    if word != "" {
      LettersCapitalised(word[1..]);
      assert Letters(word)[1..] == Letters(word[1..]);
      assert Letters(word)[0][1..] == "";
    }
  }

  lemma AcronymLower(word: string)
    requires IsAcronym(word)
    ensures AllLower(word)
  {}

  /** A field name is its column's words with the acronyms spelled out, each capitalised. */
  lemma {:induction false} FieldNameSpelled(words: seq<string>)
    requires AreSegments(words)
    ensures AreSegments(Spelled(words)) && FieldName(words) == Capitalised(Spelled(words))
  {
    if words != [] {
      var word := words[0];
      assert IsSegment(word);
      hide IsAcronym, IsSegment, Upper;
      FieldNameSpelled(words[1..]);
      if IsAcronym(word) {
        AcronymLower(word);
        LettersCapitalised(word);
        CapitalisedConcat(Letters(word), Spelled(words[1..]));
      } else {
        CapitalisedConcat([word], Spelled(words[1..]));
        assert [word][1..] == [];
      }
    }
  }

  /** The first word of a capitalised name ends where the next capital starts. */
  lemma FirstWordSame(a: string, b: string, rest: string, other: string)
    requires IsSegment(a) && IsSegment(b) && StopsWord(rest) && StopsWord(other)
    requires [ToUpper(a[0])] + a[1..] + rest == [ToUpper(b[0])] + b[1..] + other
    ensures a == b && rest == other
  {
    var s, t := [ToUpper(a[0])] + a[1..] + rest, [ToUpper(b[0])] + b[1..] + other;
    assert s[0] == ToUpper(a[0]) && t[0] == ToUpper(b[0]);
    assert forall i :: 1 <= i < |a| ==> s[i] == a[i];
    assert forall i :: 1 <= i < |b| ==> t[i] == b[i];
    assert |a| < |s| ==> s[|a|] == rest[0];
    assert |b| < |t| ==> t[|b|] == other[0];
    assert |a| == |b|;
    assert rest == s[|a|..] && other == t[|b|..];
  }

  lemma CapitalisedStops(words: seq<string>)
    requires AreSegments(words)
    ensures StopsWord(Capitalised(words)) && (words != [] ==> Capitalised(words) != "")
  {
    if words != [] { assert IsSegment(words[0]); }
  }

  /** Capitals say where the words are. */
  lemma {:induction false} CapitalisedInjective(a: seq<string>, b: seq<string>)
    requires AreSegments(a) && AreSegments(b) && Capitalised(a) == Capitalised(b)
    ensures a == b
  {
    CapitalisedStops(a);
    CapitalisedStops(b);
    if a != [] && b != [] {
      assert IsSegment(a[0]) && IsSegment(b[0]) && AreSegments(a[1..]) && AreSegments(b[1..]);
      CapitalisedStops(a[1..]);
      CapitalisedStops(b[1..]);
      hide IsSegment, StopsWord;
      FirstWordSame(a[0], b[0], Capitalised(a[1..]), Capitalised(b[1..]));
      CapitalisedInjective(a[1..], b[1..]);
    }
  }

  /** Two columns of small-letter segments share a field name exactly when they have the same words
      once every acronym is spelled out in one-letter words. */
  lemma FieldNamesExactly(a: seq<string>, b: seq<string>)
    requires AreSegments(a) && a != [] && AreSegments(b) && b != []
    ensures FieldOfColumn(Join(a, "_")) == FieldOfColumn(Join(b, "_")) <==> Spelled(a) == Spelled(b)
  {
    ColumnWords(a);
    ColumnWords(b);
    FieldNameSpelled(a);
    FieldNameSpelled(b);
    if Capitalised(Spelled(a)) == Capitalised(Spelled(b)) { CapitalisedInjective(Spelled(a), Spelled(b)); }
  }

  lemma {:induction false} SpelledConcat(a: seq<string>, b: seq<string>)
    ensures Spelled(a + b) == Spelled(a) + Spelled(b)
  {
    hide SpelledWord;
    if a == [] {
      assert a + b == b;
    } else {
      SpelledConcat(a[1..], b);
      assert (a + b)[0] == a[0] && (a + b)[1..] == a[1..] + b;
      assert Spelled(a + b) == SpelledWord(a[0]) + (Spelled(a[1..]) + Spelled(b));
    }
  }

  lemma {:induction false} ShortWordsStay(words: seq<string>)
    requires forall i :: 0 <= i < |words| ==> |words[i]| == 1
    ensures Spelled(words) == words
  {
    if words != [] {
      ShortWordsStay(words[1..]);
      assert [words[0]] + words[1..] == words;
    }
  }

  /** So every acronym collides with its letters, wherever it stands: `user_id` with `user_i_d`. */
  lemma FieldNamesCollide(before: seq<string>, acronym: string, after: seq<string>)
    requires AreSegments(before) && AreSegments(after) && IsAcronym(acronym)
    ensures var a, b := before + [acronym] + after, before + Letters(acronym) + after;
      AreSegments(a) && AreSegments(b) && Join(a, "_") != Join(b, "_")
      && FieldOfColumn(Join(a, "_")) == FieldOfColumn(Join(b, "_"))
  {
    var a, b, letters := before + [acronym] + after, before + Letters(acronym) + after, Letters(acronym);
    AcronymLower(acronym);
    LettersCapitalised(acronym);
    assert AreSegments([acronym]) && |letters| > 1;
    assert Spelled([acronym]) == letters + [] == letters;
    hide IsAcronym, IsSegment, Letters, Join, Spelled;
    SpelledConcat(before, [acronym]);
    SpelledConcat(before + [acronym], after);
    SpelledConcat(before, letters);
    SpelledConcat(before + letters, after);
    ShortWordsStay(letters);
    FieldNamesExactly(a, b);
    ColumnWords(a);
    ColumnWords(b);
    assert |a| != |b|;
  }
}
