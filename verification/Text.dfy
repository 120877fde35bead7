/** The string operations the server relies on (prefixes, cutting, splitting, joining,
    trimming, ASCII folding, decimal numbers), with the inverse laws between them. */
module Text {
  import opened Wrappers

  /******* Sequences *******/

  lemma Assoc<T>(a: seq<T>, b: seq<T>, c: seq<T>)
    ensures a + b + c == a + (b + c)
  {}

  lemma Around<T>(a: seq<T>, b: seq<T>, c: seq<T>, d: seq<T>)
    ensures a + b + c + d == a + (b + (c + d))
  {}

  lemma FirstAndRest<T>(s: seq<T>)
    requires s != []
    ensures s == [s[0]] + s[1..] && (|s| == 1 ==> s == [s[0]])
  {}

  /******* Prefixes, suffixes, substrings *******/

  predicate HasPrefix(s: string, p: string) { p <= s }

  predicate HasSuffix(s: string, p: string) { |p| <= |s| && s[|s| - |p|..] == p }

  function TrimPrefix(s: string, p: string): string { if p <= s then s[|p|..] else s }

  function TrimSuffix(s: string, p: string): string {
    if HasSuffix(s, p) then s[..|s| - |p|] else s
  }

  predicate OccursAt(s: string, sub: string, i: int) { 0 <= i <= |s| - |sub| && s[i..i + |sub|] == sub }

  ghost predicate Contains(s: string, sub: string) { exists i :: OccursAt(s, sub, i) }

  lemma OccursLater(s: string, sep: string)
    requires s != "" && !OccursAt(s, sep, 0)
    ensures forall i :: OccursAt(s, sep, i) ==> i > 0 && OccursAt(s[1..], sep, i - 1)
    ensures forall i :: OccursAt(s[1..], sep, i) ==> OccursAt(s, sep, i + 1)
  {
    forall i | OccursAt(s, sep, i) ensures i > 0 && OccursAt(s[1..], sep, i - 1) {
      assert i > 0;
      assert s[1..][i - 1..i - 1 + |sep|] == s[i..i + |sep|];
    }
    forall i | OccursAt(s[1..], sep, i) ensures OccursAt(s, sep, i + 1) {
      assert s[1..][i..i + |sep|] == s[i + 1..i + 1 + |sep|];
    }
  }

  /** The first occurrence of sep in s. */
  function Find(s: string, sep: string): (r: Option<nat>)
    ensures r.Some? ==> OccursAt(s, sep, r.value) && forall i :: 0 <= i < r.value ==> !OccursAt(s, sep, i)
    ensures r.None? ==> forall i :: !OccursAt(s, sep, i)
  {
    if |s| < |sep| then None
    else if s[..|sep|] == sep then
      assert OccursAt(s, sep, 0);
      Some(0)
    else
      OccursLater(s, sep);
      match Find(s[1..], sep)
      case None => None
      case Some(i) => Some(i + 1)
  }

  lemma FindAt(s: string, sep: string, n: nat)
    requires OccursAt(s, sep, n) && forall i :: 0 <= i < n ==> !OccursAt(s, sep, i)
    ensures Find(s, sep) == Some(n)
  {
    var r := Find(s, sep);
    assert r.Some?;
  }

  datatype CutResult = CutResult(before: string, after: string, found: bool)

  function Cut(s: string, sep: string): CutResult {
    match Find(s, sep)
    case None => CutResult(s, "", false)
    case Some(i) => CutResult(s[..i], s[i + |sep|..], true)
  }

  /******* Splitting and joining *******/

  function Split(s: string, sep: string): (parts: seq<string>)
    requires sep != ""
    ensures |parts| > 0
    decreases |s|
  {
    match Find(s, sep)
    case None => [s]
    case Some(i) => [s[..i]] + Split(s[i + |sep|..], sep)
  }

  function Join(parts: seq<string>, sep: string): string {
    if parts == [] then ""
    else if |parts| == 1 then parts[0]
    else parts[0] + sep + Join(parts[1..], sep)
  }

  lemma JoinCons(p: string, parts: seq<string>, sep: string)
    requires parts != []
    ensures Join([p] + parts, sep) == p + sep + Join(parts, sep)
  {
    assert ([p] + parts)[1..] == parts;
  }

  /** A single-character separator that occurs in no part is undone by Split. */
  lemma {:induction false} SplitJoin(parts: seq<string>, c: char)
    requires parts != [] && forall p :: p in parts ==> c !in p
    ensures Split(Join(parts, [c]), [c]) == parts
  {
    var s := Join(parts, [c]);
    if |parts| == 1 {
      SplitNone(s, c);
    } else {
      var p := parts[0];
      assert s == p + [c] + Join(parts[1..], [c]);
      SplitStep(p, Join(parts[1..], [c]), c);
      SplitJoin(parts[1..], c);
    }
  }

  lemma SplitStep(p: string, rest: string, c: char)
    requires c !in p
    ensures Split(p + [c] + rest, [c]) == [p] + Split(rest, [c])
  {
    var s := p + [c] + rest;
    assert s[|p|..|p| + 1] == [c];
    forall i | 0 <= i < |p| ensures !OccursAt(s, [c], i) {
      assert s[i..i + 1][0] == p[i];
    }
    FindAt(s, [c], |p|);
    assert s[..|p|] == p && s[|p| + 1..] == rest;
  }

  lemma SplitNone(p: string, c: char)
    requires c !in p
    ensures Split(p, [c]) == [p]
  {
    forall i | 0 <= i < |p| ensures !OccursAt(p, [c], i) {
      assert p[i..i + 1][0] == p[i];
    }
  }

  /******* ASCII case and space *******/

  predicate IsLower(c: char) { 'a' <= c <= 'z' }

  predicate IsUpper(c: char) { 'A' <= c <= 'Z' }

  predicate IsDigit(c: char) { '0' <= c <= '9' }

  function ToLower(c: char): char { if IsUpper(c) then c - 'A' + 'a' else c }

  function ToUpper(c: char): char { if IsLower(c) then c - 'a' + 'A' else c }

  function Fold(s: string): (r: string)
    ensures |r| == |s| && forall i :: 0 <= i < |s| ==> r[i] == ToLower(s[i])
  {
    seq(|s|, i requires 0 <= i < |s| => ToLower(s[i]))
  }

  lemma FoldConcat(a: string, b: string)
    ensures Fold(a + b) == Fold(a) + Fold(b)
  {}

  predicate IsSpace(c: char) { c in [' ', '\t', '\n', '\U{0B}', '\U{0C}', '\r'] }

  function TrimLeft(s: string): string { if s != "" && IsSpace(s[0]) then TrimLeft(s[1..]) else s }

  function TrimRight(s: string): string {
    if s != "" && IsSpace(s[|s| - 1]) then TrimRight(s[..|s| - 1]) else s
  }

  function TrimSpace(s: string): string { TrimRight(TrimLeft(s)) }

  lemma {:induction false} TrimLeftCuts(s: string) returns (n: nat)
    ensures n <= |s| && TrimLeft(s) == s[n..] && forall i :: 0 <= i < n ==> IsSpace(s[i])
    ensures n < |s| ==> !IsSpace(s[n])
  {
    n := 0;
    if s != "" && IsSpace(s[0]) {
      n := TrimLeftCuts(s[1..]);
      assert s[1..][n..] == s[n + 1..];
      n := n + 1;
    }
  }

  lemma {:induction false} TrimRightCuts(s: string) returns (n: nat)
    ensures n <= |s| && TrimRight(s) == s[..n] && forall i :: n <= i < |s| ==> IsSpace(s[i])
    ensures n > 0 ==> !IsSpace(s[n - 1])
  {
    n := |s|;
    if s != "" && IsSpace(s[|s| - 1]) {
      var front := s[..|s| - 1];
      n := TrimRightCuts(front);
      assert front[..n] == s[..n];
      assert forall i :: 0 <= i < |front| ==> front[i] == s[i];
    }
  }

  /** Trimming cuts the white space off both ends, and no more. */
  lemma TrimSpaceExactly(s: string) returns (from: nat, to: nat)
    ensures from <= to <= |s| && TrimSpace(s) == s[from..to]
    ensures forall i :: (0 <= i < from || to <= i < |s|) ==>
      s[i] in [' ', '\t', '\n', '\U{0B}', '\U{0C}', '\r']
    ensures from < to ==>
      s[from] !in [' ', '\t', '\n', '\U{0B}', '\U{0C}', '\r']
      && s[to - 1] !in [' ', '\t', '\n', '\U{0B}', '\U{0C}', '\r']
  {
    from := TrimLeftCuts(s);
    var n := TrimRightCuts(s[from..]);
    to := from + n;
  }

  lemma TrimKeeps(s: string)
    requires s != "" && !IsSpace(s[0]) && !IsSpace(s[|s| - 1])
    ensures TrimSpace(s) == s
  {}

  /******* Decimal numbers *******/

  function Digit(d: nat): (c: char)
    requires d < 10
    ensures IsDigit(c) && DigitValue(c) == d
  {
    '0' + d as char
  }

  function DigitValue(c: char): (d: nat)
    requires IsDigit(c)
    ensures d < 10
  {
    (c - '0') as nat
  }

  function Decimal(n: nat): (s: string)
    ensures s != "" && forall i :: 0 <= i < |s| ==> IsDigit(s[i])
  {
    if n < 10 then [Digit(n)] else Decimal(n / 10) + [Digit(n % 10)]
  }

  function DecimalInt(i: int): string { if i < 0 then "-" + Decimal(-i) else Decimal(i) }

  predicate AllDigits(s: string) { forall i :: 0 <= i < |s| ==> IsDigit(s[i]) }

  function DecimalValue(s: string): nat
    requires AllDigits(s)
  {
    if s == "" then 0 else DecimalValue(s[..|s| - 1]) * 10 + DigitValue(s[|s| - 1])
  }

  /** Reading back a printed number gives the number. */
  lemma {:induction false} DecimalRoundTrip(n: nat)
    ensures DecimalValue(Decimal(n)) == n
  {
    if n < 10 {
      assert Decimal(n)[..0] == "";
    } else {
      DecimalRoundTrip(n / 10);
      var s := Decimal(n);
      assert s[..|s| - 1] == Decimal(n / 10);
    }
  }

  /******* The order of strings *******/

  /** Lexicographic order by character. */
  predicate StringLe(a: string, b: string) {
    a == "" || (b != "" && (a[0] < b[0] || (a[0] == b[0] && StringLe(a[1..], b[1..]))))
  }

  lemma {:induction false} StringLeTotal(a: string, b: string)
    ensures StringLe(a, b) || StringLe(b, a)
  {
    if a != "" && b != "" { StringLeTotal(a[1..], b[1..]); }
  }

  lemma {:induction false} StringLeTransitive(a: string, b: string, c: string)
    requires StringLe(a, b) && StringLe(b, c)
    ensures StringLe(a, c)
  {
    if a != "" && a[0] == b[0] && b[0] == c[0] { StringLeTransitive(a[1..], b[1..], c[1..]); }
  }

  lemma {:induction false} StringLeAntisymmetric(a: string, b: string)
    requires StringLe(a, b) && StringLe(b, a)
    ensures a == b
  {
    if a != "" {
      StringLeAntisymmetric(a[1..], b[1..]);
      assert a == [a[0]] + a[1..] && b == [b[0]] + b[1..];
    }
  }

  lemma SameStart(a: string, b: string, k: nat)
    requires 1 <= k <= |a| && k <= |b| && a[0] == b[0]
    ensures a[..k] == b[..k] <==> a[1..][..k - 1] == b[1..][..k - 1]
  {
    var x, y := a[1..][..k - 1], b[1..][..k - 1];
    assert a[..k] == [a[0]] + x && b[..k] == [b[0]] + y;
    assert ([a[0]] + x)[1..] == x && ([b[0]] + y)[1..] == y;
  }

  /** A string comes before another when it is a prefix of it or has the smaller character where they first
      differ. */
  lemma {:induction false} StringLeExactly(a: string, b: string)
    ensures StringLe(a, b) <==> a <= b || exists k :: 0 <= k < |a| && k < |b| && a[..k] == b[..k] && a[k] < b[k]
  {
    if a != "" && b != "" {
      StringLeExactly(a[1..], b[1..]);
      if a[0] == b[0] {
        assert a <= b <==> a[1..] <= b[1..];
        forall k | 1 <= k < |a| && k < |b| ensures a[..k] == b[..k] <==> a[1..][..k - 1] == b[1..][..k - 1] {
          SameStart(a, b, k);
        }
        if k :| 0 <= k < |a| && k < |b| && a[..k] == b[..k] && a[k] < b[k] {
          assert a[1..][..k - 1] == b[1..][..k - 1] && a[1..][k - 1] < b[1..][k - 1];
        }
        if k :| 0 <= k < |a[1..]| && k < |b[1..]| && a[1..][..k] == b[1..][..k] && a[1..][k] < b[1..][k] {
          assert a[..k + 1] == b[..k + 1] && a[k + 1] < b[k + 1];
        }
      } else {
        assert a[..0] == b[..0];
        forall k | 0 < k < |a| && k < |b| ensures a[..k] != b[..k] { assert a[..k][0] == a[0] && b[..k][0] == b[0]; }
      }
    }
  }

  predicate StringsSorted(s: seq<string>) { forall i, j :: 0 <= i < j < |s| ==> StringLe(s[i], s[j]) }

  /** Puts a string in front of the first that is not smaller. */
  function InsertString(x: string, s: seq<string>): (r: seq<string>)
    ensures multiset(r) == multiset(s) + multiset{x}
  {
    if s == [] then [x]
    else if StringLe(x, s[0]) then [x] + s
    else
      assert s == [s[0]] + s[1..];
      [s[0]] + InsertString(x, s[1..])
  }

  lemma {:induction false} InsertSorted(x: string, s: seq<string>)
    requires StringsSorted(s)
    ensures StringsSorted(InsertString(x, s))
  {
    if s != [] {
      if StringLe(x, s[0]) {
        forall j | 0 <= j < |s| ensures StringLe(x, s[j]) { if j > 0 { StringLeTransitive(x, s[0], s[j]); } }
      } else {
        StringLeTotal(x, s[0]);
        InsertSorted(x, s[1..]);
        var rest := InsertString(x, s[1..]);
        forall j | 0 <= j < |rest| ensures StringLe(s[0], rest[j]) {
          assert rest[j] in multiset(rest);
          if rest[j] != x { assert rest[j] in s[1..]; }
        }
      }
    }
  }
}
