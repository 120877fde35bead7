/** What statements mean: three-valued conditions over rows, ordered answers, and the effect
    of insert, update and delete on a table keyed by its primary key. */
module SqlMeaning {
  import opened Wrappers
  import opened Text
  import opened SqlSyntax
  import opened Patterns

  /******* Values and conditions *******/

  datatype Value = Null | Str(text: string) | Int(number: int)

  function TextOf(v: Value): string
    requires !v.Null?
  {
    match v case Str(s) => s case Int(i) => DecimalInt(i)
  }

  type Row = map<string, Value>

  /** The database's order on values; only ever assumed to be a total preorder. */
  type Order = (Value, Value) -> bool

  ghost predicate TotalPreorder(le: Order) {
    && (forall a, b :: le(a, b) || le(b, a))
    && (forall a, b, c :: le(a, b) && le(b, c) ==> le(a, c))
  }

  function Field(row: Row, c: string): Value { if c in row then row[c] else Null }

  function OperandValue(o: Operand, row: Row, args: seq<Value>): Value {
    match o
    case Col(c) => Field(row, c)
    case Arg(n) => if 1 <= n <= |args| then args[n - 1] else Null
    case AsText(inner) => var v := OperandValue(inner, row, args); if v.Null? then Null else Str(TextOf(v))
    case Lower(inner) => var v := OperandValue(inner, row, args); if v.Null? then Null else Str(Fold(TextOf(v)))
  }

  datatype Truth = True | False | Unknown

  function Known(b: bool): Truth { if b then True else False }

  /** A comparison of two values that are not NULL. */
  predicate Holds(op: Op, l: Value, r: Value, le: Order)
    requires !l.Null? && !r.Null?
  {
    match op
    case Eq => TextOf(l) == TextOf(r)
    case Ilike => LikeMatch(Fold(TextOf(r)), Fold(TextOf(l)))
    case Like => LikeMatch(TextOf(r), TextOf(l))
    case Ge => le(r, l)
    case Le => le(l, r)
    case Gt => !le(l, r)
    case Lt => !le(r, l)
  }

  function Eval(e: Expr, row: Row, args: seq<Value>, le: Order): Truth {
    match e
    case Cmp(l, op, r) =>
      var x, y := OperandValue(l, row, args), OperandValue(r, row, args);
      if x.Null? || y.Null? then Unknown else Known(Holds(op, x, y, le))
    case And(a, b) =>
      var x, y := Eval(a, row, args, le), Eval(b, row, args, le);
      if x == False || y == False then False else if x == True && y == True then True else Unknown
    case Or(a, b) =>
      var x, y := Eval(a, row, args, le), Eval(b, row, args, le);
      if x == True || y == True then True else if x == False && y == False then False else Unknown
  }

  /** A row is selected when its condition is true, not merely not false. */
  predicate Selected(filter: Option<Expr>, row: Row, args: seq<Value>, le: Order) {
    filter.None? || Eval(filter.value, row, args, le) == True
  }

  /** The two-valued reading in which a comparison with NULL is false. */
  predicate Plain(e: Expr, row: Row, args: seq<Value>, le: Order) {
    match e
    case Cmp(l, op, r) =>
      var x, y := OperandValue(l, row, args), OperandValue(r, row, args);
      !x.Null? && !y.Null? && Holds(op, x, y, le)
    case And(a, b) => Plain(a, row, args, le) && Plain(b, row, args, le)
    case Or(a, b) => Plain(a, row, args, le) || Plain(b, row, args, le)
  }

  /** Without negation, NULL may be taken for false. */
  lemma {:induction false} NullsAreFalse(e: Expr, row: Row, args: seq<Value>, le: Order)
    ensures Eval(e, row, args, le) == True <==> Plain(e, row, args, le)
  {
    match e
    case Cmp(_, _, _) =>
    case And(a, b) => NullsAreFalse(a, row, args, le); NullsAreFalse(b, row, args, le);
    case Or(a, b) => NullsAreFalse(a, row, args, le); NullsAreFalse(b, row, args, le);
  }

  predicate TestHolds(t: Test, row: Row, args: seq<Value>, le: Order) { Plain(TestExpr(t), row, args, le) }

  predicate ClauseHolds(c: Clause, row: Row, args: seq<Value>, le: Order) {
    match c
    case Single(t) => TestHolds(t, row, args, le)
    case Any(ts) => exists i :: 0 <= i < |ts| && TestHolds(ts[i], row, args, le)
  }

  lemma {:induction false} AnyHolds(ts: seq<Test>, row: Row, args: seq<Value>, le: Order)
    requires ts != []
    ensures Plain(AnyExpr(ts), row, args, le) <==> exists i :: 0 <= i < |ts| && TestHolds(ts[i], row, args, le)
  {
    if |ts| > 1 {
      AnyHolds(ts[1..], row, args, le);
      if i :| 0 <= i < |ts[1..]| && TestHolds(ts[1..][i], row, args, le) {
        assert TestHolds(ts[i + 1], row, args, le);
      }
      if i :| 1 <= i < |ts| && TestHolds(ts[i], row, args, le) {
        assert TestHolds(ts[1..][i - 1], row, args, le);
      }
    }
  }

  /** A clause list selects the rows on which every clause holds. */
  lemma {:induction false} AllHold(cs: seq<Clause>, row: Row, args: seq<Value>, le: Order)
    requires WritableClauses(cs)
    ensures Selected(FilterExpr(cs), row, args, le) <==> forall i :: 0 <= i < |cs| ==> ClauseHolds(cs[i], row, args, le)
  {
    if cs != [] {
      NullsAreFalse(AllExpr(cs), row, args, le);
      if cs[0].Any? { AnyHolds(cs[0].tests, row, args, le); }
      assert Plain(ClauseExpr(cs[0]), row, args, le) <==> ClauseHolds(cs[0], row, args, le);
      if |cs| > 1 {
        AllHold(cs[1..], row, args, le);
        NullsAreFalse(AllExpr(cs[1..]), row, args, le);
        assert forall i :: 1 <= i < |cs| ==> cs[i] == cs[1..][i - 1];
      }
    }
  }

  lemma SplitForall(forms: seq<Clause>, a: seq<Clause>, b: seq<Clause>, c: seq<Clause>, row: Row, args: seq<Value>,
                    le: Order)
    requires forms == a + b + c
    ensures (forall i :: 0 <= i < |forms| ==> ClauseHolds(forms[i], row, args, le))
       <==> ((forall i :: 0 <= i < |a| ==> ClauseHolds(a[i], row, args, le))
             && (forall i :: 0 <= i < |b| ==> ClauseHolds(b[i], row, args, le))
             && (forall i :: 0 <= i < |c| ==> ClauseHolds(c[i], row, args, le)))
  {
    assert forall i :: 0 <= i < |a| ==> forms[i] == a[i];
    assert forall i :: 0 <= i < |b| ==> forms[|a| + i] == b[i];
    assert forall i :: 0 <= i < |c| ==> forms[|a| + |b| + i] == c[i];
  }

  /******* Ordered answers *******/

  /** Whether the order keys put row a strictly before row b. */
  predicate Before(keys: seq<OrderKey>, a: Row, b: Row, le: Order) {
    keys != [] &&
    var x, y := Field(a, keys[0].column), Field(b, keys[0].column);
    var (lo, hi) := if keys[0].desc then (y, x) else (x, y);
    !le(hi, lo) || (le(lo, hi) && Before(keys[1..], a, b, le))
  }

  lemma {:induction false} NotBeforeTransitive(keys: seq<OrderKey>, a: Row, b: Row, c: Row, le: Order)
    requires TotalPreorder(le)
    requires !Before(keys, b, a, le) && !Before(keys, c, b, le)
    ensures !Before(keys, c, a, le)
  {
    if keys != [] {
      var k := keys[0].column;
      var x, y, z := Field(a, k), Field(b, k), Field(c, k);
      if keys[0].desc {
        assert le(y, x) && le(z, y);
        if le(x, z) {
          assert le(x, y) && le(y, z);
          NotBeforeTransitive(keys[1..], a, b, c, le);
        }
      } else {
        assert le(x, y) && le(y, z);
        if le(z, x) {
          assert le(z, y) && le(y, x);
          NotBeforeTransitive(keys[1..], a, b, c, le);
        }
      }
    }
  }

  lemma {:induction false} BeforeAsymmetric(keys: seq<OrderKey>, a: Row, b: Row, le: Order)
    requires TotalPreorder(le)
    ensures !(Before(keys, a, b, le) && Before(keys, b, a, le))
  {
    if keys != [] { BeforeAsymmetric(keys[1..], a, b, le); }
  }

  /** A row that no key puts after another: where the keys before the k-th tie, its k-th value is not
      greater, or not smaller where that key is descending. */
  lemma {:induction false} OrderMeans(keys: seq<OrderKey>, a: Row, b: Row, le: Order, k: nat)
    requires TotalPreorder(le) && !Before(keys, b, a, le) && k < |keys|
    requires forall m :: 0 <= m < k ==>
      le(Field(a, keys[m].column), Field(b, keys[m].column)) && le(Field(b, keys[m].column), Field(a, keys[m].column))
    ensures var x, y := Field(a, keys[k].column), Field(b, keys[k].column); if keys[k].desc then le(y, x) else le(x, y)
  {
    if k > 0 {
      assert forall m :: 0 <= m < k - 1 ==> keys[1..][m] == keys[m + 1];
      OrderMeans(keys[1..], a, b, le, k - 1);
    }
  }

  function Place(id: string, ids: seq<string>, keys: seq<OrderKey>, rows: map<string, Row>, le: Order): (r: seq<string>)
    requires id in rows && forall i :: 0 <= i < |ids| ==> ids[i] in rows
    ensures multiset(r) == multiset(ids) + multiset{id}
    ensures forall i :: 0 <= i < |r| ==> r[i] in rows
  {
    if ids == [] then [id]
    else if Before(keys, rows[ids[0]], rows[id], le) then
      assert ids == [ids[0]] + ids[1..];
      [ids[0]] + Place(id, ids[1..], keys, rows, le)
    else [id] + ids
  }

  /** A stable sort: ties keep the order in which the rows were scanned. */
  function Sorted(ids: seq<string>, keys: seq<OrderKey>, rows: map<string, Row>, le: Order): (r: seq<string>)
    requires forall i :: 0 <= i < |ids| ==> ids[i] in rows
    ensures multiset(r) == multiset(ids)
    ensures forall i :: 0 <= i < |r| ==> r[i] in rows
  {
    if ids == [] then [] else
    assert ids == [ids[0]] + ids[1..];
    Place(ids[0], Sorted(ids[1..], keys, rows, le), keys, rows, le)
  }

  ghost predicate InOrder(ids: seq<string>, keys: seq<OrderKey>, rows: map<string, Row>, le: Order)
    requires forall i :: 0 <= i < |ids| ==> ids[i] in rows
  {
    forall i, j :: 0 <= i < j < |ids| ==> !Before(keys, rows[ids[j]], rows[ids[i]], le)
  }

  lemma {:induction false} PlaceInOrder(id: string, ids: seq<string>, keys: seq<OrderKey>, rows: map<string, Row>,
                                        le: Order)
    requires TotalPreorder(le)
    requires id in rows && (forall i :: 0 <= i < |ids| ==> ids[i] in rows) && InOrder(ids, keys, rows, le)
    ensures InOrder(Place(id, ids, keys, rows, le), keys, rows, le)
  {
    if ids != [] {
      var r := Place(id, ids, keys, rows, le);
      if Before(keys, rows[ids[0]], rows[id], le) {
        var rest := Place(id, ids[1..], keys, rows, le);
        PlaceInOrder(id, ids[1..], keys, rows, le);
        BeforeAsymmetric(keys, rows[ids[0]], rows[id], le);
        forall j | 0 <= j < |rest| ensures !Before(keys, rows[rest[j]], rows[ids[0]], le) {
          assert rest[j] in multiset(rest);
          if rest[j] != id { assert rest[j] in ids[1..]; }
        }
      } else {
        forall j | 0 <= j < |ids| ensures !Before(keys, rows[ids[j]], rows[id], le) {
          if j > 0 { NotBeforeTransitive(keys, rows[id], rows[ids[0]], rows[ids[j]], le); }
        }
      }
    }
  }

  lemma {:induction false} SortedInOrder(ids: seq<string>, keys: seq<OrderKey>, rows: map<string, Row>, le: Order)
    requires TotalPreorder(le)
    requires forall i :: 0 <= i < |ids| ==> ids[i] in rows
    ensures InOrder(Sorted(ids, keys, rows, le), keys, rows, le)
  {
    if ids != [] {
      SortedInOrder(ids[1..], keys, rows, le);
      PlaceInOrder(ids[0], Sorted(ids[1..], keys, rows, le), keys, rows, le);
    }
  }

  /** The keys put any two of the rows in one order. */
  ghost predicate Decides(ids: set<string>, keys: seq<OrderKey>, rows: map<string, Row>, le: Order)
    requires ids <= rows.Keys
  {
    forall a, b :: a in ids && b in ids && a != b ==>
      Before(keys, rows[a], rows[b], le) || Before(keys, rows[b], rows[a], le)
  }

  lemma TailMembers(x: seq<string>)
    requires x != [] && Distinct(x)
    ensures forall id :: id in x[1..] <==> (id in x && id != x[0])
  {
    assert forall i :: 1 <= i < |x| ==> x[i] == x[1..][i - 1];
  }

  lemma FirstIn(y: seq<string>, x: seq<string>)
    requires y != [] && forall id :: id in y ==> id in x
    ensures x != []
  {
    assert y[0] in x;
  }

  /** Where the keys decide there is only one way to put the same rows in order. */
  lemma {:induction false} OneSorted(x: seq<string>, y: seq<string>, keys: seq<OrderKey>, rows: map<string, Row>,
                                     le: Order, ids: set<string>)
    requires ids <= rows.Keys && Decides(ids, keys, rows, le)
    requires Distinct(x) && Distinct(y) && forall id :: id in x <==> id in y
    requires (forall i :: 0 <= i < |x| ==> x[i] in ids) && (forall i :: 0 <= i < |y| ==> y[i] in ids)
    requires InOrder(x, keys, rows, le) && InOrder(y, keys, rows, le)
    ensures x == y
  {
    if y != [] { FirstIn(y, x); }
    if x != [] {
      assert x[0] in y && y != [];
      var j :| 0 <= j < |y| && y[j] == x[0];
      assert y[0] in x;
      var i :| 0 <= i < |x| && x[i] == y[0];
      assert x[0] == y[0];
      TailMembers(x);
      TailMembers(y);
      OneSorted(x[1..], y[1..], keys, rows, le, ids);
    }
  }

  /******* Tables *******/

  /** Rows are stored under the text of their primary key; a column may have a default value. */
  datatype Table = Table(key: string, columns: set<string>, defaults: Row, rows: map<string, Row>)

  ghost predicate ValidRow(t: Table, id: string, row: Row) {
    row.Keys == t.columns && t.key in row && !row[t.key].Null? && TextOf(row[t.key]) == id
  }

  ghost predicate ValidTable(t: Table) {
    t.key in t.columns && forall id :: id in t.rows ==> ValidRow(t, id, t.rows[id])
  }

  function Matching(t: Table, filter: Option<Expr>, args: seq<Value>, le: Order): set<string> {
    set id | id in t.rows && Selected(filter, t.rows[id], args, le)
  }

  predicate Distinct<T(==)>(s: seq<T>) { forall i, j :: 0 <= i < j < |s| ==> s[i] != s[j] }

  /** A scan lists every row once, in an order of the database's choosing. */
  predicate IsScan(scan: seq<string>, t: Table) {
    Distinct(scan) && (forall i :: 0 <= i < |scan| ==> scan[i] in t.rows) && forall id :: id in t.rows ==> id in scan
  }

  function Keep(scan: seq<string>, ids: set<string>): (r: seq<string>)
    ensures forall id :: id in r <==> id in scan && id in ids
  {
    if scan == [] then [] else (if scan[0] in ids then [scan[0]] else []) + Keep(scan[1..], ids)
  }

  lemma {:induction false} KeepDistinct(scan: seq<string>, ids: set<string>)
    requires Distinct(scan)
    ensures Distinct(Keep(scan, ids))
  {
    if scan != [] {
      KeepDistinct(scan[1..], ids);
      assert scan[0] !in scan[1..];
    }
  }

  /** The ids of the selected rows in answer order, before limit and offset. */
  function Answer(t: Table, filter: Option<Expr>, keys: seq<OrderKey>, args: seq<Value>, le: Order,
                  scan: seq<string>): (r: seq<string>)
    ensures forall i :: 0 <= i < |r| ==> r[i] in t.rows
  {
    var ids := Keep(scan, Matching(t, filter, args, le));
    assert forall i :: 0 <= i < |ids| ==> ids[i] in ids;
    Sorted(ids, keys, t.rows, le)
  }

  lemma DistinctFromMultiset(a: seq<string>, b: seq<string>)
    requires multiset(a) == multiset(b) && Distinct(a)
    ensures Distinct(b) && |a| == |b| && forall x :: x in b <==> x in a
  {
    assert |multiset(a)| == |a| && |multiset(b)| == |b|;
    forall x ensures x in b <==> x in a { assert x in b <==> x in multiset(b); assert x in a <==> x in multiset(a); }
    forall i, j | 0 <= i < j < |b| ensures b[i] != b[j] {
      if b[i] == b[j] {
        var x := b[i];
        assert multiset(b) == multiset(b[..i]) + multiset{x} + multiset(b[i + 1..]) by {
          assert b == b[..i] + [x] + b[i + 1..];
        }
        assert x in b[i + 1..] by { assert b[i + 1..][j - i - 1] == x; }
        assert multiset(b)[x] >= 2;
        DistinctCount(a, x);
      }
    }
  }

  lemma {:induction false} DistinctCount(a: seq<string>, x: string)
    requires Distinct(a)
    ensures multiset(a)[x] <= 1
  {
    if a != [] {
      assert a == [a[0]] + a[1..];
      DistinctCount(a[1..], x);
      if a[0] == x { assert x !in a[1..]; }
    }
  }

  /** Every selected row is answered exactly once. */
  lemma AnswerIsExact(t: Table, filter: Option<Expr>, keys: seq<OrderKey>, args: seq<Value>, le: Order,
                      scan: seq<string>)
    requires IsScan(scan, t)
    ensures var r := Answer(t, filter, keys, args, le, scan);
      && Distinct(r) && (forall id :: id in r <==> id in Matching(t, filter, args, le))
      && |r| == |Matching(t, filter, args, le)|
  {
    var m := Matching(t, filter, args, le);
    KeepDistinct(scan, m);
    DistinctFromMultiset(Keep(scan, m), Answer(t, filter, keys, args, le, scan));
    DistinctSize(Answer(t, filter, keys, args, le, scan), m);
  }

  /** An answer is in the requested order. */
  lemma AnswerInOrder(t: Table, filter: Option<Expr>, keys: seq<OrderKey>, args: seq<Value>, le: Order,
                      scan: seq<string>)
    requires TotalPreorder(le)
    ensures InOrder(Answer(t, filter, keys, args, le, scan), keys, t.rows, le)
  {
    var ids := Keep(scan, Matching(t, filter, args, le));
    assert forall i :: 0 <= i < |ids| ==> ids[i] in ids;
    SortedInOrder(ids, keys, t.rows, le);
  }

  lemma {:induction false} DistinctSize(r: seq<string>, m: set<string>)
    requires Distinct(r) && forall x :: x in r <==> x in m
    ensures |r| == |m|
  {
    if r == [] {
      assert m == {};
    } else {
      assert r[0] !in r[1..] && r == [r[0]] + r[1..];
      DistinctSize(r[1..], m - {r[0]});
    }
  }

  function Slice<T>(s: seq<T>, offset: int, limit: int): (r: seq<T>)
    ensures forall i :: 0 <= i < |r| ==> r[i] in s
  {
    var lo := if offset < 0 then 0 else if offset > |s| then |s| else offset;
    var hi := if limit < 0 then lo else if lo + limit > |s| then |s| else lo + limit;
    s[lo..hi]
  }

  function Concat<T>(pages: seq<seq<T>>): seq<T> {
    if pages == [] then [] else Concat(pages[..|pages| - 1]) + pages[|pages| - 1]
  }

  lemma {:induction false} SlicesConcat<T>(pages: seq<seq<T>>, s: seq<T>, n: nat)
    requires n > 0 && forall i :: 0 <= i < |pages| ==> pages[i] == Slice(s, i * n, n)
    ensures Concat(pages) == s[..if |pages| * n < |s| then |pages| * n else |s|]
  {
    if pages == [] {
      assert |pages| * n == 0;
    } else {
      var k := |pages| - 1;
      var from := k * n;
      assert |pages| * n == from + n;
      SlicesConcat(pages[..k], s, n);
      SliceExtends(s, from, n);
    }
  }

  lemma SliceExtends<T>(s: seq<T>, from: nat, n: nat)
    ensures s[..if from < |s| then from else |s|] + Slice(s, from, n) == s[..if from + n < |s| then from + n else |s|]
  {}

  function IntArg(args: seq<Value>, n: nat): int {
    if 1 <= n <= |args| && args[n - 1].Int? then args[n - 1].number else 0
  }

  function Limited(s: seq<string>, limit: Limit, args: seq<Value>): (r: seq<string>)
    ensures forall i :: 0 <= i < |r| ==> r[i] in s
  {
    match limit
    case NoLimit => s
    case First => Slice(s, 0, 1)
    case Window(l, o) => Slice(s, IntArg(args, o), IntArg(args, l))
  }

  /******* Effects *******/

  /** The argument a list of assignments gives to a column: the last one's. */
  function Bound(sets: seq<(string, nat)>, args: seq<Value>, c: string): Option<Value> {
    if sets == [] then None
    else
      var n := |sets| - 1;
      if sets[n].0 == c then Some(OperandValue(Arg(sets[n].1), map[], args)) else Bound(sets[..n], args, c)
  }

  function Overlay(row: Row, sets: seq<(string, nat)>, args: seq<Value>): Row {
    map c | c in row :: var b := Bound(sets, args, c); if b.Some? then b.value else row[c]
  }

  function NamesOf(sets: seq<(string, nat)>): seq<string> { seq(|sets|, i requires 0 <= i < |sets| => sets[i].0) }

  lemma {:induction false} BoundAt(sets: seq<(string, nat)>, args: seq<Value>, i: nat)
    requires i < |sets| && forall j :: i < j < |sets| ==> sets[j].0 != sets[i].0
    ensures Bound(sets, args, sets[i].0) == Some(OperandValue(Arg(sets[i].1), map[], args))
  {
    if i < |sets| - 1 { BoundAt(sets[..|sets| - 1], args, i); }
  }

  lemma {:induction false} BoundNowhere(sets: seq<(string, nat)>, args: seq<Value>, c: string)
    requires forall i :: 0 <= i < |sets| ==> sets[i].0 != c
    ensures Bound(sets, args, c) == None
  {
    if sets != [] { BoundNowhere(sets[..|sets| - 1], args, c); }
  }

  /** Undeclared columns are refused.  Postgres also refuses a column assigned twice; in MySQL and
      SQLite the last assignment wins.  The key is never reassigned here. */
  function RunUpdate(pg: bool, t: Table, sets: seq<(string, nat)>, filter: Option<Expr>, args: seq<Value>, le: Order)
    : Result<Table, string>
  {
    var names := NamesOf(sets);
    if (pg && !Distinct(names)) || t.key in names ||
      !(forall c :: c in names ==> c in t.columns) then Failure("update rejected")
    else Success(t.(rows := map id | id in t.rows ::
      if Selected(filter, t.rows[id], args, le) then Overlay(t.rows[id], sets, args) else t.rows[id]))
  }

  function Zip(names: seq<string>, ns: seq<nat>): seq<(string, nat)>
    requires |names| == |ns|
  {
    seq(|names|, i requires 0 <= i < |names| => (names[i], ns[i]))
  }

  function DefaultOf(t: Table, c: string): Value { Field(t.defaults, c) }

  /** Unlisted columns take their defaults; a NULL or repeated key is refused. */
  function RunInsert(t: Table, names: seq<string>, ns: seq<nat>, args: seq<Value>): Result<Table, string> {
    if |names| != |ns| || !Distinct(names) ||
      !(forall c :: c in names ==> c in t.columns) then Failure("insert rejected")
    else
      var key := Bound(Zip(names, ns), args, t.key);
      if key.None? || key.value.Null? then Failure("null key")
      else if TextOf(key.value) in t.rows then Failure("duplicate key")
      else
        var row := map c | c in t.columns :: var b := Bound(Zip(names, ns), args, c);
        if b.Some? then b.value else DefaultOf(t, c);
        Success(t.(rows := t.rows[TextOf(key.value) := row]))
  }

  function RunDelete(t: Table, filter: Option<Expr>, args: seq<Value>, le: Order): Table {
    t.(rows := map id | id in t.rows && !Selected(filter, t.rows[id], args, le) :: t.rows[id])
  }

  /******* Statements as text, against a database *******/

  type Tables = map<string, Table>

  function Project(columns: Columns, row: Row): Row {
    match columns
    case Star => row
    case Named(names) => map c | c in names :: Field(row, c)
  }

  /** The rows a query text returns, as ids in answer order and the columns asked for.  A strict
      database refuses a negative offset; the others take it for none. */
  function Query(strict: bool, db: Tables, text: string, args: seq<Value>, le: Order,
                 scan: seq<string>): Result<(seq<string>, Columns), string>
  {
    match ReadText(text)
    case Some(Select(columns, table, filter, order, limit)) =>
      if table !in db || !IsScan(scan, db[table]) then Failure("no such table")
      else if strict && NegativeOffset(limit, args) then Failure("negative offset")
      else Success((Limited(Answer(db[table], filter, order, args, le, scan), limit, args), columns))
    case _ => Failure("syntax error")
  }

  predicate NegativeOffset(limit: Limit, args: seq<Value>) { limit.Window? && IntArg(args, limit.offset) < 0 }

  function QueryCount(db: Tables, text: string, args: seq<Value>, le: Order): Result<nat, string> {
    match ReadText(text)
    case Some(Count(table, filter)) =>
      if table in db then Success(|Matching(db[table], filter, args, le)|) else Failure("no such table")
    case _ => Failure("syntax error")
  }

  function Changed(db: Tables, table: string, after: Result<Table, string>): Result<Tables, string> {
    match after
    case Success(t) => Success(db[table := t])
    case Failure(e) => Failure(e)
  }

  /** The tables after a statement text; a failing statement has no effect. */
  function Exec(pg: bool, db: Tables, text: string, args: seq<Value>, le: Order): Result<Tables, string> {
    match ReadText(text)
    case Some(Insert(table, names, ns)) =>
      if table !in db then Failure("no such table") else Changed(db, table, RunInsert(db[table], names, ns, args))
    case Some(Update(table, sets, filter)) =>
      if table !in db then Failure("no such table")
      else Changed(db, table, RunUpdate(pg, db[table], sets, filter, args, le))
    case Some(Delete(table, filter)) =>
      if table !in db then Failure("no such table") else Success(db[table := RunDelete(db[table], filter, args, le)])
    case _ => Failure("syntax error")
  }
}
