/** Pages of a listing fetched by separate requests: each request has its own walk of the filters and
    its own scan of the table.  They make up the listing exactly when the sort key puts any two of the
    wanted rows in one order. */
module ListPages {
  import opened Resources
  import opened SqlSyntax
  import opened SqlText
  import opened SqlMeaning
  import opened ListFilters
  import opened StoreOutcomes
  import opened StoreSpec
  import opened StoreText
  import SqlStores

  /******* Scans decide ties *******/

  /** One id comes before another. */
  ghost predicate Earlier(s: seq<string>, a: string, b: string) {
    exists i, j :: 0 <= i < j < |s| && s[i] == a && s[j] == b
  }

  lemma NotBothEarlier(s: seq<string>, a: string, b: string)
    requires Distinct(s) && Earlier(s, a, b)
    ensures !Earlier(s, b, a)
  {}

  lemma EarlierAfter(x: string, s: seq<string>, a: string, b: string)
    requires Earlier(s, a, b)
    ensures Earlier([x] + s, a, b)
  {
    var i, j :| 0 <= i < j < |s| && s[i] == a && s[j] == b;
    assert ([x] + s)[i + 1] == a && ([x] + s)[j + 1] == b;
  }

  /** A row is placed before every row that does not come before it. */
  lemma {:induction false} PlacedEarlier(id: string, ids: seq<string>, keys: seq<OrderKey>, rows: map<string, Row>,
                                         le: Order, other: string)
    requires id in rows && (forall i :: 0 <= i < |ids| ==> ids[i] in rows) && other in ids
    requires !Before(keys, rows[other], rows[id], le)
    ensures Earlier(Place(id, ids, keys, rows, le), id, other)
  {
    if Before(keys, rows[ids[0]], rows[id], le) {
      assert other in ids[1..];
      PlacedEarlier(id, ids[1..], keys, rows, le, other);
      EarlierAfter(ids[0], Place(id, ids[1..], keys, rows, le), id, other);
    } else {
      var j :| 0 <= j < |ids| && ids[j] == other;
      assert ([id] + ids)[0] == id && ([id] + ids)[j + 1] == other;
    }
  }

  lemma ScanStarting(t: Table, id: string) returns (scan: seq<string>)
    requires id in t.rows
    ensures IsScan(scan, t) && scan != [] && scan[0] == id
  {
    scan := [id];
    var remaining := t.rows.Keys - {id};
    while remaining != {}
      invariant Distinct(scan) && scan != [] && scan[0] == id && remaining <= t.rows.Keys - {id}
      invariant forall k :: k in scan <==> k in t.rows && k !in remaining
      decreases |remaining|
    {
      var k :| k in remaining;
      remaining := remaining - {k};
      scan := scan + [k];
    }
    assert forall i :: 0 <= i < |scan| ==> scan[i] in scan;
  }

  /** The rows of a set in sorted order, as one scan of the table leaves them. */
  function Lined(m: set<string>, keys: seq<OrderKey>, t: Table, le: Order, scan: seq<string>): seq<string>
    requires m <= t.rows.Keys
  {
    var ids := Keep(scan, m);
    assert forall i :: 0 <= i < |ids| ==> ids[i] in ids;
    Sorted(ids, keys, t.rows, le)
  }

  lemma LinedIs(m: set<string>, keys: seq<OrderKey>, t: Table, le: Order, scan: seq<string>)
    requires m <= t.rows.Keys && IsScan(scan, t)
    ensures var r := Lined(m, keys, t, le, scan);
      && Distinct(r) && (forall id :: id in r <==> id in m) && |r| == |m|
      && (forall i :: 0 <= i < |r| ==> r[i] in m) && (TotalPreorder(le) ==> InOrder(r, keys, t.rows, le))
  {
    hide InOrder, TotalPreorder;
    var ids := Keep(scan, m);
    KeepDistinct(scan, m);
    assert forall i :: 0 <= i < |ids| ==> ids[i] in ids;
    DistinctFromMultiset(ids, Lined(m, keys, t, le, scan));
    DistinctSize(Lined(m, keys, t, le, scan), m);
    if TotalPreorder(le) { SortedInOrder(ids, keys, t.rows, le); }
  }

  /** A scan that starts with a row has it before the rows it ties with. */
  lemma StartsEarlier(m: set<string>, keys: seq<OrderKey>, t: Table, le: Order, a: string, b: string)
    returns (scan: seq<string>)
    requires m <= t.rows.Keys && a in m && b in m && a != b && !Before(keys, t.rows[b], t.rows[a], le)
    ensures IsScan(scan, t) && Earlier(Lined(m, keys, t, le, scan), a, b)
  {
    hide Before, Place;
    scan := ScanStarting(t, a);
    assert b in scan;
    var ids, rest := Keep(scan, m), Keep(scan[1..], m);
    assert ids == [a] + rest && b in ids && ids[1..] == rest && b in rest;
    assert forall i :: 0 <= i < |ids| ==> ids[i] in ids;
    var sorted := Sorted(rest, keys, t.rows, le);
    assert b in multiset(rest) && b in sorted;
    PlacedEarlier(a, sorted, keys, t.rows, le, b);
  }

  lemma DecidedSame(m: set<string>, keys: seq<OrderKey>, t: Table, le: Order, scan: seq<string>, other: seq<string>)
    requires TotalPreorder(le) && IsScan(scan, t) && IsScan(other, t)
    requires m <= t.rows.Keys && Decides(m, keys, t.rows, le)
    ensures Lined(m, keys, t, le, scan) == Lined(m, keys, t, le, other)
  {
    hide Lined, Before, InOrder, TotalPreorder, IsScan, Decides;
    LinedIs(m, keys, t, le, scan);
    LinedIs(m, keys, t, le, other);
    OneSorted(Lined(m, keys, t, le, scan), Lined(m, keys, t, le, other), keys, t.rows, le, m);
  }

  /** Two rows that tie are answered in both orders. */
  lemma TiedScans(m: set<string>, keys: seq<OrderKey>, t: Table, le: Order)
    returns (scan: seq<string>, other: seq<string>)
    requires m <= t.rows.Keys && !Decides(m, keys, t.rows, le)
    ensures IsScan(scan, t) && IsScan(other, t) && Lined(m, keys, t, le, scan) != Lined(m, keys, t, le, other)
  {
    hide Lined, Before, IsScan, Earlier;
    var a, b :| a in m && b in m && a != b
      && !Before(keys, t.rows[a], t.rows[b], le) && !Before(keys, t.rows[b], t.rows[a], le);
    scan := StartsEarlier(m, keys, t, le, a, b);
    other := StartsEarlier(m, keys, t, le, b, a);
    LinedIs(m, keys, t, le, scan);
    NotBothEarlier(Lined(m, keys, t, le, scan), a, b);
  }

  /** Every scan gives the same answer exactly when the sort keys decide between any two rows of it. */
  lemma ScansSameExactly(m: set<string>, keys: seq<OrderKey>, t: Table, le: Order)
    requires TotalPreorder(le) && m <= t.rows.Keys
    ensures (forall scan, other | IsScan(scan, t) && IsScan(other, t) ::
               Lined(m, keys, t, le, scan) == Lined(m, keys, t, le, other))
       <==> Decides(m, keys, t.rows, le)
  {
    hide Lined, InOrder, TotalPreorder, IsScan, Decides;
    if Decides(m, keys, t.rows, le) {
      forall scan, other | IsScan(scan, t) && IsScan(other, t)
        ensures Lined(m, keys, t, le, scan) == Lined(m, keys, t, le, other)
      {
        DecidedSame(m, keys, t, le, scan, other);
      }
    } else {
      var scan, other := TiedScans(m, keys, t, le);
    }
  }

  /******* Pages *******/

  /** Pages of n rows, each cut from the answer of its own scan. */
  function Pages(m: set<string>, keys: seq<OrderKey>, t: Table, le: Order, scans: seq<seq<string>>, n: nat)
    : seq<seq<string>>
    requires m <= t.rows.Keys
  {
    seq(|scans|, i requires 0 <= i < |scans| => Slice(Lined(m, keys, t, le, scans[i]), i * n, n))
  }

  predicate AreScans(scans: seq<seq<string>>, t: Table) { forall i :: 0 <= i < |scans| ==> IsScan(scans[i], t) }

  /** However the table is scanned, enough pages of a size the store takes have every row. */
  ghost predicate PagesHaveAll(m: set<string>, keys: seq<OrderKey>, t: Table, le: Order)
    requires m <= t.rows.Keys
  {
    forall scans, n | AreScans(scans, t) && 1 <= n <= 100 && |m| <= |scans| * n ::
      forall id :: id in m ==> id in Concat(Pages(m, keys, t, le, scans, n))
  }

  lemma {:induction false} ConcatOnes(pages: seq<seq<string>>, s: seq<string>)
    requires |pages| == |s| && forall i :: 0 <= i < |s| ==> pages[i] == [s[i]]
    ensures Concat(pages) == s
  {
    if pages != [] { ConcatOnes(pages[..|pages| - 1], s[..|s| - 1]); }
  }

  /** One page of one row from the other answer: its row appears twice, and a row is lost. */
  lemma RowLost(m: set<string>, keys: seq<OrderKey>, t: Table, le: Order, scan: seq<string>, other: seq<string>)
    returns (scans: seq<seq<string>>, id: string)
    requires m <= t.rows.Keys && IsScan(scan, t) && IsScan(other, t)
    requires Lined(m, keys, t, le, scan) != Lined(m, keys, t, le, other)
    ensures AreScans(scans, t) && |scans| == |m| && id in m && id !in Concat(Pages(m, keys, t, le, scans, 1))
  {
    hide Lined, IsScan, Concat;
    var x, y := Lined(m, keys, t, le, scan), Lined(m, keys, t, le, other);
    LinedIs(m, keys, t, le, scan);
    LinedIs(m, keys, t, le, other);
    var k :| 0 <= k < |x| && x[k] != y[k];
    scans := seq(|m|, i requires 0 <= i < |m| => if i == k then scan else other);
    id := y[k];
    var mixed := y[k := x[k]];
    ConcatOnes(Pages(m, keys, t, le, scans, 1), mixed);
  }

  lemma PagesAllHere(m: set<string>, keys: seq<OrderKey>, t: Table, le: Order, scans: seq<seq<string>>, n: nat)
    requires TotalPreorder(le) && m <= t.rows.Keys && Decides(m, keys, t.rows, le)
    requires AreScans(scans, t) && 1 <= n && |m| <= |scans| * n
    ensures forall id :: id in m ==> id in Concat(Pages(m, keys, t, le, scans, n))
  {
    hide Lined, TotalPreorder, IsScan, Decides, Concat, Slice;
    if scans != [] {
      var ids, pages := Lined(m, keys, t, le, scans[0]), Pages(m, keys, t, le, scans, n);
      LinedIs(m, keys, t, le, scans[0]);
      forall i | 0 <= i < |pages| ensures pages[i] == Slice(ids, i * n, n) {
        DecidedSame(m, keys, t, le, scans[i], scans[0]);
      }
      SlicesConcat(pages, ids, n);
      assert ids[..|ids|] == ids;
    } else {
      assert |m| == 0 && m == {};
    }
  }

  /** Separately fetched pages lose no row, however the table is scanned, exactly when the sort keys
      decide between any two rows of the listing. */
  lemma PagesExactly(m: set<string>, keys: seq<OrderKey>, t: Table, le: Order)
    requires TotalPreorder(le) && m <= t.rows.Keys
    ensures PagesHaveAll(m, keys, t, le) <==> Decides(m, keys, t.rows, le)
  {
    hide Lined, TotalPreorder, IsScan, Decides, Concat, Pages, AreScans;
    if Decides(m, keys, t.rows, le) {
      forall scans, n | AreScans(scans, t) && 1 <= n <= 100 && |m| <= |scans| * n
        ensures forall id :: id in m ==> id in Concat(Pages(m, keys, t, le, scans, n))
      {
        PagesAllHere(m, keys, t, le, scans, n);
      }
    } else {
      var scan, other := TiedScans(m, keys, t, le);
      var scans, id := RowLost(m, keys, t, le, scan, other);
      assert AreScans(scans, t) && |m| <= |scans| * 1;
    }
  }

  /******* The pages of a store *******/

  ghost function WantedIds(pg: bool, r: ResourceMeta, t: Table, tenant: string, role: string, search: string,
                           filters: map<string, string>, le: Order): (m: set<string>)
    ensures m <= t.rows.Keys
  {
    set id | id in t.rows && Wanted(pg, r, tenant, role, search, filters, t.rows[id], le)
  }

  /** What the list statement answers, whatever its walk of the filters and whatever arguments follow. */
  lemma StatementAnswers(d: Dialect, le: Order, r: ResourceMeta, t: Table, tenant: string, role: string, search: string,
                         sortBy: string, filters: map<string, string>, walk: seq<string>, more: seq<Value>,
                         scan: seq<string>)
    requires IsWalk(walk, filters) && NoneRefused(r, filters)
    ensures var keys := Active(filters, walk);
      var forms := Forms(d.Postgres?, r, role, search, keys);
      WritableClauses(forms)
      && Answer(t, FilterExpr(forms), SortKeys(d, r, sortBy),
                Args(r, tenant, role, search, filters, keys) + more, le, scan)
        == Lined(WantedIds(d.Postgres?, r, t, tenant, role, search, filters, le), SortKeys(d, r, sortBy), t, le, scan)
  {
    hide Wanted, Selected, Keep, Sorted, Forms, Args, FilterExpr, Active, SortKeys;
    SqlStores.FormsSelect(d.Postgres?, r, tenant, role, search, filters, walk, t, more, le);
    var keys := Active(filters, walk);
    assert Matching(t, FilterExpr(Forms(d.Postgres?, r, role, search, keys)),
                    Args(r, tenant, role, search, filters, keys) + more, le)
        == WantedIds(d.Postgres?, r, t, tenant, role, search, filters, le);
  }

  /** Pages of a listing fetched one by one lose no row, whatever the scans, exactly when the requested
      sort puts any two of the wanted rows in one order; an unsorted listing with two rows never does. */
  lemma ListPagesExactly(d: Dialect, le: Order, r: ResourceMeta, t: Table, tenant: string, role: string, search: string,
                         sortBy: string, filters: map<string, string>)
    requires TotalPreorder(le)
    ensures var m, keys := WantedIds(d.Postgres?, r, t, tenant, role, search, filters, le), SortKeys(d, r, sortBy);
      && (PagesHaveAll(m, keys, t, le) <==> Decides(m, keys, t.rows, le))
      && (keys == [] ==> (PagesHaveAll(m, keys, t, le) <==> |m| <= 1))
  {
    var m, keys := WantedIds(d.Postgres?, r, t, tenant, role, search, filters, le), SortKeys(d, r, sortBy);
    PagesExactly(m, keys, t, le);
    if keys == [] { UndecidedUnsorted(m, t, le); }
  }

  lemma UndecidedUnsorted(m: set<string>, t: Table, le: Order)
    requires m <= t.rows.Keys
    ensures Decides(m, [], t.rows, le) <==> |m| <= 1
  {
    if |m| > 1 {
      var a :| a in m;
      assert m - {a} != {};
      var b :| b in m - {a};
      assert a in m && b in m && a != b && !Before([], t.rows[a], t.rows[b], le);
    } else if a, b :| a in m && b in m && a != b {
      assert {a, b} <= m && |{a, b}| == 2;
      SubsetSize({a, b}, m);
    }
  }

  lemma SubsetSize(a: set<string>, b: set<string>)
    requires a <= b
    ensures |a| <= |b|
  {
    assert b == a + (b - a);
  }

  /******* Pages of one answer *******/

  function RecordsOf(pages: seq<Listing>): seq<seq<Row>> {
    seq(|pages|, i requires 0 <= i < |pages| => pages[i].records)
  }

  lemma PageIsSlice(r: ResourceMeta, t: Table, ids: seq<string>, p: int, n: int)
    requires 1 <= p && 1 <= n && (forall i :: 0 <= i < |ids| ==> ids[i] in t.rows)
    requires (p - 1) * n <= 0x7fff_ffff_ffff_ffff
    ensures PageFrom(r, t, ids, p, n).records == Slice(ShowsAll(r, t, ids), (p - 1) * n, n)
  {
    hide Shows;
    PageCut(r, t, ids, p, n);
  }

  /** Pages 1, 2, 3, ... of one answer make up the listing once they are enough for its rows, row by row
      and in its order, as long as their offsets fit 64 bits. */
  lemma PagesMakeUp(r: ResourceMeta, t: Table, ids: seq<string>, n: int, pages: seq<Listing>)
    requires 1 <= n <= 100 && (forall i :: 0 <= i < |ids| ==> ids[i] in t.rows)
    requires |ids| <= |pages| * n && (|pages| - 1) * n <= 0x7fff_ffff_ffff_ffff
    requires forall i :: 0 <= i < |pages| ==> pages[i] == PageFrom(r, t, ids, i + 1, n)
    ensures var records := Concat(RecordsOf(pages));
      && |records| == |ids|
      && forall k, c :: 0 <= k < |records| ==>
           if exists i :: 0 <= i < |r.fields| && r.fields[i].sqlName == c && !r.fields[i].hidden
           then c in records[k] && records[k][c] == Field(t.rows[ids[k]], c) else c !in records[k]
  {
    hide Shows, PageFrom, Slice, Concat;
    forall i | 0 <= i < |pages| ensures RecordsOf(pages)[i] == Slice(ShowsAll(r, t, ids), i * n, n) {
      Smaller(i, |pages| - 1, n);
      PageIsSlice(r, t, ids, i + 1, n);
    }
    SlicesConcat(RecordsOf(pages), ShowsAll(r, t, ids), n);
    assert ShowsAll(r, t, ids)[..|ids|] == ShowsAll(r, t, ids);
    forall k, c | 0 <= k < |ids|
      ensures if exists i :: 0 <= i < |r.fields| && r.fields[i].sqlName == c && !r.fields[i].hidden
              then c in ShowsAll(r, t, ids)[k] && ShowsAll(r, t, ids)[k][c] == Field(t.rows[ids[k]], c)
              else c !in ShowsAll(r, t, ids)[k]
    {
      ShownColumn(r, t.rows[ids[k]], c);
    }
  }

  lemma Smaller(i: int, j: int, n: int)
    requires 0 <= i <= j && 1 <= n
    ensures i * n <= j * n
  {}
}
