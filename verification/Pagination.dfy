/** Bounded page arithmetic, in the 64-bit integers of the host. */
module Pagination {
  import opened Wrappers
  import opened Text

  /** Query parameters: each name with its values in order. */
  type Values = map<string, seq<string>>

  function Get(values: Values, name: string): string {
    if name in values && values[name] != [] then values[name][0] else ""
  }

  const MAX_INT: int := 0x7fff_ffff_ffff_ffff

  /** Two's-complement wrap-around to 64 bits. */
  function Wrap64(x: int): int { (x + MAX_INT + 1) % (2 * (MAX_INT + 1)) - MAX_INT - 1 }

  /** A decimal integer with an optional sign that fits 64 bits. */
  function ParseInt(s: string): Option<int> {
    var negative := s != "" && s[0] == '-';
    var digits := if s != "" && (s[0] == '-' || s[0] == '+') then s[1..] else s;
    if digits == "" || !AllDigits(digits) then None
    else
      var n: int := DecimalValue(digits);
      if negative then (if n <= MAX_INT + 1 then Some(-n) else None)
      else if n <= MAX_INT then Some(n) else None
  }

  function ParsePositive(value: string, fallback: int): int {
    var parsed := ParseInt(value);
    if parsed.None? || parsed.value <= 0 then fallback else parsed.value
  }

  const DEFAULT_PAGE := 1
  const DEFAULT_PER_PAGE := 25
  const MAX_PER_PAGE := 100

  datatype Page = Page(page: int, perPage: int, offset: int, limit: int)

  function Parse(values: Values): Page {
    var page := ParsePositive(Get(values, "page"), DEFAULT_PAGE);
    var given := if Get(values, "per_page") != "" then Get(values, "per_page") else Get(values, "limit");
    var parsed := ParsePositive(given, DEFAULT_PER_PAGE);
    var perPage := if parsed > MAX_PER_PAGE then MAX_PER_PAGE else parsed;
    Page(page, perPage, Wrap64((page - 1) * perPage), perPage)
  }

  /** A page is bounded, and its offset is the exact product exactly when that fits 64 bits. */
  lemma ParseBounded(values: Values)
    ensures var p := Parse(values);
      && 1 <= p.page <= MAX_INT && 1 <= p.perPage <= MAX_PER_PAGE && p.limit == p.perPage
      && (p.offset == (p.page - 1) * p.perPage <==> (p.page - 1) * p.perPage <= MAX_INT)
  {
    var p := Parse(values);
    assert 1 <= p.page && 1 <= p.perPage;
    ProductNatural(p.page - 1, p.perPage);
    WrapExact((p.page - 1) * p.perPage);
  }

  lemma ProductNatural(a: int, b: int)
    requires 0 <= a && 0 <= b
    ensures 0 <= a * b
  {}

  lemma WrapExact(x: int)
    requires 0 <= x
    ensures Wrap64(x) == x <==> x <= MAX_INT
    ensures -0x8000_0000_0000_0000 <= Wrap64(x) <= 0x7fff_ffff_ffff_ffff
    ensures (x - Wrap64(x)) % 0x1_0000_0000_0000_0000 == 0
  {
    assert Wrap64(x) <= MAX_INT;
  }

  /** A printed number reads back if it fits 64 bits. */
  lemma ParsePrinted(n: nat, fallback: int)
    ensures ParsePositive(Decimal(n), fallback) == if 1 <= n <= 0x7fff_ffff_ffff_ffff then n else fallback
  {
    var s := Decimal(n);
    assert IsDigit(s[0]);
    DecimalRoundTrip(n);
  }

  /** What is not a positive number counts as not given. */
  lemma ParseOther(s: string, fallback: int)
    requires s == "" || s[0] == '-' || exists i :: 1 <= i < |s| && !IsDigit(s[i])
    ensures ParsePositive(s, fallback) == fallback
  {
    if i :| 1 <= i < |s| && !IsDigit(s[i]) { assert s[1..][i - 1] == s[i]; }
  }

  /** What the parameters say: the first value of `page`, else 1; the first value of `per_page`, or where
      that is missing or empty of `limit`, at most 100, else 25. */
  lemma ParseReads(values: Values, n: nat, m: nat)
    ensures "page" !in values || values["page"] == [] || values["page"][0] == "" ==> Parse(values).page == 1
    ensures "page" in values && values["page"] != [] && values["page"][0] == Decimal(n) ==>
      Parse(values).page == if 1 <= n <= 0x7fff_ffff_ffff_ffff then n else 1
    ensures var size := if 1 <= m <= 0x7fff_ffff_ffff_ffff then if m <= 100 then m else 100 else 25;
      var none := "per_page" !in values || values["per_page"] == [] || values["per_page"][0] == "";
      && ("per_page" in values && values["per_page"] != [] && values["per_page"][0] == Decimal(m) ==>
            Parse(values).perPage == size)
      && (none && "limit" in values && values["limit"] != [] && values["limit"][0] == Decimal(m) ==>
            Parse(values).perPage == size)
      && (none && ("limit" !in values || values["limit"] == [] || values["limit"][0] == "") ==>
            Parse(values).perPage == 25)
  {
    ParseOther("", 1);
    ParseOther("", 25);
    ParsePrinted(n, 1);
    ParsePrinted(m, 25);
    hide ParsePositive, Decimal;
  }

  /** The page count reported with a total. */
  function PageCount(perPage: int, total: nat): int { if perPage > 0 then (total + perPage - 1) / perPage else 0 }

  /** It is the least number of pages that covers the total. */
  lemma PageCountCovers(perPage: int, total: nat)
    requires perPage > 0
    ensures var n := PageCount(perPage, total);
      n >= 0 && (n - 1) * perPage < total <= n * perPage
  {
    var n := PageCount(perPage, total);
    assert n * perPage + (total + perPage - 1) % perPage == total + perPage - 1;
  }
}
