/**
 * The argument handling and response shaping of the MCP tools: the default
 * date window, dimension parsing, limit clamps, the request each Search
 * Console tool sends, row formatting, the Bing keyword sort, sitemap URL
 * counts, the referring-URL cut and the session refresh.
 *
 * Dates are day numbers; `date.today()` is the `today` parameter and
 * `date.isoformat()` the `isoformat` parameter.
 */
module Server {
  import opened Wrappers
  import opened PyText
  import opened ChromeCookies
  import GscClient

  // ---------------------------------------------------------------------------
  // Dates
  // ---------------------------------------------------------------------------

  /** Search Console data lags by about three days. */
  const DataLagDays: int := 3

  /** The default report window, in days. */
  const WindowDays: int := 28

  /** An inclusive range of day numbers. */
  datatype DateRange = DateRange(start: int, end: int)

  /** `lo <= d < hi`, named so that the set comprehension in `Days` and the proofs about it have a term to match on. */
  predicate Within(lo: int, hi: int, d: int)
  {
    lo <= d < hi
  }

  /** The days `lo`, `lo + 1`, ..., `hi - 1`. */
  function Days(lo: int, hi: int): set<int>
  {
    set d | lo <= d < hi && Within(lo, hi, d)
  }

  function DaysIn(r: DateRange): set<int>
  {
    Days(r.start, r.end + 1)
  }

  /** `_default_date_range`, over day numbers. */
  function DefaultDateRange(today: int): (r: DateRange)
    ensures r.end == today - DataLagDays
    ensures r.start <= r.end
  {
    var end := today - 3;
    DateRange(end - 27, end)
  }

  lemma {:induction false} DayCount(first: int, n: nat)
    ensures |Days(first, first + n)| == n
  {
    if n > 0 {
      var last := first + n - 1;
      var earlier := Days(first, last);
      DayCount(first, n - 1);
      assert last !in earlier;
      assert Days(first, first + n) == earlier + {last} by {
        forall d ensures d in Days(first, first + n) <==> d in earlier || d == last {
          assert Within(first, first + n, d) <==> Within(first, last, d) || d == last;
        }
      }
    }
  }

  /** The default window holds 28 days and ends three days before today. */
  lemma DefaultWindowDays(today: int)
    ensures |DaysIn(DefaultDateRange(today))| == WindowDays
    ensures forall d :: d in DaysIn(DefaultDateRange(today)) ==> d <= today - DataLagDays
    ensures today - DataLagDays in DaysIn(DefaultDateRange(today))
  {
    var r := DefaultDateRange(today);
    DayCount(r.start, 28);
  }

  /** A tool's date arguments: both given (non-empty), or else the default window for both. */
  function ResolveDates(startArg: Option<string>, endArg: Option<string>, today: int, isoformat: int -> string)
    : (r: (string, string))
    ensures startArg.GetOr("") != "" && endArg.GetOr("") != "" ==> r == (startArg.value, endArg.value)
    ensures startArg.GetOr("") == "" || endArg.GetOr("") == "" ==>
              r == (isoformat(today - DataLagDays - (WindowDays - 1)), isoformat(today - DataLagDays))
  {
    if startArg.GetOr("") == "" || endArg.GetOr("") == "" then
      var window := DefaultDateRange(today);
      (isoformat(window.start), isoformat(window.end))
    else (startArg.value, endArg.value)
  }

  // ---------------------------------------------------------------------------
  // Dimensions and limits
  // ---------------------------------------------------------------------------

  /** `[d.strip() for d in pieces if d.strip()]`. */
  function KeptDimensions(pieces: seq<string>, sep: char): (dims: seq<string>)
    requires forall i :: 0 <= i < |pieces| ==> sep !in pieces[i]
    ensures |dims| <= |pieces|
    ensures forall i :: 0 <= i < |dims| ==> dims[i] != "" && IsStripped(dims[i]) && sep !in dims[i]
  {
    if pieces == [] then []
    else
      var d := Strip(pieces[0]);
      StripKeepsAbsent(pieces[0], sep);
      var rest := pieces[1..];
      assert forall i :: 0 <= i < |rest| ==> sep !in rest[i];
      var kept := KeptDimensions(rest, sep);
      if d == "" then kept
      else
        var dims := [d] + kept;
        assert forall i :: 1 <= i < |dims| ==> dims[i] == kept[i - 1];
        dims
  }

  /** Every piece strips to the empty string: the case `if not dims` of `gsc_search_analytics`. */
  predicate AllBlank(pieces: seq<string>)
  {
    forall i :: 0 <= i < |pieces| ==> Strip(pieces[i]) == ""
  }

  lemma AllBlankCons(pieces: seq<string>)
    requires pieces != []
    ensures AllBlank(pieces) <==> Strip(pieces[0]) == "" && AllBlank(pieces[1..])
  {
    assert forall i :: 1 <= i < |pieces| ==> pieces[i] == pieces[1..][i - 1];
  }

  lemma KeptDimensionsCons(pieces: seq<string>, sep: char)
    requires pieces != [] && forall i :: 0 <= i < |pieces| ==> sep !in pieces[i]
    ensures KeptDimensions(pieces, sep) == [] <==> Strip(pieces[0]) == "" && KeptDimensions(pieces[1..], sep) == []
  {
  }

  /** Nothing is kept exactly when every piece strips to the empty string (is all whitespace, by `Strip`'s contract). */
  lemma {:induction false} KeptDimensionsEmpty(pieces: seq<string>, sep: char)
    requires forall i :: 0 <= i < |pieces| ==> sep !in pieces[i]
    ensures KeptDimensions(pieces, sep) == [] <==> AllBlank(pieces)
  {
    if pieces != [] {
      KeptDimensionsCons(pieces, sep);
      AllBlankCons(pieces);
      KeptDimensionsEmpty(pieces[1..], sep);
    }
  }

  /** The comma-split pieces of `arg`, stripped, with the empty ones dropped. */
  function SplitDimensions(arg: string): (dims: seq<string>)
    ensures forall i :: 0 <= i < |dims| ==> dims[i] != "" && IsStripped(dims[i]) && ',' !in dims[i]
  {
    KeptDimensions(Split(arg, ','), ',')
  }

  /** The dimension used when none is given. */
  const DefaultDimension: string := "query"

  lemma DefaultDimensionShape()
    ensures DefaultDimension != "" && IsStripped(DefaultDimension) && ',' !in DefaultDimension
  {
  }

  /** The comma-separated `dimensions` argument of `gsc_search_analytics`, defaulting to `["query"]`. */
  function ParseDimensions(arg: string): (dims: seq<string>)
    ensures dims != []
    ensures SplitDimensions(arg) == [] ==> dims == [DefaultDimension]
    ensures SplitDimensions(arg) != [] ==> dims == SplitDimensions(arg)
    ensures forall i :: 0 <= i < |dims| ==> dims[i] != "" && IsStripped(dims[i]) && ',' !in dims[i]
  {
    var kept := SplitDimensions(arg);
    if |kept| == 0 then
      DefaultDimensionShape();
      [DefaultDimension]
    else kept
  }

  /** `["query"]` is used exactly when every comma-separated piece of the argument is blank. */
  lemma ParseDimensionsDefault(arg: string)
    ensures SplitDimensions(arg) == [] <==> AllBlank(Split(arg, ','))
    ensures AllBlank(Split(arg, ',')) ==> ParseDimensions(arg) == [DefaultDimension]
  {
    KeptDimensionsEmpty(Split(arg, ','), ',');
  }

  lemma {:induction false} KeptDimensionsOfStripped(dims: seq<string>, sep: char)
    requires forall i :: 0 <= i < |dims| ==> dims[i] != "" && IsStripped(dims[i]) && sep !in dims[i]
    ensures KeptDimensions(dims, sep) == dims
  {
    if dims != [] {
      StripSurrounded([], dims[0], []);
      assert [] + dims[0] + [] == dims[0];
      KeptDimensionsOfStripped(dims[1..], sep);
      assert dims == [dims[0]] + dims[1..];
    }
  }

  /** Joining a dimension list with commas and parsing it gives the list back. */
  lemma ParseDimensionsOfJoin(dims: seq<string>)
    requires dims != []
    requires forall i :: 0 <= i < |dims| ==> dims[i] != "" && IsStripped(dims[i]) && ',' !in dims[i]
    ensures ParseDimensions(Join(dims, ",")) == dims
  {
    SplitJoin(dims, ',');
    assert [','] == ",";
    KeptDimensionsOfStripped(dims, ',');
  }

  /** The non-empty strings of `ds`, in order: a reference filter independent of `strip`. */
  function NonEmptyOf(ds: seq<string>): (r: seq<string>)
    ensures |r| <= |ds|
    ensures forall k :: 0 <= k < |r| ==> r[k] != "" && r[k] in ds
    ensures forall i :: 0 <= i < |ds| && ds[i] != "" ==> ds[i] in r
  {
    if ds == [] then []
    else
      var rest := NonEmptyOf(ds[1..]);
      assert forall i :: 1 <= i < |ds| ==> ds[i] == ds[1..][i - 1];
      (if ds[0] != "" then [ds[0]] else []) + rest
  }

  /** The pieces `lead[i] + ds[i] + trail[i]`. */
  function Padded(lead: seq<string>, ds: seq<string>, trail: seq<string>): seq<string>
    requires |lead| == |ds| == |trail|
  {
    seq(|ds|, i requires 0 <= i < |ds| => lead[i] + ds[i] + trail[i])
  }

  /** Pieces made of stripped dimensions with blank padding. */
  predicate PaddedPieces(lead: seq<string>, ds: seq<string>, trail: seq<string>)
  {
    |lead| == |ds| == |trail|
    && (forall i :: 0 <= i < |ds| ==> AllSpace(lead[i]) && AllSpace(trail[i]))
    && (forall i :: 0 <= i < |ds| ==> IsStripped(ds[i]) && ',' !in ds[i])
  }

  lemma BlankHasNoComma(s: string)
    requires AllSpace(s)
    ensures ',' !in s
  {
  }

  lemma PaddedHasNoComma(lead: seq<string>, ds: seq<string>, trail: seq<string>)
    requires PaddedPieces(lead, ds, trail)
    ensures forall i :: 0 <= i < |ds| ==> ',' !in Padded(lead, ds, trail)[i]
  {
    forall i | 0 <= i < |ds| ensures ',' !in Padded(lead, ds, trail)[i] {
      BlankHasNoComma(lead[i]);
      BlankHasNoComma(trail[i]);
    }
  }

  /** Stripping blank-padded pieces and dropping the empty ones keeps exactly the non-empty dimensions, in order. */
  lemma {:induction false} KeptDimensionsOfPadded(lead: seq<string>, ds: seq<string>, trail: seq<string>)
    requires PaddedPieces(lead, ds, trail)
    ensures forall i :: 0 <= i < |ds| ==> ',' !in Padded(lead, ds, trail)[i]
    ensures KeptDimensions(Padded(lead, ds, trail), ',') == NonEmptyOf(ds)
  {
    PaddedHasNoComma(lead, ds, trail);
    if ds != [] {
      var pieces := Padded(lead, ds, trail);
      PaddedTail(lead, ds, trail);
      StripSurrounded(lead[0], ds[0], trail[0]);
      KeptDimensionsOfPadded(lead[1..], ds[1..], trail[1..]);
      assert KeptDimensions(pieces, ',') == (if ds[0] != "" then [ds[0]] else []) + KeptDimensions(pieces[1..], ',');
    }
  }

  lemma PaddedTail(lead: seq<string>, ds: seq<string>, trail: seq<string>)
    requires PaddedPieces(lead, ds, trail) && ds != []
    ensures PaddedPieces(lead[1..], ds[1..], trail[1..])
    ensures Padded(lead, ds, trail)[0] == lead[0] + ds[0] + trail[0]
    ensures Padded(lead, ds, trail)[1..] == Padded(lead[1..], ds[1..], trail[1..])
  {
  }

  /**
   * `gsc_search_analytics` on `", ".join`-style input: the comma-joined
   * pieces `lead[i] + ds[i] + trail[i]` parse to the non-empty `ds[i]` in
   * order, or to `["query"]` when every `ds[i]` is empty.
   */
  lemma ParseDimensionsOfPadded(lead: seq<string>, ds: seq<string>, trail: seq<string>)
    requires |ds| >= 1 && PaddedPieces(lead, ds, trail)
    ensures ParseDimensions(Join(Padded(lead, ds, trail), ","))
            == if NonEmptyOf(ds) == [] then [DefaultDimension] else NonEmptyOf(ds)
  {
    KeptDimensionsOfPadded(lead, ds, trail);
    SplitJoin(Padded(lead, ds, trail), ',');
    assert [','] == ",";
  }

  /** `max(lo, min(n, hi))`. */
  function Clamp(n: int, lo: int, hi: int): (r: int)
    requires lo <= hi
    ensures lo <= r <= hi
    ensures lo <= n <= hi ==> r == n
    ensures n < lo ==> r == lo
    ensures n > hi ==> r == hi
  {
    var capped := if n < hi then n else hi;
    if lo > capped then lo else capped
  }

  /** `row_limit` bound of `gsc_search_analytics`. */
  const MaxRows: int := 1000

  /** `limit` bound of `gsc_top_queries` and `gsc_top_pages`. */
  const MaxTopLimit: int := 200

  /** `max_count` cap of the Bing tools. */
  const MaxBingCount: int := 500

  /** `min(limit, 500)`: the Bing tools cap the count from above only. */
  function BingMaxCount(limit: int): (r: int)
    ensures r <= MaxBingCount
    ensures limit <= MaxBingCount ==> r == limit
    ensures limit > MaxBingCount ==> r == MaxBingCount
  {
    if limit < MaxBingCount then limit else MaxBingCount
  }

  /** The request `gsc_search_analytics` sends. */
  function SearchAnalyticsRequest(startDate: string, endDate: string, dimensionsArg: string, rowLimit: int)
    : (p: GscClient.SearchAnalyticsPayload)
    ensures 1 <= p.rowLimit <= MaxRows
    ensures 1 <= rowLimit <= MaxRows ==> p.rowLimit == rowLimit
    ensures p.rowLimit == Clamp(rowLimit, 1, MaxRows)
    ensures p.dimensions == ParseDimensions(dimensionsArg) && p.dimensions != []
    ensures p.startDate == startDate && p.endDate == endDate
    ensures p.startRow == 0 && p.aggregationType == "auto" && p.dimensionFilterGroups.None?
  {
    GscClient.QueryPayload(startDate, endDate, Some(ParseDimensions(dimensionsArg)), Clamp(rowLimit, 1, MaxRows), 0, None, "auto")
  }

  /** The request `gsc_top_queries` (`dimension` = "query") and `gsc_top_pages` (`dimension` = "page") send. */
  function TopReportRequest(
    dimension: string, startArg: Option<string>, endArg: Option<string>, today: int,
    isoformat: int -> string, limit: int)
    : (p: GscClient.SearchAnalyticsPayload)
    ensures 1 <= p.rowLimit <= MaxTopLimit
    ensures 1 <= limit <= MaxTopLimit ==> p.rowLimit == limit
    ensures p.rowLimit == Clamp(limit, 1, MaxTopLimit)
    ensures p.dimensions == [dimension]
    ensures (p.startDate, p.endDate) == ResolveDates(startArg, endArg, today, isoformat)
    ensures p.startRow == 0 && p.aggregationType == "auto" && p.dimensionFilterGroups.None?
  {
    var (startDate, endDate) := ResolveDates(startArg, endArg, today, isoformat);
    GscClient.QueryPayload(startDate, endDate, Some([dimension]), Clamp(limit, 1, MaxTopLimit), 0, None, "auto")
  }

  // ---------------------------------------------------------------------------
  // Row formatting
  // ---------------------------------------------------------------------------

  /** A Search Analytics row; a missing field is `None`. */
  datatype GscRow = GscRow(keys: Option<seq<string>>, clicks: Option<int>, impressions: Option<int>)

  /** A formatted row: one entry per requested dimension, and the counts. */
  datatype FormattedRow = FormattedRow(dimensions: map<string, Option<string>>, clicks: int, impressions: int)

  /** `keys[i] if i < len(keys) else None`. */
  function KeyAt(keys: seq<string>, i: nat): Option<string>
  {
    if i < |keys| then Some(keys[i]) else None
  }

  /** The dimension entries the inner loop writes, in order; a repeated dimension keeps its last value. */
  function DimensionValues(keys: seq<string>, dims: seq<string>): map<string, Option<string>>
  {
    if dims == [] then map[]
    else DimensionValues(keys, dims[..|dims| - 1])[dims[|dims| - 1] := KeyAt(keys, |dims| - 1)]
  }

  function FormatRow(row: GscRow, dims: seq<string>): FormattedRow
  {
    FormattedRow(DimensionValues(row.keys.GetOr([]), dims), row.clicks.GetOr(0), row.impressions.GetOr(0))
  }

  /** A formatted row has an entry for exactly the requested dimensions. */
  lemma {:induction false} DimensionValuesKeys(keys: seq<string>, dims: seq<string>)
    ensures DimensionValues(keys, dims).Keys == set d | d in dims
  {
    if dims != [] {
      DimensionValuesKeys(keys, dims[..|dims| - 1]);
      assert dims == dims[..|dims| - 1] + [dims[|dims| - 1]];
    }
  }

  /** Dimension `i` is `keys[i]` when there is one and `None` otherwise (unless a later dimension repeats the name). */
  lemma {:induction false} DimensionValueAt(keys: seq<string>, dims: seq<string>, i: nat)
    requires i < |dims|
    requires forall j :: i < j < |dims| ==> dims[j] != dims[i]
    ensures dims[i] in DimensionValues(keys, dims)
    ensures DimensionValues(keys, dims)[dims[i]] == KeyAt(keys, i)
  {
    if i < |dims| - 1 {
      var init := dims[..|dims| - 1];
      DimensionValueAt(keys, init, i);
    }
  }

  /** `_format_gsc_rows`, leaving out the floating-point `ctr` and `position`. */
  method FormatGscRows(rows: seq<GscRow>, dims: seq<string>) returns (result: seq<FormattedRow>)
    ensures |result| == |rows|
    ensures forall k :: 0 <= k < |rows| ==> result[k] == FormatRow(rows[k], dims)
  {
    result := [];
    var r := 0;
    while r < |rows|
      invariant 0 <= r <= |rows| && |result| == r
      invariant forall k :: 0 <= k < r ==> result[k] == FormatRow(rows[k], dims)
    {
      var row := rows[r];
      var keys := row.keys.GetOr([]);
      var item: map<string, Option<string>> := map[];
      var i := 0;
      while i < |dims|
        invariant 0 <= i <= |dims|
        invariant item == DimensionValues(keys, dims[..i])
      {
        item := item[dims[i] := if i < |keys| then Some(keys[i]) else None];
        assert dims[..i + 1][..i] == dims[..i];
        i := i + 1;
      }
      assert dims[..i] == dims;
      result := result + [FormattedRow(item, row.clicks.GetOr(0), row.impressions.GetOr(0))];
      r := r + 1;
    }
  }

  // ---------------------------------------------------------------------------
  // Bing keywords
  // ---------------------------------------------------------------------------

  /** A formatted Bing keyword row. */
  datatype KeywordRow = KeywordRow(query: string, impressions: int, clicks: int, avgClickPosition: real)

  predicate ClicksDescending(rows: seq<KeywordRow>)
  {
    forall i, j :: 0 <= i < j < |rows| ==> rows[i].clicks >= rows[j].clicks
  }

  /** `formatted.sort(key=clicks, reverse=True)`, as an insertion sort. */
  method SortKeywordsByClicks(a: array<KeywordRow>)
    modifies a
    ensures ClicksDescending(a[..])
    ensures multiset(a[..]) == old(multiset(a[..]))
  {
    var i := 0;
    while i < a.Length
      invariant 0 <= i <= a.Length
      invariant ClicksDescending(a[..i])
      invariant multiset(a[..]) == old(multiset(a[..]))
    {
      InsertKeyword(a, i);
      i := i + 1;
    }
    assert a[..a.Length] == a[..];
  }

  /** `rows[..hi + 1]` is in non-increasing clicks once the row at `j` is set aside. */
  predicate DescendingExcept(rows: seq<KeywordRow>, hi: int, j: int)
    requires hi < |rows|
  {
    forall p, q :: 0 <= p < q <= hi && p != j && q != j ==> rows[p].clicks >= rows[q].clicks
  }

  /** The row at `j` has at least the clicks of every row after it up to `hi`. */
  predicate LeadsUpTo(rows: seq<KeywordRow>, j: int, hi: int)
    requires 0 <= j <= hi < |rows|
  {
    forall q :: j < q <= hi ==> rows[j].clicks >= rows[q].clicks
  }

  /** Swapping the moving row with a predecessor of fewer clicks keeps both facts, one place lower. */
  lemma SwapStep(rows: seq<KeywordRow>, j: int, hi: int)
    requires 0 < j <= hi < |rows|
    requires DescendingExcept(rows, hi, j) && LeadsUpTo(rows, j, hi)
    requires rows[j - 1].clicks < rows[j].clicks
    ensures DescendingExcept(rows[j - 1 := rows[j]][j := rows[j - 1]], hi, j - 1)
    ensures LeadsUpTo(rows[j - 1 := rows[j]][j := rows[j - 1]], j - 1, hi)
  {
  }

  /** Swapping two neighbours keeps the same rows. */
  lemma SwapKeepsRows(rows: seq<KeywordRow>, j: int)
    requires 0 < j < |rows|
    ensures multiset(rows[j - 1 := rows[j]][j := rows[j - 1]]) == multiset(rows)
  {
  }

  /** Swapping two neighbours inside `rows[..hi + 1]` keeps its rows and leaves the rest alone. */
  lemma SwapKeepsPrefix(rows: seq<KeywordRow>, j: int, hi: int)
    requires 0 < j <= hi < |rows|
    ensures multiset(rows[j - 1 := rows[j]][j := rows[j - 1]][..hi + 1]) == multiset(rows[..hi + 1])
    ensures rows[j - 1 := rows[j]][j := rows[j - 1]][hi + 1..] == rows[hi + 1..]
  {
    var prefix := rows[..hi + 1];
    assert rows[j - 1 := rows[j]][j := rows[j - 1]][..hi + 1] == prefix[j - 1 := prefix[j]][j := prefix[j - 1]];
    SwapKeepsRows(prefix, j);
  }

  /** The moving row in place: the prefix up to `hi` is sorted. */
  lemma SettledStep(rows: seq<KeywordRow>, j: int, hi: int)
    requires 0 <= j <= hi < |rows|
    requires DescendingExcept(rows, hi, j) && LeadsUpTo(rows, j, hi)
    requires j == 0 || rows[j - 1].clicks >= rows[j].clicks
    ensures ClicksDescending(rows[..hi + 1])
  {
  }

  /** Moves `a[i]` down into the sorted prefix `a[..i]`, by adjacent swaps. */
  method InsertKeyword(a: array<KeywordRow>, i: int)
    requires 0 <= i < a.Length
    requires ClicksDescending(a[..i])
    modifies a
    ensures ClicksDescending(a[..i + 1])
    ensures multiset(a[..]) == old(multiset(a[..]))
    ensures multiset(a[..i + 1]) == old(multiset(a[..i + 1]))
    ensures a[i + 1..] == old(a[i + 1..])
  {
    var j := i;
    while j > 0 && a[j - 1].clicks < a[j].clicks
      invariant 0 <= j <= i
      invariant DescendingExcept(a[..], i, j) && LeadsUpTo(a[..], j, i)
      invariant multiset(a[..]) == old(multiset(a[..]))
      invariant multiset(a[..i + 1]) == old(multiset(a[..i + 1]))
      invariant a[i + 1..] == old(a[i + 1..])
    {
      ghost var before := a[..];
      SwapStep(before, j, i);
      a[j - 1], a[j] := a[j], a[j - 1];
      assert a[..] == before[j - 1 := before[j]][j := before[j - 1]];
      SwapKeepsRows(before, j);
      SwapKeepsPrefix(before, j, i);
      j := j - 1;
    }
    SettledStep(a[..], j, i);
  }

  // ---------------------------------------------------------------------------
  // Sitemaps and URL inspection
  // ---------------------------------------------------------------------------

  /** One `contents` entry of a sitemap; a missing `submitted` is `None`. */
  datatype SitemapContent = SitemapContent(submitted: Option<int>)

  /** `sum(c.get("submitted", 0) for c in contents)`. */
  function UrlCount(contents: seq<SitemapContent>): (n: int)
    ensures (forall i :: 0 <= i < |contents| ==> contents[i].submitted.GetOr(0) >= 0) ==> n >= 0
  {
    if contents == [] then 0 else contents[0].submitted.GetOr(0) + UrlCount(contents[1..])
  }

  /** One entry counts its `submitted`, or 0 without one; with `UrlCountAppend` this fixes every count. */
  lemma UrlCountSingle(c: SitemapContent)
    ensures UrlCount([c]) == c.submitted.GetOr(0)
  {
    assert [c][1..] == [];
  }

  lemma {:induction false} UrlCountAppend(a: seq<SitemapContent>, b: seq<SitemapContent>)
    ensures UrlCount(a + b) == UrlCount(a) + UrlCount(b)
  {
    if a == [] {
      assert a + b == b;
    } else {
      assert (a + b)[0] == a[0];
      assert (a + b)[1..] == a[1..] + b;
      UrlCountAppend(a[1..], b);
    }
  }

  /** An entry without `submitted` adds nothing to the count. */
  lemma UrlCountIgnoresMissing(a: seq<SitemapContent>, b: seq<SitemapContent>)
    ensures UrlCount(a + [SitemapContent(None)] + b) == UrlCount(a + b)
  {
    UrlCountAppend(a + [SitemapContent(None)], b);
    UrlCountAppend(a, [SitemapContent(None)]);
    UrlCountAppend(a, b);
  }

  /** How many referring URLs an inspection summary keeps. */
  const MaxReferringUrls: nat := 5

  /** `index_result.get("referringUrls", [])[:5]`. */
  function ReferringUrls(urls: Option<seq<string>>): (r: seq<string>)
    ensures |r| <= MaxReferringUrls && |r| <= |urls.GetOr([])|
    ensures r == urls.GetOr([])[..|r|]
    ensures |urls.GetOr([])| <= MaxReferringUrls ==> r == urls.GetOr([])
    ensures |urls.GetOr([])| > MaxReferringUrls ==> |r| == MaxReferringUrls
  {
    Take(urls.GetOr([]), MaxReferringUrls)
  }

  // ---------------------------------------------------------------------------
  // Session refresh
  // ---------------------------------------------------------------------------

  /**
   * `refresh_google_session`: clear the cache, then fetch with
   * `force_refresh`. A failed refresh leaves the cache empty.
   */
  method RefreshGoogleSession(cache: CookieCache, now: real, read: ChromeRead) returns (r: Result<CookieMap, CookieError>)
    requires cache.Valid()
    modifies cache
    ensures r == FetchCookies(read)
    ensures cache.Entry() == (if r.Success? then Stored(r.value, now) else Cleared)
    ensures cache.Valid()
  {
    cache.ClearCookieCache();
    r := cache.GetGoogleCookies(true, now, read);
  }
}
