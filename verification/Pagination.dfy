/** How the test report spreads its result rows over pages. */
module Pagination {
  import opened Common
  import DeviceStore

  const RESULTS_SPACE_FIRST_PAGE := 440
  const RESULTS_SPACE := 800

  /** One result as the report shows it; the height is written while paging. */
  class ResultRow {
    const description: string
    const details: string
    var height: Option<int>

    constructor (description: string, details: string)
      ensures this.description == description && this.details == details && height == None
    {
      this.description, this.details, height := description, details, None;
    }
  }

  function DetailsHeight(text: string): nat {
    CeilDiv(|text|, 45) * 14 + 12
  }

  function TextLineHeight(text: string): int {
    40 + 15 * (CeilDiv(|text|, 52) - 1)
  }

  /** The height a row takes on a page. */
  function RowHeight(r: ResultRow): (h: nat)
    ensures h >= 25
  {
    TextLineHeight(r.description) + if r.details != "" then DetailsHeight(r.details) else 0
  }

  /** The height written into the row: only descriptions of more than one line get one. */
  function WrittenHeight(r: ResultRow): Option<int> {
    if TextLineHeight(r.description) > 40 then Some(TextLineHeight(r.description)) else None
  }

  function FirstPageSpace(titleLength: nat): int {
    var lines := titleLength / 25 + if titleLength % 25 > 0 then 1 else 0;
    if lines > 1 then RESULTS_SPACE_FIRST_PAGE - (lines - 1) * 60 else RESULTS_SPACE_FIRST_PAGE
  }

  /** The height of a row, by the lines of its description and of its details: 15 a line of description and
      25 more; details, if there are any, 14 a line and 12 more. */
  lemma RowHeightIs(r: ResultRow, lines: nat, detailLines: nat)
    requires Fills(|r.description|, 52, lines) && Fills(|r.details|, 45, detailLines)
    ensures RowHeight(r) == 25 + 15 * lines + if r.details == "" then 0 else 12 + 14 * detailLines
  {
  }

  /** The height written into a row is that of its description alone, and only if it has more than one line. */
  lemma WrittenHeightIs(r: ResultRow, lines: nat)
    requires Fills(|r.description|, 52, lines)
    ensures WrittenHeight(r) == if lines > 1 then Some(25 + 15 * lines) else None
  {
  }

  /** Every line of the title after the first, of 25 characters, takes 60 off the first page. */
  lemma FirstPageSpaceIs(titleLength: nat, lines: nat)
    requires Fills(titleLength, 25, lines)
    ensures FirstPageSpace(titleLength) == if lines == 0 then 440 else 500 - 60 * lines
  {
  }

  // ---------------------------------------------------------------------
  // Sums of heights
  // ---------------------------------------------------------------------

  function Total(rows: seq<ResultRow>): nat {
    if rows == [] then 0 else RowHeight(rows[0]) + Total(rows[1..])
  }

  lemma {:induction false} TotalConcat(a: seq<ResultRow>, b: seq<ResultRow>)
    ensures Total(a + b) == Total(a) + Total(b)
    decreases |a|
  {
    if a == [] {
      assert a + b == b;
    } else {
      assert (a + b)[1..] == a[1..] + b;
      TotalConcat(a[1..], b);
    }
  }

  lemma TotalSnoc(rows: seq<ResultRow>, r: ResultRow)
    ensures Total(rows + [r]) == Total(rows) + RowHeight(r)
  {
    TotalConcat(rows, [r]);
    assert Total([r]) == RowHeight(r) + Total([]);
  }

  /** A prefix takes no more room than the whole. */
  lemma TotalPrefix(rows: seq<ResultRow>, n: nat)
    requires n <= |rows|
    ensures Total(rows[..n]) <= Total(rows)
  {
    TotalConcat(rows[..n], rows[n..]);
    assert rows == rows[..n] + rows[n..];
  }

  /** The lines of every row: of its description, and of its details. */
  ghost predicate Measured(rows: seq<ResultRow>, lines: seq<(nat, nat)>) {
    |lines| == |rows| && forall i | 0 <= i < |rows| ::
      Fills(|rows[i].description|, 52, lines[i].0) && Fills(|rows[i].details|, 45, lines[i].1)
  }

  /** The height of rows of so many lines of description and of details. */
  function HeightOfLines(lines: seq<(nat, nat)>): nat {
    if lines == [] then 0
    else 25 + 15 * lines[0].0 + (if lines[0].1 == 0 then 0 else 12 + 14 * lines[0].1) + HeightOfLines(lines[1..])
  }

  /** The room that rows take is that of their lines. */
  lemma {:induction false} TotalByLines(rows: seq<ResultRow>, lines: seq<(nat, nat)>)
    requires Measured(rows, lines)
    ensures Total(rows) == HeightOfLines(lines)
    decreases |rows|
  {
    hide RowHeight, Fills;
    if rows != [] {
      RowHeightIs(rows[0], lines[0].0, lines[0].1);
      NoDetailLines(rows[0], lines[0].1);
      TotalByLines(rows[1..], lines[1..]);
    }
  }

  lemma NoDetailLines(r: ResultRow, detailLines: nat)
    requires Fills(|r.details|, 45, detailLines)
    ensures detailLines == 0 <==> r.details == ""
  {
  }

  // ---------------------------------------------------------------------
  // One page
  // ---------------------------------------------------------------------

  /** How many rows fit at the front of the list when `used` is already taken. */
  function Fitting(rows: seq<ResultRow>, space: int, used: int): (n: nat)
    ensures n <= |rows|
    decreases |rows|
  {
    if rows == [] || used + RowHeight(rows[0]) > space then 0
    else 1 + Fitting(rows[1..], space, used + RowHeight(rows[0]))
  }

  lemma {:induction false} FittingIs(rows: seq<ResultRow>, space: int, used: int)
    ensures var n := Fitting(rows, space, used);
            && (n > 0 ==> used + Total(rows[..n]) <= space)
            && (n < |rows| ==> used + Total(rows[..n]) + RowHeight(rows[n]) > space)
    decreases |rows|
  {
    var n := Fitting(rows, space, used);
    if n > 0 {
      FittingIs(rows[1..], space, used + RowHeight(rows[0]));
      assert rows[..n] == [rows[0]] + rows[1..][..n - 1];
      if n == 1 {
        assert rows[1..][..0] == [];
      }
    }
  }

  /** The front of the list that fits is the longest that does. */
  lemma FittingIsLongest(rows: seq<ResultRow>, space: int, n: nat)
    requires n <= |rows| && Total(rows[..n]) <= space
    ensures n <= Fitting(rows, space, 0)
  {
    var k := Fitting(rows, space, 0);
    FittingIs(rows, space, 0);
    if k < n {
      assert rows[..n][..k + 1] == rows[..k] + [rows[k]];
      TotalSnoc(rows[..k], rows[k]);
      TotalPrefix(rows[..n], k + 1);
    }
  }

  lemma FittingNext(rows: seq<ResultRow>, space: int, used: int)
    requires rows != []
    ensures Fitting(rows, space, used) ==
      if used + RowHeight(rows[0]) > space then 0 else 1 + Fitting(rows[1..], space, used + RowHeight(rows[0]))
  {
    hide RowHeight;
  }

  lemma FittingEnds(space: int)
    ensures Total([]) == 0 && forall used :: Fitting([], space, used) == 0
  {
  }

  lemma HeightsOf(r: ResultRow)
    ensures RowHeight(r) == TextLineHeight(r.description) + if r.details != "" then DetailsHeight(r.details) else 0
    ensures WrittenHeight(r) == if TextLineHeight(r.description) > 40 then Some(TextLineHeight(r.description)) else None
  {
    hide TextLineHeight, DetailsHeight;
  }

  /** The list of results that both paging methods take rows off. */
  class ResultList {
    var rows: seq<ResultRow>

    constructor (rows: seq<ResultRow>)
      ensures this.rows == rows
    {
      this.rows := rows;
    }

    /** `_gen_result_page`: takes rows off the front of the list while they fit, and notes the
        height of every row it looks at, including the one that did not fit. */
    method GenResultPage(space: int) returns (page: seq<ResultRow>)
      modifies this, rows
      ensures page == old(rows)[..Fitting(old(rows), space, 0)]
      ensures rows == old(rows)[Fitting(old(rows), space, 0)..]
      ensures forall r | r in old(rows) :: r.height == old(r.height) || r.height == WrittenHeight(r)
      ensures forall r | r in page && WrittenHeight(r).Some? :: r.height == WrittenHeight(r)
    {
      hide CeilDiv, DetailsHeight, TextLineHeight, Fitting, Total, RowHeight, WrittenHeight;
      page := [];
      var pageSpace := 0;
      ghost var all, i := rows, 0;
      FittingEnds(space);
      while rows != []
        invariant 0 <= i <= |all| && page == all[..i] && rows == all[i..]
        invariant pageSpace == Total(page)
        invariant Fitting(all, space, 0) == i + Fitting(rows, space, pageSpace)
        invariant forall r | r in all :: r.height == old(r.height) || r.height == WrittenHeight(r)
        invariant forall r | r in page && WrittenHeight(r).Some? :: r.height == WrittenHeight(r)
      {
        var result := rows[0];
        assert result == all[i];
        var lineHeight := TextLineHeight(result.description);
        if lineHeight > 40 {
          result.height := Some(lineHeight);
        }
        if result.details != "" {
          lineHeight := lineHeight + DetailsHeight(result.details);
        }
        HeightsOf(result);
        assert lineHeight == RowHeight(result);
        FittingNext(rows, space, pageSpace);
        pageSpace := pageSpace + lineHeight;
        if pageSpace > space {
          break;
        }
        TotalSnoc(page, result);
        assert all[..i + 1] == all[..i] + [result] && rows[1..] == all[i + 1..];
        page, rows, i := page + [result], rows[1..], i + 1;
      }
    }

    /** `_generate_result_pages`, for at most `turns` turns of its loop. The list ends up with the
        rows that are on no page. */
    method GenerateResultPages(titleLength: nat, turns: nat) returns (pages: seq<seq<ResultRow>>)
      modifies this, rows
      ensures Paging(pages, rows) == Pages(titleLength, old(rows), turns)
      ensures forall i, r | 0 <= i < |pages| && r in pages[i] && WrittenHeight(r).Some? :: r.height == WrittenHeight(r)
    {
      hide RowHeight, Fitting, FirstPageSpace, WrittenHeight;
      ghost var all := rows;
      var page := GenResultPage(FirstPageSpace(titleLength));
      pages := [page];
      var left := turns;
      while rows != [] && left > 0
        invariant 0 <= left <= turns
        invariant Paging(pages, rows) == Pages(titleLength, all, turns - left)
        invariant forall i | 0 <= i < |rows| :: rows[i] in all
        invariant forall i, r | 0 <= i < |pages| && r in pages[i] && WrittenHeight(r).Some? :: r.height == WrittenHeight(r)
        decreases left
      {
        left := left - 1;
        page := GenResultPage(RESULTS_SPACE);
        pages := pages + [page];
      }
      PagesStay(titleLength, all, turns - left, turns);
    }
  }

  // ---------------------------------------------------------------------
  // All pages
  // ---------------------------------------------------------------------

  /** The pages so far and the rows still to be placed. */
  datatype Paging = Paging(pages: seq<seq<ResultRow>>, rest: seq<ResultRow>)

  /** The paging after the first page and `turns` turns of the loop. */
  function Pages(titleLength: nat, rows: seq<ResultRow>, turns: nat): Paging
    decreases turns
  {
    if turns == 0 then
      var n := Fitting(rows, FirstPageSpace(titleLength), 0);
      Paging([rows[..n]], rows[n..])
    else
      var p := Pages(titleLength, rows, turns - 1);
      if p.rest == [] then p
      else
        var n := Fitting(p.rest, RESULTS_SPACE, 0);
        Paging(p.pages + [p.rest[..n]], p.rest[n..])
  }

  /** The room on page `i`. */
  function Space(titleLength: nat, i: nat): int {
    if i == 0 then FirstPageSpace(titleLength) else RESULTS_SPACE
  }

  /** Every page that has rows has room for them. */
  ghost predicate AllFit(titleLength: nat, pages: seq<seq<ResultRow>>) {
    forall i | 0 <= i < |pages| && pages[i] != [] :: Total(pages[i]) <= Space(titleLength, i)
  }

  /** Once the list is empty, nothing changes any more. */
  lemma {:induction false} PagesStay(titleLength: nat, rows: seq<ResultRow>, k: nat, turns: nat)
    requires k <= turns && (k == turns || Pages(titleLength, rows, k).rest == [])
    ensures Pages(titleLength, rows, turns) == Pages(titleLength, rows, k)
    decreases turns
  {
    if k < turns {
      PagesStay(titleLength, rows, k, turns - 1);
    }
  }

  lemma AssocRows(a: seq<ResultRow>, rest: seq<ResultRow>, n: nat)
    requires n <= |rest|
    ensures a + rest[..n] + rest[n..] == a + rest
  {
  }

  /** No row is lost, doubled or moved, whether or not the loop is through. */
  lemma {:induction false} PagesConserve(titleLength: nat, rows: seq<ResultRow>, turns: nat)
    ensures var p := Pages(titleLength, rows, turns);
            Concatenated(p.pages) + p.rest == rows && 1 <= |p.pages| <= turns + 1
    decreases turns
  {
    hide Fitting, FirstPageSpace, Concatenated;
    if turns == 0 {
      var n := Fitting(rows, FirstPageSpace(titleLength), 0);
      ConcatenatedOne(rows[..n]);
    } else {
      PagesConserve(titleLength, rows, turns - 1);
      var q := Pages(titleLength, rows, turns - 1);
      if q.rest != [] {
        var n := Fitting(q.rest, RESULTS_SPACE, 0);
        ConcatenatedSnoc(q.pages, q.rest[..n]);
        AssocRows(Concatenated(q.pages), q.rest, n);
      }
    }
  }

  lemma ConcatenatedOne(page: seq<ResultRow>)
    ensures Concatenated([page]) == page
  {
    assert [page][..0] == [] && [] + page == page;
  }

  /** One page more that has room for its rows. */
  lemma AllFitSnoc(titleLength: nat, pages: seq<seq<ResultRow>>, page: seq<ResultRow>)
    requires AllFit(titleLength, pages)
    requires page != [] ==> Total(page) <= Space(titleLength, |pages|)
    ensures AllFit(titleLength, pages + [page])
  {
    hide Total, Space;
  }

  /** Every page fits its space. */
  lemma {:induction false} PagesFit(titleLength: nat, rows: seq<ResultRow>, turns: nat)
    ensures AllFit(titleLength, Pages(titleLength, rows, turns).pages)
    decreases turns
  {
    hide Fitting, FirstPageSpace, Total, RowHeight, AllFit;
    if turns == 0 {
      var n := Fitting(rows, FirstPageSpace(titleLength), 0);
      FittingIs(rows, FirstPageSpace(titleLength), 0);
      NonePlaced(titleLength);
      AllFitSnoc(titleLength, [], rows[..n]);
      assert [] + [rows[..n]] == [rows[..n]];
    } else {
      PagesFit(titleLength, rows, turns - 1);
      PagesConserve(titleLength, rows, turns - 1);
      var q := Pages(titleLength, rows, turns - 1);
      if q.rest != [] {
        FittingIs(q.rest, RESULTS_SPACE, 0);
        AllFitSnoc(titleLength, q.pages, q.rest[..Fitting(q.rest, RESULTS_SPACE, 0)]);
      }
    }
  }

  lemma NonePlaced(titleLength: nat)
    ensures AllFit(titleLength, [])
  {
  }

  /** Where a page ends, the next row of the list would not have fitted. */
  lemma {:induction false} PagesFull(titleLength: nat, rows: seq<ResultRow>, turns: nat)
    ensures var p := Pages(titleLength, rows, turns);
            && (forall i | 0 <= i < |p.pages| - 1 && p.pages[i + 1] != [] ::
                  Total(p.pages[i]) + RowHeight(p.pages[i + 1][0]) > Space(titleLength, i))
            && (p.rest != [] ==>
                  Total(p.pages[|p.pages| - 1]) + RowHeight(p.rest[0]) > Space(titleLength, |p.pages| - 1))
    decreases turns
  {
    hide Fitting, FirstPageSpace, Total, RowHeight, Concatenated;
    PagesConserve(titleLength, rows, turns);
    var p := Pages(titleLength, rows, turns);
    if turns == 0 {
      FittingIs(rows, FirstPageSpace(titleLength), 0);
    } else {
      PagesFull(titleLength, rows, turns - 1);
      PagesConserve(titleLength, rows, turns - 1);
      var q := Pages(titleLength, rows, turns - 1);
      if q.rest != [] {
        FittingIs(q.rest, RESULTS_SPACE, 0);
      }
    }
  }

  // ---------------------------------------------------------------------
  // Termination
  // ---------------------------------------------------------------------

  /** Rows that fit an empty page leave the list one turn at a time at least. */
  lemma {:induction false} PagesProgress(titleLength: nat, rows: seq<ResultRow>, turns: nat)
    requires forall r | r in rows :: RowHeight(r) <= RESULTS_SPACE
    ensures |Pages(titleLength, rows, turns).rest| + turns <= |rows| || Pages(titleLength, rows, turns).rest == []
    decreases turns
  {
    hide Fitting, FirstPageSpace, RowHeight, Concatenated;
    if turns > 0 {
      PagesProgress(titleLength, rows, turns - 1);
      PagesConserve(titleLength, rows, turns - 1);
      var q := Pages(titleLength, rows, turns - 1);
      if q.rest != [] {
        assert q.rest[0] == rows[|rows| - |q.rest|];
        FirstRowFits(q.rest);
      }
    }
  }

  lemma FirstRowFits(rows: seq<ResultRow>)
    requires rows != [] && RowHeight(rows[0]) <= RESULTS_SPACE
    ensures Fitting(rows, RESULTS_SPACE, 0) > 0
  {
    hide RowHeight;
  }

  lemma {:induction false} InConcatenated(pages: seq<seq<ResultRow>>, r: ResultRow)
    requires r in Concatenated(pages)
    ensures exists i | 0 <= i < |pages| :: r in pages[i]
  {
    if r in Concatenated(pages[..|pages| - 1]) {
      InConcatenated(pages[..|pages| - 1], r);
      var i :| 0 <= i < |pages| - 1 && r in pages[..|pages| - 1][i];
      assert r in pages[i];
    }
  }

  lemma {:induction false} RowInTotal(rows: seq<ResultRow>, r: ResultRow)
    requires r in rows
    ensures RowHeight(r) <= Total(rows)
  {
    if r != rows[0] {
      RowInTotal(rows[1..], r);
    }
  }

  /** A row higher than a page is never placed, so the list never becomes empty. */
  lemma TallRowStays(titleLength: nat, rows: seq<ResultRow>, r: ResultRow, turns: nat)
    requires r in rows && RowHeight(r) > RESULTS_SPACE
    ensures r in Pages(titleLength, rows, turns).rest
  {
    hide RowHeight;
    var p := Pages(titleLength, rows, turns);
    PagesConserve(titleLength, rows, turns);
    PagesFit(titleLength, rows, turns);
    if r in Concatenated(p.pages) {
      InConcatenated(p.pages, r);
      var i :| 0 <= i < |p.pages| && r in p.pages[i];
      RowInTotal(p.pages[i], r);
    }
  }

  /** The loop comes to an end if and only if no row is higher than a page. */
  lemma PagingEndsIff(titleLength: nat, rows: seq<ResultRow>)
    ensures (exists turns :: Pages(titleLength, rows, turns).rest == [])
        <==> (forall r | r in rows :: RowHeight(r) <= RESULTS_SPACE)
  {
    hide RowHeight;
    if forall r | r in rows :: RowHeight(r) <= RESULTS_SPACE {
      PagesProgress(titleLength, rows, |rows| + 1);
    } else {
      var r :| r in rows && RowHeight(r) > RESULTS_SPACE;
      forall turns: nat
        ensures Pages(titleLength, rows, turns).rest != []
      {
        TallRowStays(titleLength, rows, r, turns);
      }
    }
  }

  /** What makes a row too high, in lines of 52 characters of description and of 45 of details. */
  predicate TooLong(lines: nat, detailLines: nat) {
    if detailLines == 0 then lines > 51 else 15 * lines + 14 * detailLines > 763
  }

  /** A row is higher than a page exactly if its description and details are too long: without details the
      description has more than 51 lines, ... */
  lemma TooHighIff(r: ResultRow, lines: nat, detailLines: nat)
    requires Fills(|r.description|, 52, lines) && Fills(|r.details|, 45, detailLines)
    ensures RowHeight(r) > 800 <==> TooLong(lines, detailLines)
    ensures r.details == "" ==> (TooLong(lines, detailLines) <==> |r.description| > 2652)
  {
    RowHeightIs(r, lines, detailLines);
  }

  /** ... and then no number of turns puts it on a page. */
  lemma LongRowStalls(titleLength: nat, rows: seq<ResultRow>, r: ResultRow, lines: nat, detailLines: nat, turns: nat)
    requires r in rows && Fills(|r.description|, 52, lines) && Fills(|r.details|, 45, detailLines)
    requires TooLong(lines, detailLines)
    ensures r in Pages(titleLength, rows, turns).rest
  {
    TooHighIff(r, lines, detailLines);
    hide RowHeight;
    TallRowStays(titleLength, rows, r, turns);
  }

  /** In lines: the loop comes to an end exactly if no row is too long. */
  lemma PagingEndsByLines(titleLength: nat, rows: seq<ResultRow>, lines: seq<(nat, nat)>)
    requires Measured(rows, lines)
    ensures (exists turns :: Pages(titleLength, rows, turns).rest == [])
        <==> (forall i | 0 <= i < |rows| :: !TooLong(lines[i].0, lines[i].1))
  {
    hide RowHeight, TooLong, Fills, Pages;
    PagingEndsIff(titleLength, rows);
    forall i | 0 <= i < |rows|
      ensures RowHeight(rows[i]) > 800 <==> TooLong(lines[i].0, lines[i].1)
    {
      TooHighIff(rows[i], lines[i].0, lines[i].1);
    }
    assert forall i | 0 <= i < |rows| :: rows[i] in rows;
  }

  // ---------------------------------------------------------------------
  // Optimality
  // ---------------------------------------------------------------------

  lemma {:induction false} ConcatenatedPrefix(pages: seq<seq<ResultRow>>, k: nat)
    requires k <= |pages|
    ensures Concatenated(pages[..k]) <= Concatenated(pages)
    decreases |pages|
  {
    if k < |pages| {
      ConcatenatedPrefix(pages[..|pages| - 1], k);
      assert pages[..|pages| - 1][..k] == pages[..k];
    } else {
      assert pages[..k] == pages;
    }
  }

  /** The `k`th page of a split, as a stretch of the rows. */
  lemma SplitPage(rows: seq<ResultRow>, split: seq<seq<ResultRow>>, k: nat)
    requires Concatenated(split) == rows && k < |split|
    ensures var a, b := |Concatenated(split[..k])|, |Concatenated(split[..k + 1])|;
            a <= b <= |rows| && split[k] == rows[a..b]
  {
    ConcatenatedPrefix(split, k + 1);
    ConcatenatedSnoc(split[..k], split[k]);
    assert split[..k + 1] == split[..k] + [split[k]];
  }

  lemma Stretches(rows: seq<ResultRow>, a: nat, c: nat, b: nat)
    requires a <= c <= b <= |rows|
    ensures rows[a..b] == rows[a..c] + rows[c..b] && rows[c..][..b - c] == rows[c..b]
  {
  }

  /** The part of a fitting stretch behind `c` fits as well. */
  lemma LaterPartFits(rows: seq<ResultRow>, a: nat, c: nat, b: nat)
    requires a <= c <= b <= |rows| && Total(rows[a..b]) <= RESULTS_SPACE
    ensures b - c <= Fitting(rows[c..], RESULTS_SPACE, 0)
  {
    hide RowHeight, Total, Fitting;
    TotalConcat(rows[a..c], rows[c..b]);
    Stretches(rows, a, c, b);
    FittingIsLongest(rows[c..], RESULTS_SPACE, b - c);
  }

  /** After as many pages, first fit has placed at least as many rows as any other split. */
  lemma {:induction false} FirstFitStaysAhead(titleLength: nat, rows: seq<ResultRow>, split: seq<seq<ResultRow>>, k: nat)
    requires Concatenated(split) == rows && AllFit(titleLength, split) && k < |split|
    ensures |Concatenated(split[..k + 1])| + |Pages(titleLength, rows, k).rest| <= |rows|
    decreases k
  {
    hide RowHeight, Concatenated, Fitting, FirstPageSpace, Total;
    SplitPage(rows, split, k);
    var a, b := |Concatenated(split[..k])|, |Concatenated(split[..k + 1])|;
    if k == 0 {
      NoPages(split);
      if split[0] != [] {
        assert rows[a..b] == rows[..b];
        FittingIsLongest(rows, FirstPageSpace(titleLength), b);
      }
    } else {
      FirstFitStaysAhead(titleLength, rows, split, k - 1);
      PagesConserve(titleLength, rows, k - 1);
      var rest := Pages(titleLength, rows, k - 1).rest;
      var c := |rows| - |rest|;
      assert rest == rows[c..];
      if c < b {
        LaterPartFits(rows, a, c, b);
      }
    }
  }

  lemma NoPages(split: seq<seq<ResultRow>>)
    ensures Concatenated(split[..0]) == []
  {
  }

  /** No split of the rows into consecutive pages that fit uses fewer pages. */
  lemma PagesOptimal(titleLength: nat, rows: seq<ResultRow>, turns: nat, split: seq<seq<ResultRow>>)
    requires Pages(titleLength, rows, turns).rest == []
    requires |split| >= 1 && Concatenated(split) == rows && AllFit(titleLength, split)
    ensures |Pages(titleLength, rows, turns).pages| <= |split|
  {
    var k := |split| - 1;
    FirstFitStaysAhead(titleLength, rows, split, k);
    assert split[..k + 1] == split;
    PagesConserve(titleLength, rows, k);
    PagesConserve(titleLength, rows, turns);
    if turns >= k {
      PagesStay(titleLength, rows, k, turns);
    }
  }

  /** Manufacturer and model, with the blank between them, of a device that validation accepts leave at
      least 320 on the first page. */
  lemma FirstPageSpaceOfDevice(j: DeviceStore.DeviceJson)
    requires DeviceStore.WellFormed(j)
    ensures FirstPageSpace(|j.manufacturer.value| + |j.model.value| + 1) >= 320
  {
    hide DeviceStore.DISALLOWED;
    assert |j.manufacturer.value| + |j.model.value| + 1 <= 57;
  }
}
