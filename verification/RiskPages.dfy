/** How the risk report spreads its questions over pages. */
module RiskPages {
  import opened Common
  import opened RiskProfile

  const BLOCK_HEIGHT := 18
  const BLOCK_PADDING := 30
  const MARGIN_LIST := 14
  const MARGIN_ROW := 8
  const HEIGHT_FIRST_PAGE := 760
  const HEIGHT_PAGE := 980

  /** What is shown for an answer: its text, or the texts of the picked options. */
  datatype Shown = Sentence(text: string) | Listed(texts: seq<string>)

  /** A question ready for the page: its height, and the height that its picks add on top. */
  datatype Row = Row(question: string, shown: Shown, height: nat, extra: nat)

  /** A row with its number in the report. */
  datatype Entry = Entry(row: Row, index: nat)

  /** `len(option)`: of a plain text its letters, of a dictionary its keys. */
  function OptionLength(o: FormatOption): nat {
    match o
    case Plain(text) => |text|
    case Rated(_, risk) => if risk.Some? then 2 else 1
  }

  function OptionsHeight(options: seq<FormatOption>): nat {
    if options == [] then 0
    else CeilDiv(OptionLength(options[0]), 36) * BLOCK_HEIGHT + OptionsHeight(options[1..])
  }

  /** The texts of the picked options; a plain option has no `text` key, an unknown index no option. */
  function PickedTexts(options: seq<FormatOption>, picks: seq<Option<int>>): Result<seq<string>>
    decreases |picks|
  {
    if picks == [] then Ok([])
    else
      var o := OptionAt(options, picks[0]);
      if o.None? then Err(KeyError)
      else if o.value.Plain? then Err(TypeError)
      else
        var rest :- PickedTexts(options, picks[1..]);
        Ok([o.value.text] + rest)
  }

  function Max(a: nat, b: nat): nat {
    if a < b then b else a
  }

  function QuestionHeight(question: string): nat {
    CeilDiv(|question|, 40) * BLOCK_HEIGHT + BLOCK_PADDING + MARGIN_ROW
  }

  /** One question measured. */
  function RowOf(q: Question, format: seq<FormatQuestion>): Result<Row> {
    if q.question.None? || q.answer.None? then Err(KeyError)
    else
      var h := QuestionHeight(q.question.value);
      match q.answer.value
      case Words(text) =>
        Ok(Row(q.question.value, Sentence(text),
               Max(h, CeilDiv(|text|, 38) * BLOCK_HEIGHT + BLOCK_PADDING + MARGIN_ROW), 0))
      case Picks(picks) =>
        var f := FormatOf(format, q.question.value);
        if f.None? then Err(TypeError)
        else if f.value.options.None? then Err(KeyError)
        else
          var texts :- PickedTexts(f.value.options.value, picks);
          Ok(Row(q.question.value, Listed(texts),
                 Max(h, OptionsHeight(f.value.options.value) + BLOCK_PADDING + MARGIN_ROW + MARGIN_LIST), 40 * |picks|))
      case Other =>
        var f := FormatOf(format, q.question.value);
        if f.Some? && f.value.options.None? then Err(KeyError) else Err(TypeError)
  }

  // ---------------------------------------------------------------------
  // What a row measures
  // ---------------------------------------------------------------------

  /** A question of `questionLines` lines of 40 characters with a text of `answerLines` lines of 38: the row is
      as high as the longer of the two, 18 a line, and 38 more. */
  lemma TextRow(q: Question, format: seq<FormatQuestion>, questionLines: nat, answerLines: nat)
    requires q.question.Some? && q.answer.Some? && q.answer.value.Words?
    requires Fills(|q.question.value|, 40, questionLines) && Fills(|q.answer.value.text|, 38, answerLines)
    ensures RowOf(q, format) == Ok(Row(q.question.value, Sentence(q.answer.value.text),
      38 + 18 * (if questionLines < answerLines then answerLines else questionLines), 0))
  {
  }

  /** The lines of the options: a plain text has those of 36 characters, an option with a risk has one. */
  ghost predicate OptionLines(options: seq<FormatOption>, lines: seq<nat>) {
    |lines| == |options| && forall k | 0 <= k < |options| ::
      if options[k].Plain? then Fills(|options[k].text|, 36, lines[k]) else lines[k] == 1
  }

  function Sum(ns: seq<nat>): nat {
    if ns == [] then 0 else ns[0] + Sum(ns[1..])
  }

  lemma {:induction false} OptionsByLines(options: seq<FormatOption>, lines: seq<nat>)
    requires OptionLines(options, lines)
    ensures OptionsHeight(options) == 18 * Sum(lines)
    decreases |options|
  {
    if options != [] {
      OptionsByLines(options[1..], lines[1..]);
    }
  }

  /** What can be shown of picked options: each pick is the index of an option with a text of its own. */
  ghost predicate Showable(options: seq<FormatOption>, picks: seq<Option<int>>) {
    forall k | 0 <= k < |picks| :: picks[k].Some? && 0 <= picks[k].value < |options| && options[picks[k].value].Rated?
  }

  lemma {:induction false} PickedTextsAre(options: seq<FormatOption>, picks: seq<Option<int>>)
    ensures PickedTexts(options, picks).Ok? <==> Showable(options, picks)
    ensures PickedTexts(options, picks).Ok? ==>
      && |PickedTexts(options, picks).value| == |picks|
      && forall k | 0 <= k < |picks| :: PickedTexts(options, picks).value[k] == options[picks[k].value].text
    decreases |picks|
  {
    if picks != [] {
      PickedTextsAre(options, picks[1..]);
      assert forall k | 0 < k < |picks| :: picks[k] == picks[1..][k - 1];
    }
  }

  /** A question with a list of picks can be shown exactly if the picks can. Then all options count for its
      height, picked or not, 18 a line and 52 more, and 40 for every pick come on top. */
  lemma PicksRow(q: Question, format: seq<FormatQuestion>, j: nat, questionLines: nat, lines: seq<nat>)
    requires q.question.Some? && q.answer.Some? && q.answer.value.Picks?
    requires FirstWith(format, q.question.value, j) && format[j].options.Some?
    requires Fills(|q.question.value|, 40, questionLines) && OptionLines(format[j].options.value, lines)
    ensures var options, picks := format[j].options.value, q.answer.value.indices;
      && (RowOf(q, format).Ok? <==> Showable(options, picks))
      && (RowOf(q, format).Ok? ==>
           var row := RowOf(q, format).value;
           var a, b := 38 + 18 * questionLines, 52 + 18 * Sum(lines);
           && row.question == q.question.value && row.extra == 40 * |picks|
           && row.height == (if a < b then b else a)
           && row.shown.Listed? && |row.shown.texts| == |picks|
           && forall k | 0 <= k < |picks| :: row.shown.texts[k] == options[picks[k].value].text)
  {
    hide PickedTexts, FormatOf, Showable, OptionsHeight;
    FormatOfFirst(format, q.question.value);
    PickedTextsAre(format[j].options.value, q.answer.value.indices);
    OptionsByLines(format[j].options.value, lines);
    assert QuestionHeight(q.question.value) == 38 + 18 * questionLines;
    if Showable(format[j].options.value, q.answer.value.indices) {
      assert forall k | 0 <= k < |q.answer.value.indices| ::
        q.answer.value.indices[k].Some? && 0 <= q.answer.value.indices[k].value < |format[j].options.value| by {
        ShowableInRange(format[j].options.value, q.answer.value.indices);
      }
    }
  }

  lemma ShowableInRange(options: seq<FormatOption>, picks: seq<Option<int>>)
    requires Showable(options, picks)
    ensures forall k | 0 <= k < |picks| :: picks[k].Some? && 0 <= picks[k].value < |options|
  {
  }

  function Rows(qs: seq<Question>, format: seq<FormatQuestion>): Result<seq<Row>>
    decreases |qs|
  {
    if qs == [] then Ok([])
    else
      var row :- RowOf(qs[0], format);
      var rest :- Rows(qs[1..], format);
      Ok([row] + rest)
  }

  // ---------------------------------------------------------------------
  // Paging
  // ---------------------------------------------------------------------

  /** The variables of the loop: finished pages, the page being filled, its height so far. */
  datatype Filling = Filling(pages: seq<seq<Entry>>, current: seq<Entry>, height: nat)

  /** What the picks add counts before the test, and is lost when a new page begins. */
  function Place(s: Filling, e: Entry): Filling {
    var h := s.height + e.row.extra;
    if e.row.height + h > (if s.pages == [] then HEIGHT_FIRST_PAGE else HEIGHT_PAGE)
    then Filling(s.pages + [s.current], [e], 0)
    else Filling(s.pages, s.current + [e], h + e.row.height)
  }

  function Placed(rows: seq<Row>): Filling {
    if rows == [] then Filling([], [], 0)
    else Place(Placed(rows[..|rows| - 1]), Entry(rows[|rows| - 1], |rows|))
  }

  function AllPages(rows: seq<Row>): seq<seq<Entry>> {
    Placed(rows).pages + [Placed(rows).current]
  }

  /** `_generate_report_pages` for the questions of the device followed by those of the profile. */
  method GenerateReportPages(deviceQuestions: seq<Question>, questions: seq<Question>, format: seq<FormatQuestion>)
    returns (r: Result<seq<seq<Entry>>>)
    ensures var rows := Rows(deviceQuestions + questions, format);
            if rows.Ok? then r == Ok(AllPages(rows.value)) else r == Err(rows.error)
  {
    hide RowOf, CeilDiv;
    var qs := deviceQuestions + questions;
    var height: nat, pages: seq<seq<Entry>>, currentPage: seq<Entry>, index: nat := 0, [], [], 1;
    ghost var rows := [];
    assert qs[0..] == qs && (Rows(qs, format).Ok? ==> rows + Rows(qs, format).value == Rows(qs, format).value);
    while index <= |qs|
      invariant 1 <= index <= |qs| + 1 && |rows| == index - 1
      invariant Filling(pages, currentPage, height) == Placed(rows)
      invariant match Rows(qs[index - 1..], format)
                case Ok(rest) => Rows(qs, format) == Ok(rows + rest)
                case Err(e) => Rows(qs, format) == Err(e)
    {
      var row := RowOf(qs[index - 1], format);
      if row.Err? {
        return Err(row.error);
      }
      NextRow(rows, row.value, qs, index, format);
      var pageItem := Entry(row.value, index);
      height := height + row.value.extra;
      if (|pages| == 0 && row.value.height + height > HEIGHT_FIRST_PAGE)
         || (|pages| > 0 && row.value.height + height > HEIGHT_PAGE) {
        pages := pages + [currentPage];
        height := 0;
        currentPage := [pageItem];
      } else {
        height := height + row.value.height;
        currentPage := currentPage + [pageItem];
      }
      assert (rows + [row.value])[..|rows|] == rows;
      rows := rows + [row.value];
      index := index + 1;
    }
    assert qs[index - 1..] == [] && rows + [] == rows;
    pages := pages + [currentPage];
    r := Ok(pages);
  }

  lemma NextRow(rows: seq<Row>, row: Row, qs: seq<Question>, index: nat, format: seq<FormatQuestion>)
    requires 1 <= index <= |qs| && RowOf(qs[index - 1], format) == Ok(row)
    ensures var later := Rows(qs[index..], format);
            if later.Err? then Rows(qs[index - 1..], format) == Err(later.error)
            else
              && Rows(qs[index - 1..], format) == Ok([row] + later.value)
              && rows + ([row] + later.value) == rows + [row] + later.value
  {
    hide RowOf;
    assert qs[index - 1..][1..] == qs[index..];
    var later := Rows(qs[index..], format);
    if later.Ok? {
      assert rows + ([row] + later.value) == rows + [row] + later.value;
    }
  }

  // ---------------------------------------------------------------------
  // What holds of the pages
  // ---------------------------------------------------------------------

  function Numbered(rows: seq<Row>): seq<Entry> {
    seq(|rows|, i requires 0 <= i < |rows| => Entry(rows[i], i + 1))
  }

  /** All questions are on the pages, in order, numbered from 1. */
  lemma {:induction false} PagesInOrder(rows: seq<Row>)
    ensures Concatenated(AllPages(rows)) == Numbered(rows)
    decreases |rows|
  {
    hide Concatenated;
    var s := Placed(rows);
    ConcatenatedSnoc(s.pages, s.current);
    if rows == [] {
      ConcatenatedEmpty();
    } else {
      var init := rows[..|rows| - 1];
      var e := Entry(rows[|rows| - 1], |rows|);
      PagesInOrder(init);
      var t := Placed(init);
      ConcatenatedSnoc(t.pages, t.current);
      assert Numbered(rows) == Numbered(init) + [e];
      AddToPage(Concatenated(t.pages), t.current, e);
    }
  }

  lemma ConcatenatedEmpty()
    ensures Concatenated<Entry>([]) == [] && Concatenated<Entry>([]) + [] == []
  {
  }

  lemma AddToPage(before: seq<Entry>, page: seq<Entry>, e: Entry)
    ensures before + (page + [e]) == before + page + [e]
  {
  }

  /** The heights of the rows and what their picks add. */
  function Load(entries: seq<Entry>): nat {
    if entries == [] then 0
    else Load(entries[..|entries| - 1]) + entries[|entries| - 1].row.height + entries[|entries| - 1].row.extra
  }

  lemma LoadSnoc(entries: seq<Entry>, e: Entry)
    ensures Load(entries + [e]) == Load(entries) + e.row.height + e.row.extra
  {
    assert (entries + [e])[..|entries|] == entries;
  }

  /** The part of a page that its limit bounds: all of the first page, of later pages all but
      the first row, because the height starts again at 0 after that row. */
  function Counted(i: nat, page: seq<Entry>): seq<Entry> {
    if i == 0 || page == [] then page else page[1..]
  }

  function Limit(i: nat): nat {
    if i == 0 then HEIGHT_FIRST_PAGE else HEIGHT_PAGE
  }

  ghost predicate PageOk(i: nat, page: seq<Entry>) {
    (i > 0 ==> page != []) && Load(Counted(i, page)) <= Limit(i)
  }

  /** The bounds of a filling: finished pages and the page being filled keep theirs, and the height is
      what counts of the latter. */
  ghost predicate Within(s: Filling) {
    && (forall i | 0 <= i < |s.pages| :: PageOk(i, s.pages[i]))
    && PageOk(|s.pages|, s.current)
    && Load(Counted(|s.pages|, s.current)) == s.height
  }

  lemma CountedSnoc(i: nat, page: seq<Entry>, e: Entry)
    requires i > 0 ==> page != []
    ensures Load(Counted(i, page + [e])) == Load(Counted(i, page)) + e.row.height + e.row.extra
  {
    hide Load;
    LoadSnoc(Counted(i, page), e);
    if i > 0 {
      assert (page + [e])[1..] == page[1..] + [e];
    } else {
      assert i == 0;
    }
  }

  lemma PlaceWithin(s: Filling, e: Entry)
    requires Within(s)
    ensures Within(Place(s, e))
  {
    var n := |s.pages|;
    CountedSnoc(n, s.current, e);
    assert Load([]) == 0 && [e][1..] == [];
    hide Load;
  }

  lemma {:induction false} PlacedWithin(rows: seq<Row>)
    ensures Within(Placed(rows))
    decreases |rows|
  {
    hide Within, Place;
    if rows == [] {
      EmptyWithin();
    } else {
      PlacedWithin(rows[..|rows| - 1]);
      PlaceWithin(Placed(rows[..|rows| - 1]), Entry(rows[|rows| - 1], |rows|));
    }
  }

  lemma EmptyWithin()
    ensures Within(Filling([], [], 0))
  {
  }

  /** Every page keeps its bound, and only the first can be empty. */
  lemma PagesBounded(rows: seq<Row>)
    ensures var s := Placed(rows);
            && (forall i | 0 <= i < |AllPages(rows)| :: PageOk(i, AllPages(rows)[i]))
            && Load(Counted(|s.pages|, s.current)) == s.height
  {
    PlacedWithin(rows);
    hide PageOk, Placed;
  }

  /** The first row of the next page, with what its picks add, would have gone over the limit. */
  ghost predicate ForcedBreak(i: nat, page: seq<Entry>, next: seq<Entry>) {
    next != [] && Load(Counted(i, page)) + next[0].row.height + next[0].row.extra > Limit(i)
  }

  /** A page is left only when the next row does not fit it any more. */
  lemma {:induction false} BreaksForced(rows: seq<Row>)
    ensures forall i, j | 0 <= i && j == i + 1 < |AllPages(rows)| :: ForcedBreak(i, AllPages(rows)[i], AllPages(rows)[j])
    decreases |rows|
  {
    if rows != [] {
      hide Load;
      var init := rows[..|rows| - 1];
      BreaksForced(init);
      PagesBounded(init);
      var t, s := Placed(init), Placed(rows);
      var n := |t.pages|;
      forall i, j | 0 <= i && j == i + 1 < |AllPages(rows)|
        ensures ForcedBreak(i, AllPages(rows)[i], AllPages(rows)[j])
      {
        assert AllPages(rows)[i] == AllPages(init)[i];
        if j <= n {
          assert ForcedBreak(i, AllPages(init)[i], AllPages(init)[j]);
          if j == n {
            assert PageOk(j, AllPages(init)[j]);
          }
        }
      }
    }
  }

  /** The first page is empty, for a report that has questions, exactly when the first question
      does not fit it. */
  lemma {:induction false} FirstPageEmptyIff(rows: seq<Row>)
    requires rows != []
    ensures AllPages(rows)[0] == [] <==> rows[0].height + rows[0].extra > HEIGHT_FIRST_PAGE
    decreases |rows|
  {
    if |rows| == 1 {
      assert rows[..0] == [];
    } else {
      FirstPageEmptyIff(rows[..|rows| - 1]);
    }
  }

  // ---------------------------------------------------------------------
  // The bound is sharp
  // ---------------------------------------------------------------------

  function Blank(n: nat): string {
    seq(n, _ => '?')
  }

  function Unanswered(lines: nat): Question {
    Question(Some(Blank(40 * lines)), Some(Words("")), None)
  }

  lemma UnansweredRow(lines: nat, format: seq<FormatQuestion>)
    ensures RowOf(Unanswered(lines), format) == Ok(Row(Blank(40 * lines), Sentence(""), 18 * lines + 38, 0))
  {
    hide CeilDiv;
    assert |Blank(40 * lines)| == 40 * lines;
    CeilExact(lines, 40);
    CeilExact(0, 38);
  }

  lemma CeilExact(q: nat, d: nat)
    requires d == 40 || d == 38
    ensures CeilDiv(d * q, d) == q
  {
  }

  /** A later page can really be as high as its first row and 980 more, for a first row of any number of
      lines above 40: five questions of `lines`, 11, 11, 12 and 12 lines. */
  lemma BoundIsSharp(lines: nat, format: seq<FormatQuestion>)
    requires lines > 40
    ensures var qs := [Unanswered(lines), Unanswered(11), Unanswered(11), Unanswered(12), Unanswered(12)];
            && Rows(qs, format).Ok?
            && var pages := AllPages(Rows(qs, format).value);
            |pages| == 2 && pages[0] == [] && Load(pages[1]) == 18 * lines + 38 + HEIGHT_PAGE
  {
    hide RowOf, Unanswered, Rows, Placed, Load;
    var q1, q2, q3 := Unanswered(lines), Unanswered(11), Unanswered(12);
    UnansweredRow(lines, format);
    UnansweredRow(11, format);
    UnansweredRow(12, format);
    FiveRows(q1, q2, q2, q3, q3, format);
    SharpPage(RowOf(q1, format).value, RowOf(q2, format).value, RowOf(q3, format).value);
  }

  lemma FiveRows(q1: Question, q2: Question, q3: Question, q4: Question, q5: Question, format: seq<FormatQuestion>)
    requires RowOf(q1, format).Ok? && RowOf(q2, format).Ok? && RowOf(q3, format).Ok?
    requires RowOf(q4, format).Ok? && RowOf(q5, format).Ok?
    ensures Rows([q1, q2, q3, q4, q5], format) == Ok([RowOf(q1, format).value, RowOf(q2, format).value,
      RowOf(q3, format).value, RowOf(q4, format).value, RowOf(q5, format).value])
  {
    hide RowOf;
    assert [q1, q2, q3, q4, q5] == [q1] + ([q2] + ([q3] + ([q4] + ([q5] + []))));
    RowsOne(q5, [], format);
    RowsOne(q4, [q5] + [], format);
    RowsOne(q3, [q4] + ([q5] + []), format);
    RowsOne(q2, [q3] + ([q4] + ([q5] + [])), format);
    RowsOne(q1, [q2] + ([q3] + ([q4] + ([q5] + []))), format);
    var a, b, c, d, e := RowOf(q1, format).value, RowOf(q2, format).value, RowOf(q3, format).value,
      RowOf(q4, format).value, RowOf(q5, format).value;
    assert [a] + ([b] + ([c] + ([d] + ([e] + [])))) == [a, b, c, d, e];
    assert Rows([], format) == Ok([]);
  }

  /** The row begins the second page. */
  lemma BeginsSecond(a: Row)
    requires a.height > HEIGHT_FIRST_PAGE && a.extra == 0
    ensures Placed([a]) == Filling([[]], [Entry(a, 1)], 0)
  {
    assert [] + [a] == [a];
    PlacedSnoc([], a);
  }

  /** The row stays on the second page. */
  lemma StaysOnSecond(rows: seq<Row>, row: Row, entries: seq<Entry>, height: nat)
    requires Placed(rows) == Filling([[]], entries, height)
    requires row.extra == 0 && row.height + height <= HEIGHT_PAGE
    ensures Placed(rows + [row]) == Filling([[]], entries + [Entry(row, |rows| + 1)], height + row.height)
  {
    hide Placed;
    PlacedSnoc(rows, row);
  }

  lemma SharpPage(a: Row, b: Row, c: Row)
    requires a.height > HEIGHT_FIRST_PAGE && b.height == 236 && c.height == 254
    requires a.extra == 0 && b.extra == 0 && c.extra == 0
    ensures var pages := AllPages([a, b, b, c, c]);
            |pages| == 2 && pages[0] == [] && Load(pages[1]) == a.height + HEIGHT_PAGE
  {
    hide Placed, Load;
    var e1, e2, e3, e4, e5 := Entry(a, 1), Entry(b, 2), Entry(b, 3), Entry(c, 4), Entry(c, 5);
    BeginsSecond(a);
    StaysOnSecond([a], b, [e1], 0);
    StaysOnSecond([a] + [b], b, [e1] + [e2], 236);
    StaysOnSecond([a] + [b] + [b], c, [e1] + [e2] + [e3], 472);
    StaysOnSecond([a] + [b] + [b] + [c], c, [e1] + [e2] + [e3] + [e4], 726);
    assert [a] + [b] + [b] + [c] + [c] == [a, b, b, c, c];
    assert [e1] + [e2] + [e3] + [e4] + [e5] == [e1, e2, e3, e4, e5];
    SharpLoad(e1, e2, e3, e4, e5);
  }

  lemma SharpLoad(e1: Entry, e2: Entry, e3: Entry, e4: Entry, e5: Entry)
    requires forall e | e in [e1, e2, e3, e4, e5] :: e.row.extra == 0
    ensures Load([e1, e2, e3, e4, e5]) == e1.row.height + e2.row.height + e3.row.height + e4.row.height + e5.row.height
  {
    LoadSnoc([], e1);
    LoadSnoc([e1], e2);
    LoadSnoc([e1, e2], e3);
    LoadSnoc([e1, e2, e3], e4);
    LoadSnoc([e1, e2, e3, e4], e5);
    assert [] + [e1] == [e1] && [e1] + [e2] == [e1, e2] && [e1, e2] + [e3] == [e1, e2, e3];
    assert [e1, e2, e3] + [e4] == [e1, e2, e3, e4] && [e1, e2, e3, e4] + [e5] == [e1, e2, e3, e4, e5];
  }

  lemma PlacedSnoc(rows: seq<Row>, row: Row)
    ensures Placed(rows + [row]) == Place(Placed(rows), Entry(row, |rows| + 1))
  {
    assert (rows + [row])[..|rows|] == rows;
  }

  lemma RowsOne(q: Question, rest: seq<Question>, format: seq<FormatQuestion>)
    requires RowOf(q, format).Ok? && Rows(rest, format).Ok?
    ensures Rows([q] + rest, format) == Ok([RowOf(q, format).value] + Rows(rest, format).value)
  {
    hide RowOf;
    assert ([q] + rest)[1..] == rest;
  }
}
