/** Collecting the results of tests by name. */
module TestResults {
  import opened Common
  import opened Text
  import opened Lines

  datatype TestResult =
    | InProgress | Compliant | NonCompliant | Error | FeatureNotDetected | Informational
    | NotStarted | Disabled | OtherResult(text: string)

  const INFORMATIONAL := "Informational"

  /** The details of a result: none, a text, or a list of texts. */
  datatype Details = NoDetails | Line(text: string) | Items(items: seq<string>)

  /** The fields of a test case at one moment. */
  datatype Case = Case(name: string, description: string, expectedBehavior: string,
                       requiredResult: string, result: Option<TestResult>,
                       recommendations: Option<seq<string>>,
                       optionalRecommendations: Option<seq<string>>, details: Details)

  function NonEmpty(parts: seq<string>): seq<string> {
    if parts == [] then []
    else (if parts[0] != "" then [parts[0]] else []) + NonEmpty(parts[1..])
  }

  /** Details as they are stored in an entry that is updated. */
  function Flatten(d: Details): Details {
    match d
    case NoDetails => NoDetails
    case Line(t) => Line(Join(NonEmpty(Split(t, NL)), " "))
    case Items(ts) => Line(Join(ts, " "))
  }

  function InformationalResult(r: TestResult): TestResult {
    if r in {NonCompliant, Compliant, Informational} then Informational else r
  }

  /** The entry `e` after another result with its name has come in. */
  function Update(e: Case, r: Case): Case {
    var e1 := e.(
      description := if r.description != "" then r.description else e.description,
      details := Flatten(r.details),
      recommendations :=
        if r.recommendations.None? then e.recommendations
        else if r.recommendations.value == [] then None else r.recommendations);
    if r.result.None? then e1
    else if e.requiredResult == INFORMATIONAL then
      e1.(result := Some(InformationalResult(r.result.value)),
          optionalRecommendations := r.recommendations,
          recommendations := None)
    else e1.(result := r.result)
  }

  /** The entry after it has been given itself to be updated from: what it clears it then reads cleared. */
  function UpdateSelf(e: Case): Case {
    var e1 := e.(details := Flatten(e.details),
                 recommendations := if e.recommendations == Some([]) then None else e.recommendations);
    if e.result.Some? && e.requiredResult == INFORMATIONAL then
      e1.(result := Some(InformationalResult(e.result.value)),
          optionalRecommendations := e1.recommendations,
          recommendations := None)
    else e1
  }

  /** The entry at `i` after the loop has been given the entry at `k`: entries after it see it updated. */
  function UpdatedFrom(entries: seq<Case>, k: nat, i: nat): Case
    requires k < |entries| && i < |entries|
  {
    if entries[i].name != entries[k].name then entries[i]
    else if i < k then Update(entries[i], entries[k])
    else if i == k then UpdateSelf(entries[k])
    else Update(entries[i], UpdateSelf(entries[k]))
  }

  /** Adding the entry at `k` once more. */
  function AddStored(entries: seq<Case>, k: nat): (updated: seq<Case>)
    requires k < |entries|
    ensures |updated| == |entries|
    ensures forall i :: 0 <= i < |entries| ==> updated[i] == UpdatedFrom(entries, k, i)
  {
    seq(|entries|, i requires 0 <= i < |entries| => UpdatedFrom(entries, k, i))
  }

  /** The loop over the entries: every entry with the name of `r` is updated. */
  function UpdateAll(entries: seq<Case>, r: Case): (updated: seq<Case>)
    ensures |updated| == |entries|
    ensures forall i :: 0 <= i < |entries| ==>
      updated[i] == if entries[i].name == r.name then Update(entries[i], r) else entries[i]
  {
    if entries == [] then []
    else [if entries[0].name == r.name then Update(entries[0], r) else entries[0]]
         + UpdateAll(entries[1..], r)
  }

  predicate Named(entries: seq<Case>, name: string) {
    exists i :: 0 <= i < |entries| && entries[i].name == name
  }

  /** `add_test_result` */
  function Add(entries: seq<Case>, r: Case): seq<Case> {
    if Named(entries, r.name) then UpdateAll(entries, r) else entries + [r]
  }

  /** The entries after adding `rs`, in order, to none. */
  function AddAll(rs: seq<Case>): seq<Case> {
    if rs == [] then [] else Add(AddAll(rs[..|rs| - 1]), rs[|rs| - 1])
  }

  /** What `finish` makes of an entry. */
  function Finished(e: Case): Case {
    if e.result == Some(InProgress) then e.(result := Some(Error)) else e
  }

  function FinishAll(entries: seq<Case>): (r: seq<Case>)
    ensures |r| == |entries| && forall i :: 0 <= i < |r| ==> r[i] == Finished(entries[i])
  {
    if entries == [] then [] else [Finished(entries[0])] + FinishAll(entries[1..])
  }

  /** A test case that the session shares with its readers and updates in place. */
  class TestCase {
    var name: string
    var description: string
    var expectedBehavior: string
    var requiredResult: string
    var result: Option<TestResult>
    var recommendations: Option<seq<string>>
    var optionalRecommendations: Option<seq<string>>
    var details: Details

    constructor (c: Case)
      ensures View() == c
    {
      name, description, expectedBehavior := c.name, c.description, c.expectedBehavior;
      requiredResult, result, details := c.requiredResult, c.result, c.details;
      recommendations, optionalRecommendations := c.recommendations, c.optionalRecommendations;
    }

    function View(): Case
      reads this
    {
      Case(name, description, expectedBehavior, requiredResult, result, recommendations,
           optionalRecommendations, details)
    }

    /** The body of the loop in `add_test_result`, for an entry with the name of `r`. */
    method UpdateFrom(r: TestCase)
      modifies this
      ensures r != this ==> View() == Update(old(View()), r.View())
      ensures r == this ==> View() == UpdateSelf(old(View()))
    {
      hide Flatten;
      if |r.description| != 0 {
        description := r.description;
      }
      details := Flatten(r.details);
      if r.recommendations.Some? {
        recommendations := r.recommendations;
        if |r.recommendations.value| == 0 {
          recommendations := None;
        }
      }
      if r.result.Some? {
        if requiredResult == INFORMATIONAL {
          if r.result.value in {NonCompliant, Compliant, Informational} {
            result := Some(Informational);
          } else {
            result := r.result;
          }
          optionalRecommendations := r.recommendations;
          recommendations := None;
        } else {
          result := r.result;
        }
      }
    }
  }

  function Views(cases: seq<TestCase>): (views: seq<Case>)
    reads cases
    ensures |views| == |cases| && forall i :: 0 <= i < |cases| ==> views[i] == cases[i].View()
  {
    seq(|cases|, i requires 0 <= i < |cases| reads cases => cases[i].View())
  }

  // ---------------------------------------------------------------------
  // What the entries are, by name
  // ---------------------------------------------------------------------

  /** The names in the order in which they are first seen. */
  function Seen(rs: seq<Case>): seq<string> {
    if rs == [] then []
    else
      var before, name := Seen(rs[..|rs| - 1]), rs[|rs| - 1].name;
      if name in before then before else before + [name]
  }

  /** The results with one name, in order. */
  function History(rs: seq<Case>, name: string): seq<Case> {
    if rs == [] then []
    else History(rs[..|rs| - 1], name) + (if rs[|rs| - 1].name == name then [rs[|rs| - 1]] else [])
  }

  /** The first result of a history, updated by the others in order. */
  function Entry(h: seq<Case>): Case
    requires h != []
  {
    if |h| == 1 then h[0] else Update(Entry(h[..|h| - 1]), h[|h| - 1])
  }

  lemma {:induction false} HistorySeen(rs: seq<Case>, name: string)
    ensures History(rs, name) != [] <==> name in Seen(rs)
    ensures forall i :: 0 <= i < |History(rs, name)| ==> History(rs, name)[i].name == name
  {
    if rs != [] {
      HistorySeen(rs[..|rs| - 1], name);
    }
  }

  lemma {:induction false} EntryKeeps(h: seq<Case>)
    requires h != []
    ensures Entry(h).name == h[0].name && Entry(h).requiredResult == h[0].requiredResult
    ensures Entry(h).expectedBehavior == h[0].expectedBehavior
  {
    if |h| > 1 {
      EntryKeeps(h[..|h| - 1]);
    }
  }

  lemma HistoryStep(rs: seq<Case>, name: string)
    requires rs != [] && History(rs[..|rs| - 1], name) != []
    ensures History(rs, name) != []
    ensures Entry(History(rs, name)) ==
      if rs[|rs| - 1].name == name then Update(Entry(History(rs[..|rs| - 1], name)), rs[|rs| - 1])
      else Entry(History(rs[..|rs| - 1], name))
  {
    var before, r := History(rs[..|rs| - 1], name), rs[|rs| - 1];
    if r.name == name {
      assert (before + [r])[..|before|] == before;
    } else {
      assert before + [] == before;
    }
  }

  /** The entries are the first-seen names in order, none twice, each with its own history only: the
      first result with the name, updated by every later one. */
  lemma {:induction false} EntriesByName(rs: seq<Case>)
    ensures |AddAll(rs)| == |Seen(rs)|
    ensures forall i :: 0 <= i < |Seen(rs)| ==>
      && AddAll(rs)[i].name == Seen(rs)[i]
      && History(rs, Seen(rs)[i]) != []
      && AddAll(rs)[i] == Entry(History(rs, Seen(rs)[i]))
    ensures forall i, j :: 0 <= i < j < |AddAll(rs)| ==> AddAll(rs)[i].name != AddAll(rs)[j].name
  {
    if rs != [] {
      var init, r := rs[..|rs| - 1], rs[|rs| - 1];
      EntriesByName(init);
      hide Update, Entry, History;
      var before := AddAll(init);
      forall i | 0 <= i < |Seen(rs)|
        ensures AddAll(rs)[i].name == Seen(rs)[i] && History(rs, Seen(rs)[i]) != []
          && AddAll(rs)[i] == Entry(History(rs, Seen(rs)[i]))
      {
        if i < |before| {
          HistoryStep(rs, Seen(init)[i]);
          UpdateName(before[i], r);
        } else {
          FirstEntry(rs);
        }
      }
    }
  }

  lemma UpdateName(e: Case, r: Case)
    ensures Update(e, r).name == e.name
  {
  }

  lemma FirstEntry(rs: seq<Case>)
    requires rs != [] && rs[|rs| - 1].name !in Seen(rs[..|rs| - 1])
    ensures History(rs, rs[|rs| - 1].name) == [rs[|rs| - 1]]
    ensures Entry([rs[|rs| - 1]]) == rs[|rs| - 1]
  {
    HistorySeen(rs[..|rs| - 1], rs[|rs| - 1].name);
  }

  /** An entry has the last description that is not empty, that of its first result if there is none, and
      the details that came last. */
  lemma {:induction false} LastDescription(h: seq<Case>) returns (i: nat)
    requires h != []
    ensures i < |h| && Entry(h).description == h[i].description
    ensures (i > 0 ==> h[i].description != "") && forall j :: i < j < |h| ==> h[j].description == ""
    ensures |h| > 1 ==> Entry(h).details == Flatten(h[|h| - 1].details)
  {
    i := |h| - 1;
    if |h| > 1 && h[|h| - 1].description == "" {
      i := LastDescription(h[..|h| - 1]);
    }
  }

  /** An entry that is not informational has the last result that was given. */
  lemma {:induction false} LastResult(h: seq<Case>) returns (i: nat)
    requires h != [] && h[0].requiredResult != INFORMATIONAL
    ensures i < |h| && Entry(h).result == h[i].result
    ensures (i > 0 ==> h[i].result.Some?) && forall j :: i < j < |h| ==> h[j].result.None?
  {
    hide Flatten;
    i := |h| - 1;
    if |h| > 1 {
      EntryKeeps(h[..|h| - 1]);
      if h[|h| - 1].result.None? {
        i := LastResult(h[..|h| - 1]);
      }
    }
  }

  /** Its recommendations are the last ones given; an empty list given later clears them. */
  lemma {:induction false} LastRecommendations(h: seq<Case>) returns (i: nat)
    requires h != [] && h[0].requiredResult != INFORMATIONAL
    ensures i < |h|
    ensures Entry(h).recommendations ==
      if i > 0 && h[i].recommendations == Some([]) then None else h[i].recommendations
    ensures (i > 0 ==> h[i].recommendations.Some?) && forall j :: i < j < |h| ==> h[j].recommendations.None?
  {
    hide Flatten;
    i := |h| - 1;
    if |h| > 1 {
      EntryKeeps(h[..|h| - 1]);
      if h[|h| - 1].recommendations.None? {
        i := LastRecommendations(h[..|h| - 1]);
      }
    }
  }

  // ---------------------------------------------------------------------
  // Details
  // ---------------------------------------------------------------------

  lemma {:induction false} NonEmptyParts(parts: seq<string>)
    requires forall p :: p in parts ==> '\n' !in p
    ensures forall p :: p in NonEmpty(parts) ==> '\n' !in p
  {
    if parts != [] {
      NonEmptyParts(parts[1..]);
    }
  }

  lemma {:induction false} JoinClean(parts: seq<string>)
    requires forall p :: p in parts ==> '\n' !in p
    ensures '\n' !in Join(parts, " ")
  {
    if |parts| > 1 {
      JoinClean(parts[1..]);
    }
  }

  lemma {:induction false} SplitClean(t: string)
    ensures forall p :: p in Split(t, NL) ==> '\n' !in p
    decreases |t|
  {
    var i := Find(t, NL, 0);
    if i < 0 {
      if '\n' in t {
        var j :| 0 <= j < |t| && t[j] == '\n';
        assert MatchAt(t, NL, j);
      }
    } else {
      forall j | 0 <= j < i ensures t[..i][j] != '\n' {
        assert !MatchAt(t, NL, j);
        assert t[j..j + 1] == [t[j]];
      }
      SplitClean(t[i + |NL|..]);
    }
  }

  /** A text is stored without line breaks, and a text without line breaks is stored as it is; so adding
      what is stored once more changes nothing. */
  lemma FlattenText(t: string)
    ensures Flatten(Line(t)).Line? && '\n' !in Flatten(Line(t)).text
    ensures Flatten(Line(t)) == Line(t) <==> '\n' !in t
    ensures Flatten(Flatten(Line(t))) == Flatten(Line(t))
  {
    SplitClean(t);
    NonEmptyParts(Split(t, NL));
    JoinClean(NonEmpty(Split(t, NL)));
    FlattenClean(Flatten(Line(t)).text);
    if '\n' !in t {
      FlattenClean(t);
    }
  }

  lemma FlattenClean(t: string)
    requires '\n' !in t
    ensures Flatten(Line(t)) == Line(t)
  {
    SplitNoChar(t, '\n');
    assert NL == ['\n'];
    assert Split(t, NL) == [t] && [t][1..] == [];
    assert NonEmpty([t]) == if t == "" then [] else [t];
  }

  /** A text in which no line is empty: no line break at either end, and no two together. */
  predicate FullLines(t: string) {
    && (t != "" ==> t[0] != '\n' && t[|t| - 1] != '\n')
    && forall i :: 0 <= i < |t| - 1 ==> !(t[i] == '\n' && t[i + 1] == '\n')
  }

  /** The text with a blank for every line break. */
  function Blanked(t: string): (r: string)
    ensures |r| == |t| && forall i :: 0 <= i < |t| ==> r[i] == if t[i] == '\n' then ' ' else t[i]
  {
    seq(|t|, i requires 0 <= i < |t| => if t[i] == '\n' then ' ' else t[i])
  }

  lemma BlankedParts(a: string, b: string)
    requires '\n' !in a
    ensures Blanked(a) == a && Blanked(a + NL + b) == a + " " + Blanked(b)
  {
  }

  lemma FullLinesParts(a: string, b: string)
    requires '\n' !in a && FullLines(a + NL + b)
    ensures a != "" && b != "" && b[0] != '\n' && FullLines(b)
  {
    var t := a + NL + b;
    assert t[|a|] == '\n';
    assert forall k :: 0 <= k < |b| ==> b[k] == t[|a| + 1 + k];
  }

  /** Of such a text every line break becomes a blank, and nothing else changes. */
  lemma {:induction false} FlattenBlanks(t: string)
    requires FullLines(t)
    ensures Flatten(Line(t)) == Line(Blanked(t))
    decreases |t|
  {
    if '\n' !in t {
      FlattenClean(t);
      assert Blanked(t) == t;
    } else {
      var i := FirstIndex(t, '\n');
      var a, b := t[..i], t[i + 1..];
      assert t == a + NL + b;
      hide Flatten, FullLines, Blanked;
      FullLinesParts(a, b);
      FlattenBlanks(b);
      FlattenLines(a, b);
      BlankedParts(a, b);
    }
  }

  /** The first line, and the rest. */
  lemma FlattenLines(a: string, b: string)
    requires a != "" && '\n' !in a && b != "" && b[0] != '\n' && Flatten(Line(b)).Line?
    ensures Flatten(Line(a + NL + b)) == Line(a + " " + Flatten(Line(b)).text)
  {
    SplitFirstLine(a, b);
    hide Split;
    var rest := NonEmpty(Split(b, NL));
    assert ([a] + Split(b, NL))[1..] == Split(b, NL);
    FirstLineStays(b);
    assert ([a] + rest)[1..] == rest;
  }

  lemma FirstLineStays(b: string)
    requires b != "" && b[0] != '\n'
    ensures NonEmpty(Split(b, NL)) != []
  {
    MatchOfChar(b, '\n', 0);
    assert NL == ['\n'];
  }

  /** The lines that are kept. */
  function KeptLines(t: string): seq<string> {
    NonEmpty(Split(t, NL))
  }

  lemma KeptOfTwo(a: string, b: string)
    ensures KeptLines(a + NL + b) == KeptLines(a) + KeptLines(b)
  {
    SplitTwoTexts(a, b);
    NonEmptyConcat(Split(a, NL), Split(b, NL));
  }

  lemma NoneKept()
    ensures KeptLines("") == []
  {
    SplitNoChar("", '\n');
    assert Split("", NL) == [""] && [""][1..] == [];
  }

  /** Empty lines are dropped, wherever they are: at the beginning, at the end, and between other lines. */
  lemma EmptyLinesGo(a: string, b: string)
    ensures Flatten(Line(NL + b)) == Flatten(Line(b))
    ensures Flatten(Line(a + NL)) == Flatten(Line(a))
    ensures Flatten(Line(a + NL + (NL + b))) == Flatten(Line(a + NL + b))
  {
    hide NonEmpty, Split;
    NoneKept();
    assert "" + NL + b == NL + b && a + NL + "" == a + NL;
    KeptOfTwo("", b);
    KeptOfTwo(a, "");
    KeptOfTwo(a, NL + b);
    KeptOfTwo(a, b);
    assert [] + KeptLines(b) == KeptLines(b) && KeptLines(a) + [] == KeptLines(a);
    hide KeptLines, Join;
    SameKept(NL + b, b);
    SameKept(a + NL, a);
    SameKept(a + NL + (NL + b), a + NL + b);
  }

  lemma SameKept(s: string, t: string)
    requires KeptLines(s) == KeptLines(t)
    ensures Flatten(Line(s)) == Flatten(Line(t))
  {
    hide NonEmpty, Split, Join;
  }

  lemma {:induction false} NonEmptyConcat(a: seq<string>, b: seq<string>)
    ensures NonEmpty(a + b) == NonEmpty(a) + NonEmpty(b)
    decreases |a|
  {
    if a == [] {
      assert a + b == b;
    } else {
      assert (a + b)[1..] == a[1..] + b;
      NonEmptyConcat(a[1..], b);
    }
  }

  /** Details given as a list are joined without a look at line breaks. */
  lemma FlattenItemsIff(ts: seq<string>)
    ensures Flatten(Flatten(Items(ts))) == Flatten(Items(ts)) <==> forall t :: t in ts ==> '\n' !in t
  {
    var joined := Join(ts, " ");
    FlattenText(joined);
    JoinBreaks(ts);
  }

  /** The texts of a list can be told apart in what is stored, if none has a blank. */
  lemma {:induction false} ItemsReadBack(ts: seq<string>)
    requires ts != [] && forall t :: t in ts ==> ' ' !in t
    ensures Flatten(Items(ts)).Line? && Split(Flatten(Items(ts)).text, " ") == ts
    decreases |ts|
  {
    if |ts| == 1 {
      SplitNoChar(ts[0], ' ');
    } else {
      var rest := ts[1..];
      ItemsReadBack(rest);
      SplitAtChar(ts[0], ' ', Join(rest, " "));
      assert ts == [ts[0]] + rest;
    }
  }

  lemma {:induction false} JoinBreaks(ts: seq<string>)
    ensures '\n' in Join(ts, " ") <==> exists t :: t in ts && '\n' in t
  {
    if |ts| == 1 {
      assert ts[0] in ts && forall t :: t in ts ==> t == ts[0];
    } else if |ts| > 1 {
      JoinBreaks(ts[1..]);
      assert '\n' in Join(ts, " ") <==> '\n' in ts[0] || '\n' in Join(ts[1..], " ");
      assert ts[0] in ts;
      assert forall t :: t in ts <==> t == ts[0] || t in ts[1..];
    }
  }

  /** Adding a stored entry once more, where names are distinct, changes that entry only. What it changes:
      its details become one text, an empty list of recommendations goes, and an Informational entry with a
      result has its recommendations for optional ones, in place of those it had, and Informational for
      Compliant and Non-Compliant. */
  lemma StoredAgain(entries: seq<Case>, k: nat)
    requires k < |entries|
    requires forall i, j :: 0 <= i < j < |entries| ==> entries[i].name != entries[j].name
    ensures AddStored(entries, k) == entries[k := AddStored(entries, k)[k]]
    ensures var e := entries[k].(
        details := Flatten(entries[k].details),
        recommendations := if entries[k].recommendations == Some([]) then None else entries[k].recommendations);
      AddStored(entries, k)[k] ==
        if e.requiredResult == INFORMATIONAL && e.result.Some? then e.(
          result := if e.result.value in {Compliant, NonCompliant} then Some(Informational) else e.result,
          optionalRecommendations := e.recommendations,
          recommendations := None)
        else e
  {
    hide Flatten;
    var after := AddStored(entries, k);
    forall i | 0 <= i < |entries| ensures after[i] == entries[k := after[k]][i] {
      if i != k {
        assert entries[i].name != entries[k].name;
      }
    }
  }

  // ---------------------------------------------------------------------
  // Results
  // ---------------------------------------------------------------------

  predicate Judged(h: seq<Case>) {
    exists i :: 0 < i < |h| && h[i].result.Some?
  }

  /** Of an informational test, however its results come in: once any update has carried a result, the
      entry shows the result of the last such update, at `j`, but Informational for Compliant and
      Non-Compliant. The optional recommendations are those of that update. The recommendations are gone with it,
      but a later update without a result can bring new ones: the last that gave any is at `i`. */
  lemma {:induction false} InformationalStays(h: seq<Case>) returns (j: nat, i: nat)
    requires h != [] && h[0].requiredResult == INFORMATIONAL && Judged(h)
    ensures 0 < j <= i < |h|
    ensures h[j].result.Some? && forall l :: j < l < |h| ==> h[l].result.None?
    ensures (i > j ==> h[i].recommendations.Some?) && forall l :: i < l < |h| ==> h[l].recommendations.None?
    ensures Entry(h).result ==
      if h[j].result.value in {Compliant, NonCompliant, Informational} then Some(Informational) else h[j].result
    ensures Entry(h).optionalRecommendations == h[j].recommendations
    ensures Entry(h).recommendations ==
      if i == j || h[i].recommendations == Some([]) then None else h[i].recommendations
  {
    hide Flatten;
    var init, last := h[..|h| - 1], h[|h| - 1];
    EntryKeeps(init);
    if last.result.Some? {
      j, i := |h| - 1, |h| - 1;
    } else {
      assert Judged(init) by {
        var k :| 0 < k < |h| && h[k].result.Some?;
        assert init[k] == h[k];
      }
      j, i := InformationalStays(init);
      if last.recommendations.Some? {
        i := |h| - 1;
      }
    }
  }

  /** So the recommendations of an informational test need not be optional ones. */
  lemma InformationalRecommends(first: Case, judged: Case, later: Case, rs: seq<string>)
    requires first.requiredResult == INFORMATIONAL && judged.result == Some(Compliant)
    requires judged.recommendations.None? && rs != []
    requires later.result.None? && later.recommendations == Some(rs)
    ensures var e := Entry([first, judged, later]);
      e.result == Some(Informational) && e.recommendations == Some(rs) && e.optionalRecommendations.None?
  {
    hide Flatten;
    var h := [first, judged, later];
    assert h[..2] == [first, judged] && [first, judged][..1] == [first];
    assert Entry([first]) == first;
    assert Entry([first, judged]) == Update(first, judged);
    assert Entry(h) == Update(Entry([first, judged]), later);
  }

  /** Before that, an informational test shows what it came with. */
  lemma {:induction false} UnjudgedShowsFirst(h: seq<Case>)
    requires h != [] && !Judged(h)
    ensures Entry(h).result == h[0].result
  {
    if |h| > 1 {
      var init := h[..|h| - 1];
      assert !Judged(init) by {
        assert forall i :: 0 <= i < |init| ==> init[i] == h[i];
      }
      UnjudgedShowsFirst(init);
      assert h[|h| - 1].result.None?;
    }
  }

  /** `finish` turns In Progress into Error and changes nothing else, whatever an entry holds; then nothing is
      in progress, and finishing again changes nothing. */
  lemma FinishEnds(entries: seq<Case>)
    ensures |FinishAll(entries)| == |entries|
    ensures forall i :: 0 <= i < |entries| ==>
      && (entries[i].result == Some(InProgress) ==> FinishAll(entries)[i] == entries[i].(result := Some(Error)))
      && (entries[i].result != Some(InProgress) ==> FinishAll(entries)[i] == entries[i])
      && FinishAll(entries)[i].result != Some(InProgress)
    ensures FinishAll(FinishAll(entries)) == FinishAll(entries)
  {
    var once := FinishAll(entries);
    assert forall i :: 0 <= i < |once| ==> FinishAll(once)[i] == once[i];
  }

  /** Where the result of an entry comes from: from a result given for the test, as it is, or as Informational
      for Compliant and Non-Compliant. */
  lemma {:induction false} ResultGiven(h: seq<Case>)
    requires h != [] && Entry(h).result.Some?
    ensures exists k :: (0 <= k < |h| && h[k].result.Some?
      && (Entry(h).result == h[k].result
          || (h[0].requiredResult == INFORMATIONAL && Entry(h).result == Some(Informational)
              && h[k].result.value in {Compliant, NonCompliant})))
  {
    hide Flatten;
    var n := |h| - 1;
    if n == 0 || h[n].result.Some? {
      if n > 0 {
        EntryKeeps(h[..n]);
      }
      assert h[n].result.Some?;
    } else {
      ResultGiven(h[..n]);
      var k :| 0 <= k < n && h[..n][k].result.Some?
        && (Entry(h[..n]).result == h[..n][k].result
            || (h[0].requiredResult == INFORMATIONAL && Entry(h[..n]).result == Some(Informational)
                && h[..n][k].result.value in {Compliant, NonCompliant}));
      assert h[k].result.Some?;
    }
  }

  lemma {:induction false} HistoryIn(rs: seq<Case>, name: string)
    ensures forall r :: r in History(rs, name) ==> r in rs && r.name == name
  {
    if rs != [] {
      HistoryIn(rs[..|rs| - 1], name);
    }
  }

  /** Once a run has ended, a test shows a result like Compliant only if it was given for it, and Error only if
      Error or In Progress was. */
  lemma ShownWasGiven(rs: seq<Case>, i: nat)
    requires i < |AddAll(rs)| && FinishAll(AddAll(rs))[i].result.Some?
    ensures var e := FinishAll(AddAll(rs))[i];
      && (e.result.value != Error && e.result.value != Informational ==>
            exists r :: r in rs && r.name == e.name && r.result == e.result)
      && (e.result.value == Error ==>
            exists r :: r in rs && r.name == e.name && r.result in {Some(Error), Some(InProgress)})
      && (e.result.value == Informational ==>
            exists r :: r in rs && r.name == e.name && r.result in {Some(Informational), Some(Compliant), Some(NonCompliant)})
  {
    hide Entry, History, Seen, Update;
    EntriesByName(rs);
    FinishEnds(AddAll(rs));
    var entry := AddAll(rs)[i];
    var h := History(rs, entry.name);
    HistoryIn(rs, entry.name);
    ResultGiven(h);
    var k :| 0 <= k < |h| && h[k].result.Some?
      && (entry.result == h[k].result
          || (entry.result == Some(Informational) && h[k].result.value in {Compliant, NonCompliant}));
    assert h[k] in h;
    assert h[k] in rs && h[k].name == entry.name;
  }
}
