/** Reading reports from JSON and writing them back. */
module ReportJson {
  import opened Common
  import opened Text
  import opened TestResults

  const UNKNOWN := "Unknown"
  const DEFAULT_PACK := "Device Qualification"
  const COMPLETE := "Complete"
  const NON_COMPLIANT := "Non-Compliant"

  /** A time, in whole seconds, or a text that is no time. */
  datatype Stamp = At(seconds: int) | Malformed

  /** The device of a report. A key that is not there is None; values are kept as they come. */
  datatype DeviceInfo = DeviceInfo(macAddr: Option<string>, manufacturer: Option<string>,
                                   model: Option<string>, firmware: Option<string>,
                                   testModules: Option<string>, testPack: Option<string>,
                                   additionalInfo: Option<string>, deviceProfile: Option<string>)

  datatype CaseJson = CaseJson(name: Option<string>, description: Option<string>,
                               expectedBehavior: Option<string>, requiredResult: Option<string>,
                               result: Option<Option<TestResult>>,
                               recommendations: Option<Option<seq<string>>>,
                               optionalRecommendations: Option<Option<seq<string>>>,
                               details: Option<Details>)

  datatype TestsJson = TestsJson(total: Option<int>, results: Option<seq<CaseJson>>)

  /** A report file. `testrun` may lack its version; the MAC address may be null. */
  datatype ReportJson = ReportJson(testrun: Option<Option<string>>, macAddr: Option<Option<string>>,
                                   device: Option<DeviceInfo>, status: Option<string>,
                                   result: Option<string>, started: Option<Stamp>,
                                   finished: Option<Stamp>, tests: Option<TestsJson>,
                                   report: Option<string>, export_: Option<string>,
                                   folderName: Option<string>)

  /** The fields of a report at one moment. */
  datatype Report = Report(version: Option<string>, macAddr: Option<string>, device: DeviceInfo,
                           status: string, result: string, started: Option<int>, finished: Option<int>,
                           totalTests: int, results: seq<Case>, reportUrl: string, exportUrl: string,
                           folderName: string)

  const NO_DEVICE := DeviceInfo(None, None, None, None, None, None, None, None)

  /** A report as the constructor makes it. */
  const FRESH := Report(None, None, NO_DEVICE, COMPLETE, NON_COMPLIANT, None, None, 0, [], "", "", "")

  // ---------------------------------------------------------------------
  // from_json
  // ---------------------------------------------------------------------

  function Needed<T>(v: Option<T>): Result<T> {
    match v case Some(x) => Ok(x) case None => Err(KeyError)
  }

  function Time(v: Option<Stamp>): Result<int> {
    match v
    case Some(At(t)) => Ok(t)
    case Some(Malformed) => Err(ValueError)
    case None => Err(KeyError)
  }

  /** The first of the two that is there. */
  function Or<T>(v: Option<T>, w: Option<T>): Option<T> {
    if v.Some? then v else w
  }

  function Default<T>(v: Option<T>, d: T): T {
    if v.Some? then v.value else d
  }

  function ReadDevice(d: DeviceInfo, j: DeviceInfo): Result<DeviceInfo> {
    var mac :- Needed(j.macAddr);
    var make :- Needed(j.manufacturer);
    var model :- Needed(j.model);
    Ok(DeviceInfo(Some(mac), Some(make), Some(model), Or(j.firmware, d.firmware),
                  Or(j.testModules, d.testModules), Some(Default(j.testPack, DEFAULT_PACK)),
                  d.additionalInfo, Or(j.deviceProfile, Or(j.additionalInfo, d.deviceProfile))))
  }

  function ReadCase(j: CaseJson): Result<Case> {
    var name :- Needed(j.name);
    var description :- Needed(j.description);
    var expected :- Needed(j.expectedBehavior);
    var required :- Needed(j.requiredResult);
    var result :- Needed(j.result);
    Ok(Case(name, description, expected, required, result, Default(j.recommendations, Some([])),
            Default(j.optionalRecommendations, Some([])), Default(j.details, Line(""))))
  }

  function ReadCases(js: seq<CaseJson>): Result<seq<Case>> {
    if js == [] then Ok([])
    else
      var c :- ReadCase(js[0]);
      var cs :- ReadCases(js[1..]);
      Ok([c] + cs)
  }

  function Version(j: ReportJson): string {
    if j.testrun.Some? && j.testrun.value.Some? then j.testrun.value.value else UNKNOWN
  }

  /** What `from_json` makes of the fields `r`. */
  function Read(r: Report, j: ReportJson): Result<Report> {
    var d :- Needed(j.device);
    var device :- ReadDevice(r.device, d);
    var status :- Needed(j.status);
    var started :- Time(j.started);
    var finished :- Time(j.finished);
    var tests :- Needed(j.tests);
    var total :- Needed(tests.total);
    var results :- Needed(tests.results);
    var cases :- ReadCases(results);
    Ok(Report(Some(Version(j)), r.macAddr, device, status, Default(j.result, r.result),
              Some(started), Some(finished), total, r.results + cases,
              Default(j.report, r.reportUrl), Default(j.export_, r.exportUrl),
              Default(j.folderName, r.folderName)))
  }

  // ---------------------------------------------------------------------
  // to_json
  // ---------------------------------------------------------------------

  /** Details as they are written. */
  function DetailsText(d: Details): string {
    match d
    case NoDetails => "None"
    case Line(_) => Flatten(d).text
    case Items(_) => Flatten(d).text
  }

  /** Recommendations are written only if there are any. */
  function Listed(r: Option<seq<string>>): Option<Option<seq<string>>> {
    if r.Some? && r.value != [] then Some(r) else None
  }

  function WriteCase(c: Case): CaseJson {
    CaseJson(Some(c.name), Some(c.description), Some(c.expectedBehavior), Some(c.requiredResult),
             Some(c.result), Listed(c.recommendations), Listed(c.optionalRecommendations),
             Some(Line(DetailsText(c.details))))
  }

  function WriteCases(cs: seq<Case>): (js: seq<CaseJson>)
    ensures |js| == |cs| && forall i :: 0 <= i < |cs| ==> js[i] == WriteCase(cs[i])
  {
    if cs == [] then [] else [WriteCase(cs[0])] + WriteCases(cs[1..])
  }

  /** A report that was never read has no version and no times. */
  function Write(r: Report): Result<ReportJson> {
    if r.version.None? || r.started.None? || r.finished.None? then Err(AttributeError)
    else Ok(ReportJson(Some(Some(r.version.value)), Some(r.macAddr), Some(r.device), Some(r.status),
                       Some(r.result), Some(At(r.started.value)), Some(At(r.finished.value)),
                       Some(TestsJson(Some(r.totalTests), Some(WriteCases(r.results)))),
                       Some(r.reportUrl), Some(r.exportUrl), Some(r.folderName)))
  }

  class TestReport {
    var version: Option<string>
    var macAddr: Option<string>
    var device: DeviceInfo
    var status: string
    var result: string
    var started: Option<int>
    var finished: Option<int>
    var totalTests: int
    var results: seq<Case>
    var reportUrl: string
    var exportUrl: string
    var folderName: string

    constructor ()
      ensures View() == FRESH
    {
      version, macAddr, device := None, None, NO_DEVICE;
      status, result := COMPLETE, NON_COMPLIANT;
      started, finished := None, None;
      totalTests, results := 0, [];
      reportUrl, exportUrl, folderName := "", "", "";
    }

    function View(): Report
      reads this
    {
      Report(version, macAddr, device, status, result, started, finished, totalTests, results,
             reportUrl, exportUrl, folderName)
    }

    /** The part of `from_json` that fills the device. */
    method TakeDevice(d: DeviceInfo) returns (r: Result<()>)
      modifies this`device
      ensures match ReadDevice(old(device), d)
        case Ok(v) => r == Ok(()) && device == v
        case Err(e) => r == Err(e)
    {
      if d.macAddr.None? || d.manufacturer.None? || d.model.None? {
        return Err(KeyError);
      }
      device := device.(macAddr := d.macAddr, manufacturer := d.manufacturer, model := d.model);
      if d.firmware.Some? {
        device := device.(firmware := d.firmware);
      }
      if d.testModules.Some? {
        device := device.(testModules := d.testModules);
      }
      device := device.(testPack := Some(if d.testPack.Some? then d.testPack.value else DEFAULT_PACK));
      if d.additionalInfo.Some? {
        device := device.(deviceProfile := d.additionalInfo);
      }
      if d.deviceProfile.Some? {
        device := device.(deviceProfile := d.deviceProfile);
      }
      r := Ok(());
    }

    /** The part of `from_json` that fills the status, the result and the times. */
    method TakeTimes(j: ReportJson) returns (r: Result<()>)
      modifies this`status, this`result, this`started, this`finished
      ensures r == if j.status.None? then Err(KeyError)
                   else if Time(j.started).Err? then Err(Time(j.started).error)
                   else if Time(j.finished).Err? then Err(Time(j.finished).error)
                   else Ok(())
      ensures r.Ok? ==>
        && status == j.status.value && result == Default(j.result, old(result))
        && started == Some(Time(j.started).value) && finished == Some(Time(j.finished).value)
    {
      if j.status.None? {
        return Err(KeyError);
      }
      status := j.status.value;
      if j.result.Some? {
        result := j.result.value;
      }
      if j.started.None? {
        return Err(KeyError);
      } else if j.started.value.Malformed? {
        return Err(ValueError);
      }
      started := Some(j.started.value.seconds);
      if j.finished.None? {
        return Err(KeyError);
      } else if j.finished.value.Malformed? {
        return Err(ValueError);
      }
      finished := Some(j.finished.value.seconds);
      r := Ok(());
    }

    /** The part of `from_json` that fills the links. */
    method TakeLinks(j: ReportJson)
      modifies this`reportUrl, this`exportUrl, this`folderName
      ensures reportUrl == Default(j.report, old(reportUrl))
      ensures exportUrl == Default(j.export_, old(exportUrl))
      ensures folderName == Default(j.folderName, old(folderName))
    {
      if j.report.Some? {
        reportUrl := j.report.value;
      }
      if j.export_.Some? {
        exportUrl := j.export_.value;
      }
      if j.folderName.Some? {
        folderName := j.folderName.value;
      }
    }

    /** When an exception ends it, the report is left half filled. */
    method FromJson(j: ReportJson) returns (r: Result<()>)
      modifies this
      ensures match Read(old(View()), j)
        case Ok(v) => r == Ok(()) && View() == v
        case Err(e) => r == Err(e)
    {
      hide ReadCases, ReadDevice, Time, Default;
      version := Some(if j.testrun.Some? && j.testrun.value.Some? then j.testrun.value.value else UNKNOWN);
      if j.device.None? {
        return Err(KeyError);
      }
      var known := TakeDevice(j.device.value);
      if known.Err? {
        return Err(known.error);
      }
      var times := TakeTimes(j);
      if times.Err? {
        return Err(times.error);
      }
      TakeLinks(j);
      if j.tests.None? || j.tests.value.total.None? {
        return Err(KeyError);
      }
      totalTests := j.tests.value.total.value;
      if j.tests.value.results.None? {
        return Err(KeyError);
      }
      r := AddTests(j.tests.value.results.value);
    }

    /** The loop over the results of a report file. */
    method AddTests(js: seq<CaseJson>) returns (r: Result<()>)
      modifies this`results
      ensures match ReadCases(js)
        case Ok(cs) => r == Ok(()) && results == old(results) + cs
        case Err(e) => r == Err(e)
    {
      hide ReadCase;
      assert js[0..] == js;
      for i := 0 to |js|
        invariant match ReadCases(js[i..])
          case Ok(cs) => ReadCases(js).Ok? && old(results) + ReadCases(js).value == results + cs
          case Err(e) => ReadCases(js) == Err(e)
      {
        assert js[i..][0] == js[i] && js[i..][1..] == js[i + 1..];
        var c := ReadCase(js[i]);
        if c.Err? {
          return Err(c.error);
        }
        ghost var rest := ReadCases(js[i + 1..]);
        if rest.Ok? {
          assert results + ([c.value] + rest.value) == results + [c.value] + rest.value;
        }
        results := results + [c.value];
      }
      assert results + [] == results;
      r := Ok(());
    }

    method ToJson() returns (r: Result<ReportJson>)
      ensures r == Write(View())
    {
      if version.None? || started.None? || finished.None? {
        return Err(AttributeError);
      }
      var written: seq<CaseJson> := [];
      for i := 0 to |results|
        invariant written == WriteCases(results)[..i]
      {
        written := written + [WriteCase(results[i])];
      }
      assert written == WriteCases(results);
      r := Ok(ReportJson(Some(Some(version.value)), Some(macAddr), Some(device), Some(status),
                         Some(result), Some(At(started.value)), Some(At(finished.value)),
                         Some(TestsJson(Some(totalTests), Some(written))),
                         Some(reportUrl), Some(exportUrl), Some(folderName)));
    }
  }

  // ---------------------------------------------------------------------
  // Normal form
  // ---------------------------------------------------------------------

  /** Reads a file into a new report and writes that. */
  function Rewrite(j: ReportJson): Result<ReportJson> {
    var r :- Read(FRESH, j);
    Write(r)
  }

  /** The keys that a report file must have. */
  predicate Readable(j: ReportJson) {
    && j.device.Some? && j.device.value.macAddr.Some? && j.device.value.manufacturer.Some?
    && j.device.value.model.Some? && j.status.Some?
    && j.started.Some? && j.started.value.At? && j.finished.Some? && j.finished.value.At?
    && j.tests.Some? && j.tests.value.total.Some? && j.tests.value.results.Some?
    && forall i :: 0 <= i < |j.tests.value.results.value| ==> ReadableCase(j.tests.value.results.value[i])
  }

  predicate ReadableCase(c: CaseJson) {
    c.name.Some? && c.description.Some? && c.expectedBehavior.Some? && c.requiredResult.Some? && c.result.Some?
  }

  /** The recommendations are not there, null, or an empty list. */
  predicate NoneGiven(r: Option<Option<seq<string>>>) {
    r.None? || r.value.None? || |r.value.value| == 0
  }

  /** A written test result, from the one read: details are a text, empty recommendations are gone. */
  function NormalCase(c: CaseJson): CaseJson {
    c.(recommendations := if NoneGiven(c.recommendations) then None else c.recommendations,
       optionalRecommendations := if NoneGiven(c.optionalRecommendations) then None else c.optionalRecommendations,
       details := match c.details
         case None => Some(Line(""))
         case Some(NoDetails) => Some(Line("None"))
         case Some(d) => Some(Flatten(d)))
  }

  /** A written file, from the one read. */
  ghost predicate IsNormalOf(w: ReportJson, j: ReportJson)
    requires Readable(j)
  {
    var d := j.device.value;
    && w.testrun == Some(Some(if j.testrun.Some? && j.testrun.value.Some? then j.testrun.value.value else "Unknown"))
    && w.macAddr == Some(None)
    && w.device == Some(d.(testPack := if d.testPack.Some? then d.testPack else Some("Device Qualification"),
                           additionalInfo := None,
                           deviceProfile := if d.deviceProfile.Some? then d.deviceProfile else d.additionalInfo))
    && w.status == j.status && w.started == j.started && w.finished == j.finished
    && w.result == (if j.result.Some? then j.result else Some("Non-Compliant"))
    && w.report == (if j.report.Some? then j.report else Some(""))
    && w.export_ == (if j.export_.Some? then j.export_ else Some(""))
    && w.folderName == (if j.folderName.Some? then j.folderName else Some(""))
    && w.tests.Some? && w.tests.value.total == j.tests.value.total && w.tests.value.results.Some?
    && |w.tests.value.results.value| == |j.tests.value.results.value|
    && forall i :: 0 <= i < |j.tests.value.results.value| ==>
         w.tests.value.results.value[i] == NormalCase(j.tests.value.results.value[i])
  }

  lemma CaseNormal(c: CaseJson)
    requires ReadCase(c).Ok?
    ensures WriteCase(ReadCase(c).value) == NormalCase(c)
  {
    NormalDetails(c);
    hide Flatten, DetailsText;
    assert Listed(Default(c.recommendations, Some([]))) == NormalCase(c).recommendations;
    assert Listed(Default(c.optionalRecommendations, Some([]))) == NormalCase(c).optionalRecommendations;
  }

  lemma NormalDetails(c: CaseJson)
    ensures NormalCase(c).details == Some(Line(DetailsText(Default(c.details, Line("")))))
  {
    if c.details.None? {
      FlattenText("");
    }
  }

  lemma {:induction false} CasesRead(js: seq<CaseJson>)
    ensures ReadCases(js).Ok? <==> forall i :: 0 <= i < |js| ==> ReadableCase(js[i])
    ensures ReadCases(js).Ok? ==> |ReadCases(js).value| == |js|
    ensures ReadCases(js).Ok? ==>
      forall i :: 0 <= i < |js| ==> WriteCase(ReadCases(js).value[i]) == NormalCase(js[i])
  {
    if js != [] {
      CasesRead(js[1..]);
      if ReadCase(js[0]).Ok? {
        CaseNormal(js[0]);
      }
      hide ReadCase, NormalCase, WriteCase;
      assert forall i :: 0 < i < |js| ==> js[i] == js[1..][i - 1];
    }
  }

  /** A file is read and written back exactly if it has the keys that it must have; then what is written is
      its normal form. */
  lemma RewriteNormal(j: ReportJson)
    ensures Rewrite(j).Ok? <==> Readable(j)
    ensures Readable(j) ==> IsNormalOf(Rewrite(j).value, j)
  {
    hide ReadCase, WriteCase, NormalCase, DetailsText;
    if j.tests.Some? && j.tests.value.results.Some? {
      CasesRead(j.tests.value.results.value);
    }
    if Readable(j) {
      var cases := ReadCases(j.tests.value.results.value).value;
      assert [] + cases == cases;
    }
  }

  /** Reading fails with a ValueError exactly if a time is malformed where everything looked at before is there,
      and with a KeyError for anything that is missing. */
  lemma ReadFails(j: ReportJson)
    requires !Readable(j)
    ensures Rewrite(j).Err? && Rewrite(j).error in {KeyError, ValueError}
    ensures Rewrite(j).error == ValueError <==>
      && j.device.Some? && j.device.value.macAddr.Some? && j.device.value.manufacturer.Some?
      && j.device.value.model.Some? && j.status.Some? && j.started.Some?
      && (j.started.value.Malformed? || j.finished == Some(Malformed))
  {
    if j.tests.Some? && j.tests.value.results.Some? {
      CasesRead(j.tests.value.results.value);
      CasesFail(j.tests.value.results.value);
    }
    hide ReadCases;
  }

  lemma {:induction false} CasesFail(js: seq<CaseJson>)
    ensures ReadCases(js).Err? ==> ReadCases(js).error == KeyError
  {
    if js != [] {
      CasesFail(js[1..]);
    }
  }

  /** A test result whose details are written without a line break. */
  predicate PlainDetails(c: CaseJson) {
    '\n' !in DetailsText(Default(c.details, Line("")))
  }

  /** Only a list can have its line breaks written. */
  lemma PlainDetailsIff(c: CaseJson)
    ensures PlainDetails(c) <==>
      !(c.details.Some? && c.details.value.Items? && exists t :: t in c.details.value.items && '\n' in t)
  {
    match Default(c.details, Line(""))
    case NoDetails =>
    case Line(t) => FlattenText(t);
    case Items(ts) => JoinBreaks(ts);
  }

  lemma NormalCaseTwice(c: CaseJson)
    ensures NormalCase(NormalCase(c)) == NormalCase(c) <==> PlainDetails(c)
    ensures PlainDetails(NormalCase(c))
    ensures NormalCase(NormalCase(NormalCase(c))) == NormalCase(NormalCase(c))
  {
    var text := DetailsText(Default(c.details, Line("")));
    FlattenText(text);
    FlattenText(Flatten(Line(text)).text);
    var once := NormalCase(c);
    var twice := NormalCase(once);
    NormalDetails(c);
    NormalDetails(once);
    NormalDetails(twice);
    hide Flatten;
    assert once == c.(recommendations := once.recommendations, optionalRecommendations := once.optionalRecommendations,
                      details := Some(Line(text)));
    assert twice == once.(details := Some(Line(Flatten(Line(text)).text)));
  }

  lemma NormalIsReadable(w: ReportJson, j: ReportJson)
    requires Readable(j) && IsNormalOf(w, j)
    ensures Readable(w)
  {
    hide Flatten, DetailsText, Listed;
    forall i | 0 <= i < |w.tests.value.results.value| ensures ReadableCase(w.tests.value.results.value[i]) {
      assert ReadableCase(j.tests.value.results.value[i]);
    }
  }

  lemma NormalUnique(w: ReportJson, x: ReportJson, j: ReportJson)
    requires Readable(j) && IsNormalOf(w, j) && IsNormalOf(x, j)
    ensures w == x
  {
    hide NormalCase, Readable;
    assert w.tests.value.results.value == x.tests.value.results.value;
  }

  /** Every result's details are written without a line break. */
  predicate AllPlain(j: ReportJson)
    requires j.tests.Some? && j.tests.value.results.Some?
  {
    forall i :: 0 <= i < |j.tests.value.results.value| ==> PlainDetails(j.tests.value.results.value[i])
  }

  /** What is written is its own normal form exactly if no details in it have a line break. */
  lemma NormalOfItselfIff(w: ReportJson, j: ReportJson)
    requires Readable(j) && IsNormalOf(w, j) && Readable(w)
    ensures IsNormalOf(w, w) <==> AllPlain(j)
  {
    var ws, js := w.tests.value.results.value, j.tests.value.results.value;
    forall i | 0 <= i < |js| ensures NormalCase(ws[i]) == ws[i] <==> PlainDetails(js[i]) {
      NormalCaseTwice(js[i]);
    }
    hide NormalCase, PlainDetails;
    if AllPlain(j) {
      assert IsNormalOf(w, w);
    } else {
      var i :| 0 <= i < |js| && !PlainDetails(js[i]);
      assert NormalCase(ws[i]) != ws[i];
    }
  }

  lemma WrittenIsPlain(x: ReportJson, w: ReportJson, j: ReportJson)
    requires Readable(j) && IsNormalOf(w, j) && Readable(w) && IsNormalOf(x, w)
    ensures AllPlain(w)
  {
    var ws, js := w.tests.value.results.value, j.tests.value.results.value;
    forall i | 0 <= i < |ws| ensures PlainDetails(ws[i]) {
      NormalCaseTwice(js[i]);
    }
  }

  /** Of any file that can be read: what is written can be read again; reading and writing it again gives
      the same file, exactly if no list of details has a line break in it; and from the second writing on
      nothing changes any more. */
  lemma NormalForm(j: ReportJson)
    requires Readable(j)
    ensures Rewrite(j).Ok? && Rewrite(Rewrite(j).value).Ok?
    ensures Rewrite(Rewrite(j).value) == Rewrite(j) <==> AllPlain(j)
    ensures var twice := Rewrite(Rewrite(j).value);
      Rewrite(twice.value) == twice
  {
    hide Rewrite, IsNormalOf, AllPlain, Readable;
    RewriteNormal(j);
    var w := Rewrite(j).value;
    NormalIsReadable(w, j);
    RewriteNormal(w);
    var x := Rewrite(w).value;
    NormalOfItselfIff(w, j);
    if IsNormalOf(w, w) {
      NormalUnique(w, x, w);
    }
    NormalIsReadable(x, w);
    RewriteNormal(x);
    WrittenIsPlain(x, w, j);
    NormalOfItselfIff(x, w);
    NormalUnique(x, Rewrite(x).value, x);
  }
}
