/** Requests on the device repository, and the target device of a run, as steps of one state. */
module DeviceStore {
  import opened Common
  import opened Status
  import opened Device

  /** The devices known to the session in order, their fields, the device folders on disk, and the run. */
  datatype Store = Store(repo: seq<Device>, fields: map<Device, Fields>, folders: set<string>,
                         target: Option<Device>, status: Status)

  predicate Known(s: Store) {
    && (forall d :: d in s.repo ==> d in s.fields)
    && (s.target.Some? ==> s.target.value in s.fields)
  }

  /** The device fields of a request; a key that is not there is None. */
  datatype DeviceJson = DeviceJson(macAddr: Option<string>, manufacturer: Option<string>,
                                   model: Option<string>, kind: Option<string>,
                                   technology: Option<string>, additionalInfo: Option<string>,
                                   testPack: Option<string>, testModules: Option<string>)

  /** The body of an edit request. */
  datatype EditJson = EditJson(macAddr: Option<string>, device: Option<DeviceJson>)

  const DISALLOWED := ['/', '\\', '\'', '\"', ';']

  predicate CleanName(name: string) {
    |name| <= 28 && forall c :: c in name ==> c !in DISALLOWED
  }

  /** `_validate_device_json` */
  predicate WellFormed(j: DeviceJson) {
    && j.macAddr.Some? && j.manufacturer.Some? && j.model.Some? && j.kind.Some?
    && j.technology.Some? && j.additionalInfo.Some?
    && CleanName(j.manufacturer.value) && CleanName(j.model.value)
  }

  function FolderName(j: DeviceJson): string
    requires WellFormed(j)
  {
    j.manufacturer.value + " " + j.model.value
  }

  // ---------------------------------------------------------------------
  // Looking devices up
  // ---------------------------------------------------------------------

  /** `get_device`: the first device with the MAC address, whatever its case. */
  function ByMac(repo: seq<Device>, fields: map<Device, Fields>, mac: string): (r: Option<Device>)
    requires forall d :: d in repo ==> d in fields
    ensures r.Some? ==> r.value in repo && Lower(fields[r.value].macAddr) == Lower(mac)
    ensures r.None? ==> forall d :: d in repo ==> Lower(fields[d].macAddr) != Lower(mac)
  {
    if repo == [] then None
    else if Lower(fields[repo[0]].macAddr) == Lower(mac) then Some(repo[0])
    else ByMac(repo[1..], fields, mac)
  }

  /** `get_device_by_make_and_model` */
  function ByMakeAndModel(repo: seq<Device>, fields: map<Device, Fields>, make: string, model: string)
    : (r: Option<Device>)
    requires forall d :: d in repo ==> d in fields
    ensures r.None? <==>
      forall d :: d in repo ==> fields[d].manufacturer != make || fields[d].model != model
  {
    if repo == [] then None
    else if fields[repo[0]].manufacturer == make && fields[repo[0]].model == model then Some(repo[0])
    else ByMakeAndModel(repo[1..], fields, make, model)
  }

  /** `list.remove`: the first element that is `d`, or equal to it field by field, goes. */
  function RemoveFirst(repo: seq<Device>, fields: map<Device, Fields>, d: Device): seq<Device>
    requires (forall e :: e in repo ==> e in fields) && d in fields
  {
    if repo == [] then []
    else if repo[0] == d || fields[repo[0]] == fields[d] then repo[1..]
    else [repo[0]] + RemoveFirst(repo[1..], fields, d)
  }

  // ---------------------------------------------------------------------
  // Requests
  // ---------------------------------------------------------------------

  function NewFields(j: DeviceJson): Fields
    requires WellFormed(j)
  {
    Fields("Valid", Lower(j.macAddr.value), j.manufacturer.value, j.model.value, j.kind.value,
           j.technology.value, j.testPack, j.additionalInfo.value, j.testModules, None, FolderName(j))
  }

  function EditedFields(f: Fields, j: DeviceJson): Fields
    requires WellFormed(j)
  {
    f.(status := "Valid", macAddr := Lower(j.macAddr.value), manufacturer := j.manufacturer.value,
       model := j.model.value, kind := j.kind.value, technology := j.technology.value,
       testPack := j.testPack, additionalInfo := j.additionalInfo.value, testModules := j.testModules)
  }

  /** The device is, or equals, the target of a run that has not finished. */
  predicate Busy(s: Store, d: Device)
    requires Known(s) && d in s.fields
  {
    s.target.Some? && s.fields[s.target.value] == s.fields[d] && !Finished(s.status)
  }

  /** `save_device`, with the object that a new device would be. No body stands for invalid JSON. */
  function Save(s: Store, body: Option<DeviceJson>, made: Device): (Store, int)
    requires Known(s)
  {
    if body.None? || !WellFormed(body.value) then (s, 400)
    else
      var j := body.value;
      if ByMac(s.repo, s.fields, j.macAddr.value).Some? then (s, 409)
      else if FolderName(j) in s.folders then (s, 409)
      else if ByMakeAndModel(s.repo, s.fields, j.manufacturer.value, j.model.value).Some? then (s, 409)
      else (s.(repo := s.repo + [made], fields := s.fields[made := NewFields(j)],
               folders := s.folders + {FolderName(j)}), 201)
  }

  /** `edit_device`. The device is changed before its file is written, which needs its folder. */
  function Edit(s: Store, body: Option<EditJson>): (Store, int)
    requires Known(s)
  {
    if body.None? || body.value.macAddr.None? || body.value.device.None?
       || !WellFormed(body.value.device.value) then (s, 400)
    else
      var j := body.value.device.value;
      match ByMac(s.repo, s.fields, body.value.macAddr.value)
      case None => (s, 404)
      case Some(d) =>
        if Busy(s, d) then (s, 403)
        else
          var other := ByMac(s.repo, s.fields, j.macAddr.value);
          if other.Some? && s.fields[d].macAddr != s.fields[other.value].macAddr then (s, 409)
          else (s.(fields := s.fields[d := EditedFields(s.fields[d], j)]),
                if s.fields[d].deviceFolder in s.folders then 200 else 500)
  }

  /** `delete_device`: a body, which may lack the MAC address. Any exception gives 500. */
  function Delete(s: Store, body: Option<Option<string>>): (Store, int)
    requires Known(s)
  {
    if body.None? then (s, 500)
    else if body.value.None? then (s, 400)
    else match ByMac(s.repo, s.fields, Lower(body.value.value))
      case None => (s, 404)
      case Some(d) =>
        if Busy(s, d) then (s, 403)
        else if s.fields[d].deviceFolder !in s.folders then (s, 500)
        else (s.(folders := s.folders - {s.fields[d].deviceFolder},
                 repo := RemoveFirst(s.repo, s.fields, d)), 200)
  }

  /** `start_testrun` with the device and firmware of its body. The session is reset, and then gets its
      target. */
  function StartRun(s: Store, body: Option<(string, string)>, configured: bool, ready: bool): (Store, int)
    requires Known(s)
  {
    if body.None? then (s, 400)
    else match ByMac(s.repo, s.fields, body.value.0)
      case None => (s, 404)
      case Some(d) =>
        if s.fields[d].status != "Valid" then (s, 400)
        else if Running(s.status) then (s, 409)
        else
          var t := s.(fields := s.fields[d := s.fields[d].(firmware := Some(body.value.1))]);
          if !configured then (t, 400)
          else if !ready then (t, 500)
          else (t.(status := Starting, target := Some(d)), 200)
  }

  /** Requests, and what else may happen to the session between them. */
  datatype Event =
    | SaveDevice(body: Option<DeviceJson>, made: Device)
    | EditDevice(edit: Option<EditJson>)
    | DeleteDevice(mac: Option<Option<string>>)
    | StartTestrun(start: Option<(string, string)>, configured: bool, ready: bool)
    | SetStatus(status: Status)
    | Reset

  function Step(s: Store, e: Event): Store
    requires Known(s)
  {
    match e
    case SaveDevice(body, made) => Save(s, body, made).0
    case EditDevice(body) => Edit(s, body).0
    case DeleteDevice(body) => Delete(s, body).0
    case StartTestrun(body, configured, ready) => StartRun(s, body, configured, ready).0
    case SetStatus(status) => s.(status := status)
    case Reset => s.(status := Idle, target := None)
  }

  // ---------------------------------------------------------------------
  // What every request keeps
  // ---------------------------------------------------------------------

  predicate DistinctMacs(repo: seq<Device>, fields: map<Device, Fields>)
    requires forall d :: d in repo ==> d in fields
  {
    forall i, j :: 0 <= i < j < |repo| ==> Lower(fields[repo[i]].macAddr) != Lower(fields[repo[j]].macAddr)
  }

  predicate DistinctFolders(repo: seq<Device>, fields: map<Device, Fields>)
    requires forall d :: d in repo ==> d in fields
  {
    forall i, j :: 0 <= i < j < |repo| ==> fields[repo[i]].deviceFolder != fields[repo[j]].deviceFolder
  }

  /** MAC addresses differ, whatever their case; folders differ, and all of them are there. */
  predicate Sound(s: Store) {
    && Known(s) && DistinctMacs(s.repo, s.fields) && DistinctFolders(s.repo, s.fields)
    && (forall d :: d in s.repo ==> s.fields[d].deviceFolder in s.folders)
  }

  /** The new object of a save is not one that is in use. */
  predicate Fresh(s: Store, e: Event) {
    e.SaveDevice? ==> e.made !in s.fields
  }

  lemma DistinctTail(repo: seq<Device>, fields: map<Device, Fields>, i: nat)
    requires (forall d :: d in repo ==> d in fields) && DistinctMacs(repo, fields) && 0 < i < |repo|
    ensures DistinctMacs(repo[1..], fields)
    ensures repo[0] != repo[i] && fields[repo[0]] != fields[repo[i]]
  {
    hide Lower;
    var rest := repo[1..];
    forall j, k | 0 <= j < k < |rest|
      ensures Lower(fields[rest[j]].macAddr) != Lower(fields[rest[k]].macAddr)
    {
      assert rest[j] == repo[j + 1] && rest[k] == repo[k + 1];
    }
  }

  lemma SpliceTail<T>(xs: seq<T>, i: nat)
    requires 0 < i < |xs|
    ensures xs[1..][i - 1] == xs[i]
    ensures [xs[0]] + (xs[1..][..i - 1] + xs[1..][i..]) == xs[..i] + xs[i + 1..]
  {
  }

  /** With different MAC addresses, removal by equality drops the device meant, and only that. */
  lemma {:induction false} RemovesIt(repo: seq<Device>, fields: map<Device, Fields>, i: nat)
    requires (forall d :: d in repo ==> d in fields) && DistinctMacs(repo, fields) && i < |repo|
    ensures RemoveFirst(repo, fields, repo[i]) == repo[..i] + repo[i + 1..]
  {
    if i > 0 {
      DistinctTail(repo, fields, i);
      hide DistinctMacs;
      RemovesIt(repo[1..], fields, i - 1);
      SpliceTail(repo, i);
    }
  }

  lemma AddSound(s: Store, made: Device, f: Fields)
    requires Sound(s) && made !in s.fields && f.deviceFolder !in s.folders
    requires forall d :: d in s.repo ==> Lower(s.fields[d].macAddr) != Lower(f.macAddr)
    ensures Sound(s.(repo := s.repo + [made], fields := s.fields[made := f],
                     folders := s.folders + {f.deviceFolder}))
  {
    hide Lower;
    var repo, fields := s.repo + [made], s.fields[made := f];
    forall i | 0 <= i < |s.repo| ensures repo[i] == s.repo[i] && fields[repo[i]] == s.fields[s.repo[i]] {
      assert s.repo[i] in s.repo;
    }
  }

  lemma ChangeSound(s: Store, d: Device, f: Fields)
    requires Sound(s) && d in s.repo && f.deviceFolder == s.fields[d].deviceFolder
    requires forall e :: e in s.repo && e != d ==> Lower(s.fields[e].macAddr) != Lower(f.macAddr)
    ensures Sound(s.(fields := s.fields[d := f]))
  {
    hide Lower;
    var fields := s.fields[d := f];
    forall i, j | 0 <= i < j < |s.repo|
      ensures Lower(fields[s.repo[i]].macAddr) != Lower(fields[s.repo[j]].macAddr)
        && fields[s.repo[i]].deviceFolder != fields[s.repo[j]].deviceFolder
    {
      assert s.repo[i] in s.repo && s.repo[j] in s.repo && s.repo[i] != s.repo[j];
    }
  }

  lemma RemoveSound(s: Store, d: Device)
    requires Sound(s) && d in s.repo
    ensures Sound(s.(repo := RemoveFirst(s.repo, s.fields, d),
                     folders := s.folders - {s.fields[d].deviceFolder}))
  {
    hide Lower, RemoveFirst, DistinctFolders;
    var i :| 0 <= i < |s.repo| && s.repo[i] == d;
    RemovesIt(s.repo, s.fields, i);
    DropSound(s.repo, s.fields, i);
    var repo := s.repo[..i] + s.repo[i + 1..];
    forall e | e in repo ensures s.fields[e].deviceFolder in s.folders - {s.fields[d].deviceFolder} {
      assert e in s.repo;
    }
  }

  lemma DropSound(repo: seq<Device>, fields: map<Device, Fields>, i: nat)
    requires (forall d :: d in repo ==> d in fields) && i < |repo|
    requires DistinctMacs(repo, fields) && DistinctFolders(repo, fields)
    ensures var rest := repo[..i] + repo[i + 1..];
      && (forall d :: d in rest ==> d in repo && fields[d].deviceFolder != fields[repo[i]].deviceFolder)
      && DistinctMacs(rest, fields) && DistinctFolders(rest, fields)
  {
    hide Lower;
    var rest := repo[..i] + repo[i + 1..];
    assert forall k :: 0 <= k < i ==> rest[k] == repo[k];
    assert forall k :: i <= k < |rest| ==> rest[k] == repo[k + 1];
    forall d | d in rest ensures d in repo && fields[d].deviceFolder != fields[repo[i]].deviceFolder {
      var k :| 0 <= k < |rest| && rest[k] == d;
      assert d == repo[if k < i then k else k + 1];
    }
  }

  lemma SaveSound(s: Store, body: Option<DeviceJson>, made: Device)
    requires Sound(s) && made !in s.fields
    ensures Sound(Save(s, body, made).0)
  {
    hide Lower, CleanName, DistinctMacs, DistinctFolders, ByMac, ByMakeAndModel;
    if Save(s, body, made).1 == 201 {
      LowerTwice(body.value.macAddr.value);
      AddSound(s, made, NewFields(body.value));
    }
  }

  lemma EditSound(s: Store, body: Option<EditJson>)
    requires Sound(s)
    ensures Sound(Edit(s, body).0) && Edit(s, body).1 != 500
  {
    hide Lower, CleanName, DistinctMacs, DistinctFolders, ByMac;
    if Edit(s, body).1 in {200, 500} {
      var j := body.value.device.value;
      var d := ByMac(s.repo, s.fields, body.value.macAddr.value).value;
      LowerTwice(j.macAddr.value);
      forall e | e in s.repo && e != d ensures Lower(s.fields[e].macAddr) != Lower(j.macAddr.value) {
        OthersDiffer(s, d, e, j.macAddr.value);
      }
      ChangeSound(s, d, EditedFields(s.fields[d], j));
    }
  }

  /** Past the check of an edit, no other device has the new MAC address in any case. */
  lemma OthersDiffer(s: Store, d: Device, e: Device, mac: string)
    requires Sound(s) && d in s.repo && e in s.repo && d != e
    requires var other := ByMac(s.repo, s.fields, mac);
      other.None? || s.fields[d].macAddr == s.fields[other.value].macAddr
    ensures Lower(s.fields[e].macAddr) != Lower(mac)
  {
    var other := ByMac(s.repo, s.fields, mac);
    if other.Some? {
      SameMacSame(s, d, other.value);
      if Lower(s.fields[e].macAddr) == Lower(s.fields[d].macAddr) {
        SameMacSame(s, d, e);
      }
    }
  }

  /** Devices of the repository with the same MAC address are the same. */
  lemma SameMacSame(s: Store, d: Device, e: Device)
    requires Sound(s) && d in s.repo && e in s.repo
    requires Lower(s.fields[d].macAddr) == Lower(s.fields[e].macAddr)
    ensures d == e
  {
    hide Lower;
    var i :| 0 <= i < |s.repo| && s.repo[i] == d;
    var j :| 0 <= j < |s.repo| && s.repo[j] == e;
    assert i == j;
  }

  lemma DistinctRefs(s: Store)
    requires Sound(s)
    ensures forall i, j :: 0 <= i < j < |s.repo| ==> s.repo[i] != s.repo[j]
  {
    hide Lower;
  }

  lemma DeleteSound(s: Store, body: Option<Option<string>>)
    requires Sound(s)
    ensures Sound(Delete(s, body).0) && (body.Some? ==> Delete(s, body).1 != 500)
  {
    hide Lower, DistinctMacs, DistinctFolders, ByMac, RemoveFirst;
    if Delete(s, body).1 == 200 {
      RemoveSound(s, ByMac(s.repo, s.fields, Lower(body.value.value)).value);
    }
  }

  lemma StartSound(s: Store, body: Option<(string, string)>, configured: bool, ready: bool)
    requires Sound(s)
    ensures Sound(StartRun(s, body, configured, ready).0)
  {
    hide Lower, DistinctMacs, DistinctFolders, ByMac;
    var t := StartRun(s, body, configured, ready).0;
    if t != s {
      var d := ByMac(s.repo, s.fields, body.value.0).value;
      forall e | e in s.repo && e != d ensures Lower(s.fields[e].macAddr) != Lower(s.fields[d].macAddr) {
        if Lower(s.fields[e].macAddr) == Lower(s.fields[d].macAddr) {
          SameMacSame(s, e, d);
        }
      }
      ChangeSound(s, d, s.fields[d].(firmware := Some(body.value.1)));
      SoundIsOfRepo(s.(fields := t.fields), t);
    }
  }

  lemma SoundIsOfRepo(s: Store, t: Store)
    requires Sound(s) && Known(t) && t.repo == s.repo && t.fields == s.fields && t.folders == s.folders
    ensures Sound(t)
  {
  }

  /** Every request keeps the MAC addresses apart, and the folders. */
  lemma StepSound(s: Store, e: Event)
    requires Sound(s) && Fresh(s, e)
    ensures Sound(Step(s, e))
  {
    hide DistinctMacs, DistinctFolders, Save, Edit, Delete, StartRun;
    match e
    case SaveDevice(body, made) => SaveSound(s, body, made);
    case EditDevice(body) => EditSound(s, body);
    case DeleteDevice(body) => DeleteSound(s, body);
    case StartTestrun(body, configured, ready) => StartSound(s, body, configured, ready);
    case _ =>
  }

  /** No save of the run makes an object that is already in use. */
  ghost predicate FreshAll(s: Store, es: seq<Event>)
    requires Known(s)
    decreases |es|
  {
    es != [] ==> Fresh(s, es[0]) && Known(Step(s, es[0])) && FreshAll(Step(s, es[0]), es[1..])
  }

  function Run(s: Store, es: seq<Event>): (t: Store)
    requires Known(s) && FreshAll(s, es)
    ensures Known(t)
    decreases |es|
  {
    if es == [] then s else Run(Step(s, es[0]), es[1..])
  }

  /** After any sequence of requests the MAC addresses differ, the folders differ, and each device has its
      folder. */
  lemma {:induction false} RunSound(s: Store, es: seq<Event>)
    requires Sound(s) && FreshAll(s, es)
    ensures Sound(Run(s, es))
    decreases |es|
  {
    hide Step, DistinctMacs, DistinctFolders;
    if es != [] {
      StepSound(s, es[0]);
      RunSound(Step(s, es[0]), es[1..]);
    }
  }

  /** A delete request that succeeds takes the device with that MAC address, and no other, out of the
      repository, and its folder from the disk. */
  lemma DeleteDropsIt(s: Store, mac: string)
    requires Sound(s)
    ensures var (t, code) := Delete(s, Some(Some(mac)));
      && (code == 200 ==> exists i :: (0 <= i < |s.repo|
            && Lower(s.fields[s.repo[i]].macAddr) == Lower(mac)
            && t.repo == s.repo[..i] + s.repo[i + 1..]
            && t.folders == s.folders - {s.fields[s.repo[i]].deviceFolder}))
      && (code == 404 <==> forall d :: d in s.repo ==> Lower(s.fields[d].macAddr) != Lower(mac))
      && (code != 200 ==> t == s)
  {
    hide Lower, DistinctFolders;
    LowerTwice(mac);
    var found := ByMac(s.repo, s.fields, Lower(mac));
    if found.Some? {
      var i :| 0 <= i < |s.repo| && s.repo[i] == found.value;
      RemovesIt(s.repo, s.fields, i);
    }
  }

  // ---------------------------------------------------------------------
  // The target of a run
  // ---------------------------------------------------------------------

  /** A run that has not finished, with its target in the repository. */
  predicate InRun(s: Store) {
    s.target.Some? && s.target.value in s.repo && !Finished(s.status)
  }

  /** Whether the step starts another run or clears the session. */
  predicate NewRun(s: Store, e: Event)
    requires Known(s)
  {
    e.Reset? || (e.StartTestrun? && StartRun(s, e.start, e.configured, e.ready).1 == 200)
  }

  lemma EditSparesTarget(s: Store, body: Option<EditJson>)
    requires Sound(s) && InRun(s)
    ensures var t := Edit(s, body).0;
      t.repo == s.repo && t.target == s.target && t.fields[s.target.value] == s.fields[s.target.value]
  {
    hide Lower, DistinctMacs, DistinctFolders, CleanName, ByMac;
  }

  lemma OthersStay(repo: seq<Device>, i: nat, d: Device)
    requires i < |repo| && d in repo && d != repo[i]
    ensures d in repo[..i] + repo[i + 1..]
  {
    var j :| 0 <= j < |repo| && repo[j] == d;
    assert (repo[..i] + repo[i + 1..])[if j < i then j else j - 1] == d;
  }

  lemma DeleteSparesTarget(s: Store, body: Option<Option<string>>)
    requires Sound(s) && InRun(s)
    ensures var t := Delete(s, body).0;
      t.target.value in t.repo && t.target == s.target && t.fields == s.fields
  {
    hide Lower, DistinctFolders;
    var t := Delete(s, body).0;
    if t != s {
      var d := ByMac(s.repo, s.fields, Lower(body.value.value)).value;
      var i :| 0 <= i < |s.repo| && s.repo[i] == d;
      RemovesIt(s.repo, s.fields, i);
      OthersStay(s.repo, i, s.target.value);
    }
  }

  /** While a run has not finished, no request but a start takes its target out of the repository or
      changes anything of it but the firmware. */
  lemma StepSparesTarget(s: Store, e: Event)
    requires Sound(s) && InRun(s) && Fresh(s, e) && !NewRun(s, e)
    ensures var t := Step(s, e);
      && t.target == s.target && t.target.value in t.repo
      && t.fields[t.target.value] == s.fields[s.target.value].(firmware := t.fields[t.target.value].firmware)
  {
    hide Lower, DistinctMacs, DistinctFolders, CleanName, ByMac, ByMakeAndModel, Edit, Delete;
    match e
    case SaveDevice(body, made) =>
    case EditDevice(body) => EditSparesTarget(s, body);
    case DeleteDevice(body) => DeleteSparesTarget(s, body);
    case _ =>
  }

  /** The run goes on: no step finishes it, clears it, or starts another. */
  ghost predicate GoesOn(s: Store, es: seq<Event>)
    requires Known(s) && FreshAll(s, es)
    decreases |es|
  {
    es != [] ==>
      && !NewRun(s, es[0]) && !Finished(Step(s, es[0]).status)
      && GoesOn(Step(s, es[0]), es[1..])
  }

  /** From a start to the end of the run: whatever requests come in, the target stays in the repository,
      with its MAC address and its folder. */
  lemma {:induction false} TargetStays(s: Store, es: seq<Event>)
    requires Sound(s) && InRun(s) && FreshAll(s, es) && GoesOn(s, es)
    ensures var t := Run(s, es);
      && InRun(t) && t.target == s.target
      && t.fields[t.target.value].macAddr == s.fields[s.target.value].macAddr
      && t.fields[t.target.value].deviceFolder == s.fields[s.target.value].deviceFolder
    decreases |es|
  {
    hide Step, DistinctMacs, DistinctFolders;
    if es != [] {
      StepSound(s, es[0]);
      StepSparesTarget(s, es[0]);
      TargetStays(Step(s, es[0]), es[1..]);
    }
  }

  /** A start that succeeds begins such a run. */
  lemma StartBegins(s: Store, mac: string, firmware: string)
    requires Sound(s) && StartRun(s, Some((mac, firmware)), true, true).1 == 200
    ensures InRun(StartRun(s, Some((mac, firmware)), true, true).0)
  {
  }

  /** Once the run has finished, its target can be deleted. */
  lemma FinishedTargetGoes(s: Store)
    requires Sound(s) && s.target.Some? && s.target.value in s.repo && Finished(s.status)
    ensures var (t, code) := Delete(s, Some(Some(s.fields[s.target.value].macAddr)));
      code == 200 && s.target.value !in t.repo && t.target == s.target
  {
    hide Lower, DistinctFolders;
    var d := s.target.value;
    LowerTwice(s.fields[d].macAddr);
    var found := ByMac(s.repo, s.fields, Lower(s.fields[d].macAddr));
    SameMacSame(s, found.value, d);
    var i :| 0 <= i < |s.repo| && s.repo[i] == d;
    RemovesIt(s.repo, s.fields, i);
    DistinctRefs(s);
  }
}
