/** The request handlers that change the device repository. */
module DeviceApi {
  import opened Common
  import opened Status
  import opened Device
  import opened DeviceStore
  import Adapters
  import Publishing
  import Session

  class Api {
    const session: Session.TestrunSession
    /** The device folders on disk. */
    var folders: set<string>
    /** The device objects met so far. */
    ghost var devices: set<Device>

    constructor (session: Session.TestrunSession, folders: set<string>)
      ensures this.session == session && this.folders == folders
      ensures devices == (set d | d in session.deviceRepository) + (if session.device == null then {} else {session.device})
    {
      this.session, this.folders := session, folders;
      devices := (set d | d in session.deviceRepository) + (if session.device == null then {} else {session.device});
    }

    ghost predicate Valid()
      reads this, session
    {
      && (forall d :: d in session.deviceRepository ==> d in devices)
      && (session.device != null ==> session.device in devices)
    }

    ghost function State(): (s: Store)
      requires Valid()
      reads this, session, devices
      ensures Known(s)
    {
      Store(session.deviceRepository, map d | d in devices :: d.View(), folders,
            Session.AsOption(session.device), session.status)
    }

    method ValidateDeviceJson(j: DeviceJson) returns (ok: bool)
      ensures ok == WellFormed(j)
    {
      if j.macAddr.None? || j.manufacturer.None? || j.model.None? || j.kind.None? || j.technology.None?
         || j.additionalInfo.None? {
        return false;
      }
      var make, model := j.manufacturer.value, j.model.value;
      if |make| > 28 || |model| > 28 {
        return false;
      }
      for i := 0 to |make|
        invariant forall k :: 0 <= k < i ==> make[k] !in DISALLOWED
      {
        if make[i] in DISALLOWED {
          return false;
        }
      }
      for i := 0 to |model|
        invariant forall k :: 0 <= k < i ==> model[k] !in DISALLOWED
      {
        if model[i] in DISALLOWED {
          return false;
        }
      }
      ok := true;
    }

    method GetDevice(mac: string) returns (d: Device?)
      requires Valid()
      ensures Session.AsOption(d) == ByMac(State().repo, State().fields, mac)
      ensures d != null ==> d in session.deviceRepository
    {
      d := session.GetDevice(mac);
      SameByMac(session.deviceRepository, Session.FieldsOf(session.deviceRepository), State().fields, mac);
    }

    method GetDeviceByMakeAndModel(make: string, model: string) returns (d: Device?)
      requires Valid()
      ensures Session.AsOption(d) == ByMakeAndModel(State().repo, State().fields, make, model)
    {
      d := session.GetDeviceByMakeAndModel(make, model);
      SameByMake(session.deviceRepository, Session.FieldsOf(session.deviceRepository), State().fields, make, model);
    }

    /** `create_device` of the test runner: makes the folder and adds the device. Making a folder that is
        there raises. */
    method CreateDevice(d: Device) returns (done: bool)
      requires Valid() && d !in devices
      modifies this, session
      ensures Valid() && done == (d.deviceFolder !in old(folders))
      ensures State() == if !done then old(State())
        else old(State()).(
          repo := old(State()).repo + [d],
          fields := old(State()).fields[d := d.View()],
          folders := old(folders) + {d.deviceFolder})
    {
      ghost var fields := State().fields;
      if d.deviceFolder in folders {
        return false;
      }
      folders := folders + {d.deviceFolder};
      session.AddDevice(d);
      devices := devices + {d};
      assert State().fields == fields[d := d.View()];
      done := true;
    }

    /** The assignments of an edit, and `save_device` of the test runner, which writes to the folder. */
    method UpdateDevice(d: Device, j: DeviceJson) returns (written: bool)
      requires Valid() && d in session.deviceRepository && WellFormed(j)
      modifies d
      ensures Valid() && State() == old(State()).(
        fields := old(State()).fields[d := EditedFields(old(State()).fields[d], j)])
      ensures written == (State().fields[d].deviceFolder in State().folders)
    {
      hide Lower, CleanName;
      ghost var fields := State().fields;
      AssignFields(d, j);
      written := d.deviceFolder in folders;
      assert State().fields == fields[d := EditedFields(fields[d], j)];
    }

    static method AssignFields(d: Device, j: DeviceJson)
      requires WellFormed(j)
      modifies d
      ensures d.View() == EditedFields(old(d.View()), j)
    {
      hide Lower, CleanName;
      d.macAddr := Lower(j.macAddr.value);
      d.manufacturer := j.manufacturer.value;
      d.model := j.model.value;
      d.testPack := j.testPack;
      d.kind := j.kind.value;
      d.technology := j.technology.value;
      d.additionalInfo := j.additionalInfo.value;
      d.testModules := j.testModules;
      d.status := "Valid";
    }

    /** `delete_device` of the test runner: removing a folder that is not there raises. */
    method RemoveDevice(d: Device) returns (done: bool)
      requires Valid() && d in session.deviceRepository
      modifies this`folders, session
      ensures Valid() && done == (d.deviceFolder in old(folders))
      ensures State() == if !done then old(State())
        else old(State()).(
          folders := old(folders) - {d.deviceFolder},
          repo := RemoveFirst(old(State()).repo, old(State()).fields, d))
    {
      hide RemoveFirst, Publishing.Track, Device.View;
      ghost var fields := State().fields;
      if d.deviceFolder !in folders {
        return false;
      }
      folders := folders - {d.deviceFolder};
      ghost var repo := session.deviceRepository;
      RemainsKnown(repo, fields, d);
      SameRemoval(repo, Session.FieldsOf(repo), fields, d);
      session.RemoveDevice(d);
      assert session.deviceRepository == RemoveFirst(repo, fields, d);
      assert State().fields == fields;
      done := true;
    }

    method SetFirmware(d: Device, firmware: string)
      requires Valid() && d in session.deviceRepository
      modifies d
      ensures Valid() && State() == old(State()).(
        fields := old(State()).fields[d := old(State()).fields[d].(firmware := Some(firmware))])
    {
      ghost var fields := State().fields;
      d.firmware := Some(firmware);
      assert State().fields == fields[d := fields[d].(firmware := Some(firmware))];
    }

    /** The session starts, and then gets its target. */
    method BeginRun(d: Device, now: Adapters.Ifaces)
      requires Valid() && d in session.deviceRepository
      modifies session
      ensures Valid() && State() == old(State()).(status := Starting, target := Some(d))
    {
      ghost var fields := State().fields;
      session.Start(now);
      session.SetTargetDevice(d);
      assert State().fields == fields;
    }

    /** Whether the device is, or equals, the target of a run that has not finished. */
    method IsBusy(d: Device) returns (busy: bool)
      requires Valid() && d in session.deviceRepository
      ensures busy == Busy(State(), d)
    {
      busy := session.device != null && session.device.View() == d.View() && !Finished(session.status);
    }

    /** Gives the object that was made, or would have been. */
    method SaveDevice(body: Option<DeviceJson>) returns (code: int, made: Device)
      requires Valid()
      modifies this, session
      ensures Valid() && fresh(made)
      ensures (State(), code) == Save(old(State()), body, made)
    {
      hide Lower, CleanName, ByMac, ByMakeAndModel, State;
      FoldersAre();
      made := new Device(BLANK);
      if body.None? {
        return 400, made;
      }
      var j := body.value;
      var ok := ValidateDeviceJson(j);
      if !ok {
        return 400, made;
      }
      var found := GetDevice(j.macAddr.value);
      if found != null {
        return 409, made;
      }
      var same := GetDeviceByMakeAndModel(j.manufacturer.value, j.model.value);
      if j.manufacturer.value + " " + j.model.value in folders {
        return 409, made;
      }
      if same != null {
        return 409, made;
      }
      made := new Device(NewFields(j));
      var done := CreateDevice(made);
      assert done;
      code := 201;
    }

    method EditDevice(body: Option<EditJson>) returns (code: int)
      requires Valid()
      modifies session.deviceRepository
      ensures Valid() && (State(), code) == Edit(old(State()), body)
    {
      hide Lower, CleanName, ByMac, State;
      if body.None? || body.value.macAddr.None? || body.value.device.None? {
        return 400;
      }
      var j := body.value.device.value;
      var ok := ValidateDeviceJson(j);
      if !ok {
        return 400;
      }
      var d := GetDevice(body.value.macAddr.value);
      if d == null {
        return 404;
      }
      var busy := IsBusy(d);
      if busy {
        return 403;
      }
      var other := GetDevice(j.macAddr.value);
      if other != null {
        ViewIs(d);
        ViewIs(other);
        if d.macAddr != other.macAddr {
          return 409;
        }
      }
      var written := UpdateDevice(d, j);
      code := if written then 200 else 500;
    }

    method DeleteDevice(body: Option<Option<string>>) returns (code: int)
      requires Valid()
      modifies this`folders, session
      ensures Valid() && (State(), code) == Delete(old(State()), body)
    {
      hide Lower, ByMac, RemoveFirst, State;
      if body.None? {
        return 500;
      }
      if body.value.None? {
        return 400;
      }
      var d := GetDevice(Lower(body.value.value));
      if d == null {
        return 404;
      }
      var busy := IsBusy(d);
      if busy {
        return 403;
      }
      ViewIs(d);
      var done := RemoveDevice(d);
      code := if done then 200 else 500;
    }

    /** `configured`: an interface is set; `ready`: the network can start; `now`: the adapters. */
    method StartTestrun(body: Option<(string, string)>, configured: bool, ready: bool, now: Adapters.Ifaces)
      returns (code: int)
      requires Valid()
      modifies session, session.deviceRepository
      ensures Valid() && (State(), code) == StartRun(old(State()), body, configured, ready)
    {
      hide Lower, ByMac, State;
      if body.None? {
        return 400;
      }
      var d := GetDevice(body.value.0);
      if d == null {
        return 404;
      }
      ViewIs(d);
      if d.status != "Valid" {
        return 400;
      }
      if Running(session.status) {
        return 409;
      }
      SetFirmware(d, body.value.1);
      if !configured {
        return 400;
      }
      if !ready {
        return 500;
      }
      BeginRun(d, now);
      code := 200;
    }

    lemma FoldersAre()
      requires Valid()
      ensures State().folders == folders
    {
    }

    lemma ViewIs(d: Device)
      requires Valid() && d in session.deviceRepository
      ensures d in State().fields && State().fields[d] == d.View()
      ensures State().folders == folders && State().status == session.status
    {
    }
  }

  /** The fields of a device made from nothing. */
  const BLANK := Fields("Valid", "", "", "", "", "", None, "", None, None, "")

  lemma {:induction false} RemainsKnown(repo: seq<Device>, fields: map<Device, Fields>, d: Device)
    requires (forall e :: e in repo ==> e in fields) && d in fields
    ensures forall e :: e in RemoveFirst(repo, fields, d) ==> e in repo
  {
    if repo != [] && repo[0] != d && fields[repo[0]] != fields[d] {
      RemainsKnown(repo[1..], fields, d);
    }
  }

  // A look-up depends on the fields of the devices looked at only.

  ghost predicate Agree(repo: seq<Device>, f: map<Device, Fields>, g: map<Device, Fields>) {
    forall d :: d in repo ==> d in f && d in g && f[d] == g[d]
  }

  lemma {:induction false} SameByMac(repo: seq<Device>, f: map<Device, Fields>, g: map<Device, Fields>, mac: string)
    requires Agree(repo, f, g)
    ensures ByMac(repo, f, mac) == ByMac(repo, g, mac)
  {
    hide Lower;
    if repo != [] {
      SameByMac(repo[1..], f, g, mac);
    }
  }

  lemma {:induction false} SameByMake(repo: seq<Device>, f: map<Device, Fields>, g: map<Device, Fields>,
                                      make: string, model: string)
    requires Agree(repo, f, g)
    ensures ByMakeAndModel(repo, f, make, model) == ByMakeAndModel(repo, g, make, model)
  {
    if repo != [] {
      SameByMake(repo[1..], f, g, make, model);
    }
  }

  lemma {:induction false} SameRemoval(repo: seq<Device>, f: map<Device, Fields>, g: map<Device, Fields>, d: Device)
    requires Agree(repo, f, g) && d in f && d in g && f[d] == g[d]
    ensures RemoveFirst(repo, f, d) == RemoveFirst(repo, g, d)
  {
    if repo != [] {
      SameRemoval(repo[1..], f, g, d);
    }
  }
}
