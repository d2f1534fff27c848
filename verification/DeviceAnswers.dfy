/** What each device request is answered with, and what a request that succeeds stores. */
module DeviceAnswers {
  import opened Common
  import opened Status
  import opened Device
  import opened DeviceStore

  /** The manufacturer or model is short enough and has none of five characters. */
  predicate NameOk(name: string) {
    |name| <= 28 && forall c :: c in name ==> c !in "/\\'\";"
  }

  /** All that must be in a device body is there. */
  predicate BodyOk(j: DeviceJson) {
    && j.macAddr.Some? && j.manufacturer.Some? && j.model.Some? && j.kind.Some? && j.technology.Some?
    && j.additionalInfo.Some? && NameOk(j.manufacturer.value) && NameOk(j.model.value)
  }

  lemma BodyOkIff(j: DeviceJson)
    ensures WellFormed(j) <==> BodyOk(j)
  {
    assert forall c: char :: c in "/\\'\";" <==> c in DISALLOWED;
  }

  /** The device has this MAC address, in whatever case. */
  predicate HasMac(s: Store, d: Device, mac: string)
    requires Known(s)
  {
    d in s.repo && Lower(s.fields[d].macAddr) == Lower(mac)
  }

  /** The device is, or equals field by field, the target of a run that is still going on. */
  predicate InUse(s: Store, d: Device)
    requires Known(s) && d in s.repo
  {
    && s.target.Some? && s.fields[s.target.value] == s.fields[d]
    && s.status !in {Cancelled, Complete, Proceed, DoNotProceed}
  }

  /** The fields are those of the request. */
  predicate Stores(f: Fields, j: DeviceJson)
    requires BodyOk(j)
  {
    && f.status == "Valid" && f.macAddr == Lower(j.macAddr.value)
    && f.manufacturer == j.manufacturer.value && f.model == j.model.value
    && f.kind == j.kind.value && f.technology == j.technology.value
    && f.testPack == j.testPack && f.additionalInfo == j.additionalInfo.value
    && f.testModules == j.testModules
  }

  /** Only the object `d` may have changed. */
  ghost predicate OthersSame(s: Store, t: Store, d: Device) {
    t.fields.Keys == s.fields.Keys + {d} && forall e :: e in s.fields && e != d ==> t.fields[e] == s.fields[e]
  }

  /** A save: refused for a bad body, or for a MAC address, a folder or a make and model that is taken; else the
      request is stored in a new device at the end of the repository, with its folder. */
  lemma SaveAnswers(s: Store, body: Option<DeviceJson>, made: Device)
    requires Known(s) && made !in s.fields
    ensures var (t, code) := Save(s, body, made);
      && (code == 400 <==> body.None? || !BodyOk(body.value))
      && (code == 409 <==>
            body.Some? && BodyOk(body.value)
            && ((exists d :: HasMac(s, d, body.value.macAddr.value))
                || body.value.manufacturer.value + " " + body.value.model.value in s.folders
                || exists d :: d in s.repo && s.fields[d].manufacturer == body.value.manufacturer.value
                                           && s.fields[d].model == body.value.model.value))
      && (code != 400 && code != 409 ==>
            && code == 201 && t.repo == s.repo + [made] && OthersSame(s, t, made)
            && Stores(t.fields[made], body.value) && t.fields[made].firmware.None?
            && t.fields[made].deviceFolder == body.value.manufacturer.value + " " + body.value.model.value
            && t.folders == s.folders + {t.fields[made].deviceFolder}
            && t.target == s.target && t.status == s.status)
      && (code != 201 ==> t == s)
  {
    hide Lower, NameOk, CleanName;
    if body.Some? {
      BodyOkIff(body.value);
      if BodyOk(body.value) {
        var mac := body.value.macAddr.value;
        var found := ByMac(s.repo, s.fields, mac);
        if found.Some? {
          assert HasMac(s, found.value, mac);
        }
      }
    }
  }

  /** An edit, of the device `d` that has the MAC address given: refused while `d` is in use, and for a new MAC
      address that another device has; else the request is stored in `d`, which keeps its folder and firmware. */
  lemma EditAnswers(s: Store, mac: string, j: DeviceJson, d: Device)
    requires Sound(s) && HasMac(s, d, mac)
    ensures var (t, code) := Edit(s, Some(EditJson(Some(mac), Some(j))));
      && (code == 400 <==> !BodyOk(j))
      && (code == 403 <==> BodyOk(j) && InUse(s, d))
      && (code == 409 <==> BodyOk(j) && !InUse(s, d) && exists e :: e != d && HasMac(s, e, j.macAddr.value))
      && (code !in {400, 403, 409} ==>
            && code == 200 && t == s.(fields := t.fields) && OthersSame(s, t, d)
            && Stores(t.fields[d], j)
            && t.fields[d].deviceFolder == s.fields[d].deviceFolder && t.fields[d].firmware == s.fields[d].firmware)
      && (code != 200 ==> t == s)
  {
    hide Lower, NameOk, CleanName, DistinctMacs, DistinctFolders;
    BodyOkIff(j);
    var found := ByMac(s.repo, s.fields, mac);
    SameMacSame(s, found.value, d);
    if BodyOk(j) && !InUse(s, d) {
      var other := ByMac(s.repo, s.fields, j.macAddr.value);
      if other.Some? {
        if s.fields[other.value].macAddr == s.fields[d].macAddr {
          SameMacSame(s, other.value, d);
        }
        forall e | HasMac(s, e, j.macAddr.value) ensures e == other.value {
          SameMacSame(s, e, other.value);
        }
        assert HasMac(s, other.value, j.macAddr.value);
      }
    }
  }

  /** An edit for a MAC address that no device has, or without the two parts of its body. */
  lemma EditRefused(s: Store, body: Option<EditJson>)
    requires Known(s)
    ensures var (t, code) := Edit(s, body);
      && (code == 404 <==>
            body.Some? && body.value.macAddr.Some? && body.value.device.Some?
            && BodyOk(body.value.device.value) && forall d :: !HasMac(s, d, body.value.macAddr.value))
      && (body.None? || body.value.macAddr.None? || body.value.device.None? ==> code == 400)
      && (code in {400, 404} ==> t == s)
  {
    hide Lower, NameOk, CleanName;
    if body.Some? && body.value.macAddr.Some? && body.value.device.Some? {
      BodyOkIff(body.value.device.value);
      var found := ByMac(s.repo, s.fields, body.value.macAddr.value);
      if found.Some? {
        assert HasMac(s, found.value, body.value.macAddr.value);
      }
    }
  }

  /** A delete, of the device `d` that has the MAC address given, is refused exactly while `d` is in use. */
  lemma DeleteAnswers(s: Store, mac: string, d: Device)
    requires Sound(s) && HasMac(s, d, mac)
    ensures var (t, code) := Delete(s, Some(Some(mac)));
      && (code == 403 <==> InUse(s, d)) && (code != 403 <==> code == 200)
      && (code == 403 ==> t == s)
    ensures Delete(s, Some(None)) == (s, 400) && Delete(s, None) == (s, 500)
  {
    hide Lower, DistinctMacs, DistinctFolders;
    LowerTwice(mac);
    var found := ByMac(s.repo, s.fields, Lower(mac));
    SameMacSame(s, found.value, d);
  }

  /** A start, for the device `d` that has the MAC address given: refused if `d` is not fully configured, if a run
      is under way, if no interface is configured, or if the interfaces are not ready. The firmware is stored
      although one of the last two refuses the start. */
  lemma StartAnswers(s: Store, mac: string, firmware: string, configured: bool, ready: bool, d: Device)
    requires Sound(s) && HasMac(s, d, mac)
    ensures var (t, code) := StartRun(s, Some((mac, firmware)), configured, ready);
      var busy := s.status in {InProgress, WaitingForDevice, Monitoring, Validating, Starting};
      var valid := s.fields[d].status == "Valid";
      && (code == 409 <==> valid && busy)
      && (code == 400 <==> !valid || (!busy && !configured))
      && (code == 500 <==> valid && !busy && configured && !ready)
      && (code !in {400, 409, 500} ==> code == 200 && t.status == Starting && t.target == Some(d))
      && (code != 200 ==> t.status == s.status && t.target == s.target)
      && t.repo == s.repo && t.folders == s.folders && OthersSame(s, t, d)
      && t.fields[d] == (if valid && !busy then s.fields[d].(firmware := Some(firmware)) else s.fields[d])
  {
    hide Lower, DistinctMacs, DistinctFolders;
    var found := ByMac(s.repo, s.fields, mac);
    SameMacSame(s, found.value, d);
  }

  /** A start without a device in its body, or for a MAC address that no device has. */
  lemma StartRefused(s: Store, mac: string, firmware: string, configured: bool, ready: bool)
    requires Known(s)
    ensures StartRun(s, None, configured, ready) == (s, 400)
    ensures StartRun(s, Some((mac, firmware)), configured, ready).1 == 404 <==> forall d :: !HasMac(s, d, mac)
    ensures (forall d :: !HasMac(s, d, mac)) ==> StartRun(s, Some((mac, firmware)), configured, ready).0 == s
  {
    hide Lower;
    var found := ByMac(s.repo, s.fields, mac);
    if found.Some? {
      assert HasMac(s, found.value, mac);
    }
  }
}
