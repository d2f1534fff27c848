/** The session: its status and what it publishes, its results, adapters, target and devices. Every
    public method that does not begin with `get` is tracked. */
module Session {
  import opened Common
  import opened Status
  import opened Publishing
  import opened Device
  import TestResults
  import Adapters
  import DeviceStore

  class TestrunSession {
    var status: Status
    var pauseMessage: bool
    /** The messages sent on the status topic, and where `reset` has cleared `pauseMessage`. */
    var log: seq<Event>
    var results: seq<TestResults.TestCase>
    var ifaces: Adapters.Ifaces
    var device: Device?
    var deviceRepository: seq<Device>

    constructor ()
      ensures Publisher() == FRESH && results == [] && ifaces == map[]
      ensures device == null && deviceRepository == []
    {
      status, pauseMessage, log := Idle, false, [];
      results, ifaces, device, deviceRepository := [], map[], null, [];
    }

    function Publisher(): Publisher
      reads this`status, this`pauseMessage, this`log
    {
      Publishing.Publisher(status, pauseMessage, log)
    }

    /** What the tracker does when a tracked method returns. */
    method Tracked()
      modifies this`pauseMessage, this`log
      ensures Publisher() == Track(old(Publisher()))
    {
      if status != Idle && !pauseMessage {
        log := log + [Sent(status)];
        if status in {Cancelled, Complete, DoNotProceed, Proceed, Idle} {
          pauseMessage := true;
        }
      }
    }

    method SetStatus(s: Status)
      modifies this`status, this`pauseMessage, this`log
      ensures Publisher() == Publishing.SetStatus(old(Publisher()), s)
    {
      status := s;
      Tracked();
    }

    method SetTargetDevice(d: Device?)
      modifies this`device, this`pauseMessage, this`log
      ensures device == d && Publisher() == Track(old(Publisher()))
    {
      device := d;
      Tracked();
    }

    /** The result, the description, and the report and certificate fields, each set by a tracked setter,
        are not kept here; `now` are the adapters of the machine. */
    method Reset(now: Adapters.Ifaces)
      modifies this`status, this`pauseMessage, this`log, this`results, this`ifaces, this`device
      ensures Publisher() == Publishing.Reset(old(Publisher()))
      ensures results == [] && device == null && ifaces == now
    {
      SetStatus(Idle);
      pauseMessage := false;
      log := log + [Cleared];
      Tracked();
      Tracked();
      SetTargetDevice(null);
      results := [];
      ifaces := now;
      Tracked();
    }

    method Start(now: Adapters.Ifaces)
      modifies this`status, this`pauseMessage, this`log, this`results, this`ifaces, this`device
      ensures Publisher() == Publishing.Start(old(Publisher()))
      ensures results == [] && device == null && ifaces == now
    {
      Reset(now);
      status := Starting;
      pauseMessage := false;
      Tracked();
    }

    method Finish()
      modifies results, this`pauseMessage, this`log
      requires Distinct(results)
      ensures TestResults.Views(results) == TestResults.FinishAll(old(TestResults.Views(results)))
      ensures Publisher() == Track(old(Publisher()))
    {
      hide Track;
      ghost var before := TestResults.Views(results);
      for i := 0 to |results|
        invariant forall j :: 0 <= j < i ==> results[j].View() == TestResults.Finished(before[j])
        invariant forall j :: i <= j < |results| ==> results[j].View() == before[j]
        modifies results
      {
        if results[i].result == Some(TestResults.InProgress) {
          results[i].result := Some(TestResults.Error);
        }
      }
      Tracked();
    }

    method Stop()
      modifies results, this`status, this`pauseMessage, this`log
      requires Distinct(results)
      ensures TestResults.Views(results) == TestResults.FinishAll(old(TestResults.Views(results)))
      ensures Publisher() == Publishing.Stop(old(Publisher()))
    {
      hide Track, TestResults.Finished, TestResults.FinishAll;
      SetStatus(Stopping);
      Finish();
      Tracked();
    }

    /** `add_test_result`. The object given may be one of those in the list; then it changes with them. */
    method AddTestResult(r: TestResults.TestCase)
      requires Distinct(results)
      modifies results, this`results, this`pauseMessage, this`log
      ensures Distinct(results) && results == old(results) + (if |results| == |old(results)| then [] else [r])
      ensures r !in old(results) ==>
        TestResults.Views(results) == TestResults.Add(old(TestResults.Views(results)), r.View())
      ensures forall k :: 0 <= k < |old(results)| && old(results)[k] == r ==>
        TestResults.Views(results) == TestResults.AddStored(old(TestResults.Views(results)), k)
      ensures Publisher() == Track(old(Publisher()))
    {
      hide Track;
      if r in results {
        AddAgain(r);
      } else {
        AddOther(r);
      }
      Tracked();
    }

    /** The loop, for an object that is not in the list. */
    method AddOther(r: TestResults.TestCase)
      requires r !in results && Distinct(results)
      modifies results, this`results
      ensures Distinct(results) && results == old(results) + (if |results| == |old(results)| then [] else [r])
      ensures TestResults.Views(results) == TestResults.Add(old(TestResults.Views(results)), r.View())
    {
      hide TestResults.Update, TestResults.UpdateAll, TestResults.Flatten;
      var updated := false;
      ghost var before, c := TestResults.Views(results), r.View();
      for i := 0 to |results|
        invariant r.View() == c
        invariant updated <==> TestResults.Named(before[..i], c.name)
        invariant forall j :: 0 <= j < i ==>
          results[j].View() == (if before[j].name == c.name then TestResults.Update(before[j], c) else before[j])
        invariant forall j :: i <= j < |results| ==> results[j].View() == before[j]
        modifies results
      {
        assert results[i].View() == before[i];
        NamedStep(before, i, c.name);
        if results[i].name == r.name {
          results[i].UpdateFrom(r);
          updated := true;
        }
      }
      assert before[..|results|] == before;
      if !updated {
        results := results + [r];
        assert TestResults.Views(results) == before + [c];
      } else {
        assert TestResults.Views(results) == TestResults.UpdateAll(before, c);
      }
    }

    /** The same loop, for an object that is in the list: it meets itself, so nothing is appended. */
    method AddAgain(r: TestResults.TestCase)
      requires r in results && Distinct(results)
      modifies results
      ensures forall k :: 0 <= k < |results| && results[k] == r ==>
        TestResults.Views(results) == TestResults.AddStored(old(TestResults.Views(results)), k)
    {
      hide TestResults.Update, TestResults.UpdateSelf, TestResults.Flatten;
      ghost var before := TestResults.Views(results);
      ghost var k :| 0 <= k < |results| && results[k] == r;
      for i := 0 to |results|
        invariant r.View() == if i <= k then before[k] else TestResults.UpdateSelf(before[k])
        invariant r.name == before[k].name
        invariant forall j :: 0 <= j < i ==> results[j].View() == TestResults.UpdatedFrom(before, k, j)
        invariant forall j :: i <= j < |results| ==> results[j].View() == before[j]
        modifies results
      {
        assert results[i].View() == before[i];
        assert i != k ==> results[i] != r;
        if results[i].name == r.name {
          results[i].UpdateFrom(r);
        }
        SelfKeepsName(before[k]);
      }
      assert TestResults.Views(results) == TestResults.AddStored(before, k);
    }

    method DetectNetworkAdaptersChange(now: Adapters.Ifaces) returns (message: Option<Adapters.Diff>)
      modifies this`ifaces, this`pauseMessage, this`log
      ensures (ifaces, message) == Adapters.Detect(old(ifaces), now)
      ensures Publisher() == Track(old(Publisher()))
    {
      var diff := Adapters.DiffDicts(ifaces, now);
      message := None;
      if Adapters.Tells(diff) {
        message := Some(diff);
        ifaces := now;
      }
      Tracked();
    }

    /** The loop returns the first device with the MAC address. */
    method GetDevice(mac: string) returns (found: Device?)
      ensures AsOption(found) == DeviceStore.ByMac(deviceRepository, FieldsOf(deviceRepository), mac)
    {
      hide Lower;
      ghost var fields := FieldsOf(deviceRepository);
      assert deviceRepository[0..] == deviceRepository;
      for i := 0 to |deviceRepository|
        invariant DeviceStore.ByMac(deviceRepository, fields, mac)
               == DeviceStore.ByMac(deviceRepository[i..], fields, mac)
      {
        var d := deviceRepository[i];
        assert deviceRepository[i..][0] == d && deviceRepository[i..][1..] == deviceRepository[i + 1..];
        if Lower(d.macAddr) == Lower(mac) {
          return d;
        }
      }
      found := null;
    }

    method GetDeviceByMakeAndModel(make: string, model: string) returns (found: Device?)
      ensures AsOption(found)
        == DeviceStore.ByMakeAndModel(deviceRepository, FieldsOf(deviceRepository), make, model)
    {
      ghost var fields := FieldsOf(deviceRepository);
      assert deviceRepository[0..] == deviceRepository;
      for i := 0 to |deviceRepository|
        invariant DeviceStore.ByMakeAndModel(deviceRepository, fields, make, model)
               == DeviceStore.ByMakeAndModel(deviceRepository[i..], fields, make, model)
      {
        var d := deviceRepository[i];
        assert deviceRepository[i..][0] == d && deviceRepository[i..][1..] == deviceRepository[i + 1..];
        if d.manufacturer == make && d.model == model {
          return d;
        }
      }
      found := null;
    }

    method AddDevice(d: Device)
      modifies this`deviceRepository, this`pauseMessage, this`log
      ensures deviceRepository == old(deviceRepository) + [d]
      ensures Publisher() == Track(old(Publisher()))
    {
      deviceRepository := deviceRepository + [d];
      Tracked();
    }

    method RemoveDevice(d: Device)
      requires d in deviceRepository
      modifies this`deviceRepository, this`pauseMessage, this`log
      ensures deviceRepository
        == DeviceStore.RemoveFirst(old(deviceRepository), old(FieldsOf(deviceRepository)), d)
      ensures Publisher() == Track(old(Publisher()))
    {
      hide Track, DeviceStore.RemoveFirst;
      var i := FirstEqual(deviceRepository, d);
      deviceRepository := deviceRepository[..i] + deviceRepository[i + 1..];
      Tracked();
    }
  }

  /** The position that `list.remove` removes: the first element that is `d` or equal to it. */
  method FirstEqual(repo: seq<Device>, d: Device) returns (i: nat)
    requires d in repo
    ensures i < |repo| && DeviceStore.RemoveFirst(repo, FieldsOf(repo), d) == repo[..i] + repo[i + 1..]
  {
    hide DeviceStore.RemoveFirst;
    ghost var fields := FieldsOf(repo);
    i := 0;
    assert repo[0..] == repo && repo[..0] == [];
    while !(repo[i] == d || repo[i].View() == d.View())
      invariant i < |repo| && d in repo[i..]
      invariant DeviceStore.RemoveFirst(repo, fields, d)
             == repo[..i] + DeviceStore.RemoveFirst(repo[i..], fields, d)
      decreases |repo| - i
    {
      assert repo[i] in repo;
      RemoveNext(repo, fields, d, i);
      i := i + 1;
    }
    assert repo[i] in repo;
    RemoveHere(repo, fields, d, i);
  }

  lemma SelfKeepsName(e: TestResults.Case)
    ensures TestResults.UpdateSelf(e).name == e.name
  {
  }

  lemma NamedStep(entries: seq<TestResults.Case>, i: nat, name: string)
    requires i < |entries|
    ensures TestResults.Named(entries[..i + 1], name)
       <==> TestResults.Named(entries[..i], name) || entries[i].name == name
  {
    assert entries[..i + 1] == entries[..i] + [entries[i]];
    if TestResults.Named(entries[..i], name) {
      var j :| 0 <= j < i && entries[..i][j].name == name;
      assert entries[..i + 1][j].name == name;
    }
    if entries[i].name == name {
      assert entries[..i + 1][i].name == name;
    }
  }

  lemma RemoveNext(repo: seq<Device>, fields: map<Device, Fields>, d: Device, i: nat)
    requires (forall e :: e in repo ==> e in fields) && d in fields
    requires i < |repo| && d in repo[i..] && repo[i] != d && fields[repo[i]] != fields[d]
    ensures d in repo[i + 1..]
    ensures repo[..i] + DeviceStore.RemoveFirst(repo[i..], fields, d)
         == repo[..i + 1] + DeviceStore.RemoveFirst(repo[i + 1..], fields, d)
  {
    assert repo[i..] == [repo[i]] + repo[i + 1..];
    assert repo[i..][1..] == repo[i + 1..];
    assert repo[..i + 1] == repo[..i] + [repo[i]];
  }

  lemma RemoveHere(repo: seq<Device>, fields: map<Device, Fields>, d: Device, i: nat)
    requires (forall e :: e in repo ==> e in fields) && d in fields
    requires i < |repo| && (repo[i] == d || fields[repo[i]] == fields[d])
    ensures repo[..i] + DeviceStore.RemoveFirst(repo[i..], fields, d) == repo[..i] + repo[i + 1..]
  {
    assert repo[i..][1..] == repo[i + 1..];
  }

  /** The fields of the devices of a list. */
  ghost function FieldsOf(repo: seq<Device>): map<Device, Fields>
    reads repo
  {
    map d | d in repo :: d.View()
  }

  function AsOption(d: Device?): Option<Device> {
    if d == null then None else Some(d)
  }
}
