/** The network adapters: the server sends what has changed, the user interface replays it. */
module Adapters {
  import opened Common

  /** Adapter names with their addresses. */
  type Ifaces = map<string, string>

  /** What `diff_dicts` returns; an empty part stands for an absent key. */
  datatype Diff = Diff(added: Ifaces, removed: Ifaces)

  function DiffDicts(d1: Ifaces, d2: Ifaces): Diff {
    if d1 == d2 then Diff(map[], map[])
    else Diff(map k | k in d2.Keys - d1.Keys :: d2[k], map k | k in d1.Keys - d2.Keys :: d1[k])
  }

  /** `if diff`: one of the keys is there. */
  predicate Tells(d: Diff) {
    d.added != map[] || d.removed != map[]
  }

  /** `detect_network_adapters_change`: the interfaces the session keeps, and the message, if any. */
  function Detect(kept: Ifaces, now: Ifaces): (Ifaces, Option<Diff>) {
    var d := DiffDicts(kept, now);
    if Tells(d) then (now, Some(d)) else (kept, None)
  }

  /** What replaying one message does to the interfaces shown: add, then delete. */
  function Apply(shown: Ifaces, d: Diff): Ifaces {
    (shown + d.added) - d.removed.Keys
  }

  function Replay(shown: Ifaces, queue: seq<Diff>): Ifaces {
    if queue == [] then shown else Apply(Replay(shown, queue[..|queue| - 1]), queue[|queue| - 1])
  }

  /** The store behind the settings page. */
  class GeneralSettingsStore {
    var interfaces: Ifaces
    var deviceOptions: Ifaces
    var internetOptions: Ifaces
    var isLessThanOneInterface: bool

    constructor (interfaces: Ifaces)
      ensures this.interfaces == deviceOptions == internetOptions == interfaces
      ensures isLessThanOneInterface <==> interfaces == map[]
    {
      this.interfaces, deviceOptions, internetOptions := interfaces, interfaces, interfaces;
      isLessThanOneInterface := interfaces == map[];
    }

    static method AddInterfaces(added: Ifaces, interfaces: Ifaces) returns (updated: Ifaces)
      ensures updated == interfaces + added
    {
      updated := interfaces;
      var keys := added.Keys;
      while keys != {}
        invariant keys <= added.Keys
        invariant updated == interfaces + map k | k in added.Keys - keys :: added[k]
        decreases |keys|
      {
        var key :| key in keys;
        updated := updated[key := added[key]];
        keys := keys - {key};
      }
      assert added == map k | k in added.Keys - keys :: added[k];
    }

    static method RemoveInterfaces(removed: Ifaces, interfaces: Ifaces) returns (updated: Ifaces)
      ensures updated == interfaces - removed.Keys
    {
      updated := interfaces;
      var keys := removed.Keys;
      while keys != {}
        invariant keys <= removed.Keys
        invariant updated == interfaces - (removed.Keys - keys)
        decreases |keys|
      {
        var key :| key in keys;
        updated := updated - {key};
        keys := keys - {key};
      }
    }

    method UpdateInterfaces(updated: Ifaces)
      modifies this
      ensures interfaces == deviceOptions == internetOptions == updated
      ensures isLessThanOneInterface <==> updated == map[]
    {
      interfaces := updated;
      deviceOptions, internetOptions := updated, updated;
      isLessThanOneInterface := |updated.Keys| < 1;
    }

    method AdaptersUpdate(adapters: Diff)
      modifies this
      ensures interfaces == deviceOptions == internetOptions == Apply(old(interfaces), adapters)
      ensures isLessThanOneInterface <==> interfaces == map[]
    {
      var updated := interfaces;
      if adapters.added != map[] {
        updated := AddInterfaces(adapters.added, updated);
      }
      if adapters.removed != map[] {
        updated := RemoveInterfaces(adapters.removed, updated);
      }
      assert updated == Apply(interfaces, adapters);
      UpdateInterfaces(updated);
    }
  }

  // ---------------------------------------------------------------------
  // Server, channel and user interface as one system
  // ---------------------------------------------------------------------

  /** What the session keeps, the messages on their way, oldest first, and what is shown. */
  datatype System = System(kept: Ifaces, queue: seq<Diff>, shown: Ifaces)

  /** The server polls the adapters; the first message arrives; `reset` reads the adapters anew and sends
      nothing; the user interface fetches the adapters of the machine. */
  datatype Event = Poll(now: Ifaces) | Arrive | Reset(now: Ifaces) | Fetch(now: Ifaces)

  function Step(s: System, e: Event): System {
    match e
    case Poll(now) =>
      var (kept, message) := Detect(s.kept, now);
      System(kept, if message.Some? then s.queue + [message.value] else s.queue, s.shown)
    case Arrive =>
      if s.queue == [] then s else System(s.kept, s.queue[1..], Apply(s.shown, s.queue[0]))
    case Reset(now) => s.(kept := now)
    case Fetch(now) => s.(shown := now)
  }

  function Run(s: System, es: seq<Event>): System
    decreases |es|
  {
    if es == [] then s else Run(Step(s, es[0]), es[1..])
  }

  /** Once everything on its way has arrived, exactly the adapters that the session keeps are shown. */
  ghost predicate InSync(s: System) {
    Replay(s.shown, s.queue).Keys == s.kept.Keys
  }

  /** The same, with the addresses. */
  ghost predicate InStep(s: System) {
    Replay(s.shown, s.queue) == s.kept
  }

  lemma {:induction false} ReplayHead(shown: Ifaces, queue: seq<Diff>)
    requires queue != []
    ensures Replay(Apply(shown, queue[0]), queue[1..]) == Replay(shown, queue)
  {
    if |queue| == 1 {
      assert queue[..0] == [] && queue[1..] == [];
    } else {
      var init := queue[..|queue| - 1];
      ReplayHead(shown, init);
      assert init[1..] == queue[1..][..|queue[1..]| - 1];
      assert init[0] == queue[0];
    }
  }

  lemma ReplayLast(shown: Ifaces, queue: seq<Diff>, d: Diff)
    ensures Replay(shown, queue + [d]) == Apply(Replay(shown, queue), d)
  {
    assert (queue + [d])[..|queue|] == queue;
  }

  /** A diff brings the keys of the old map to those of the new one, and also the values, if the keys in
      both have kept theirs. */
  lemma DiffBrings(kept: Ifaces, now: Ifaces, m: Ifaces)
    ensures m.Keys == kept.Keys ==> Apply(m, DiffDicts(kept, now)).Keys == now.Keys
    ensures !Tells(DiffDicts(kept, now)) <==> kept.Keys == now.Keys
    ensures Apply(kept, DiffDicts(kept, now)) == now
       <==> (forall k :: k in kept && k in now ==> kept[k] == now[k])
  {
    var d := DiffDicts(kept, now);
    var a := Apply(kept, d);
    assert forall k :: k in d.added <==> k in now && k !in kept;
    assert forall k :: k in d.removed <==> k in kept && k !in now;
    if d.added == map[] && d.removed == map[] {
      assert forall k :: k !in d.added && k !in d.removed;
      assert kept.Keys == now.Keys;
    }
    assert a.Keys == now.Keys;
    assert forall k :: k in a ==> a[k] == if k in kept then kept[k] else now[k];
    if m.Keys == kept.Keys {
      assert Apply(m, d).Keys == now.Keys;
    }
  }

  /** A poll keeps the two in sync, and lets the session keep exactly the adapters seen. */
  lemma PollSync(s: System, now: Ifaces)
    requires InSync(s)
    ensures InSync(Step(s, Poll(now))) && Step(s, Poll(now)).kept.Keys == now.Keys
  {
    var d := DiffDicts(s.kept, now);
    DiffBrings(s.kept, now, Replay(s.shown, s.queue));
    ReplayLast(s.shown, s.queue, d);
  }

  /** A poll also keeps the addresses equal, exactly if no adapter that stays has changed its address or
      no adapter has come or gone: then the change goes unnoticed on both sides. */
  lemma PollStepIff(s: System, now: Ifaces)
    requires InStep(s)
    ensures InStep(Step(s, Poll(now))) <==>
      s.kept.Keys == now.Keys || forall k :: k in s.kept && k in now ==> s.kept[k] == now[k]
  {
    DiffBrings(s.kept, now, s.kept);
    ReplayLast(s.shown, s.queue, DiffDicts(s.kept, now));
  }

  /** An arrival changes nothing about what will be shown in the end. */
  lemma ArriveSame(s: System)
    ensures Replay(Step(s, Arrive).shown, Step(s, Arrive).queue) == Replay(s.shown, s.queue)
  {
    if s.queue != [] {
      ReplayHead(s.shown, s.queue);
    }
  }

  /** A reset keeps the two in sync exactly if the adapters are still those of the last poll. */
  lemma ResetSyncIff(s: System, now: Ifaces)
    requires InSync(s)
    ensures InSync(Step(s, Reset(now))) <==> now.Keys == s.kept.Keys
  {
  }

  /** The last thing the messages say about an adapter: added, removed, or nothing. */
  function LastWord(queue: seq<Diff>, k: string): Option<bool> {
    if queue == [] then None
    else
      var d := queue[|queue| - 1];
      if k in d.removed then Some(false)
      else if k in d.added then Some(true)
      else LastWord(queue[..|queue| - 1], k)
  }

  lemma {:induction false} ReplayKey(shown: Ifaces, queue: seq<Diff>, k: string)
    ensures k in Replay(shown, queue) <==>
      match LastWord(queue, k) case None => k in shown case Some(there) => there
  {
    if queue != [] {
      ReplayKey(shown, queue[..|queue| - 1], k);
    }
  }

  /** A fetch, with messages still on their way, brings the two in sync exactly if it saw what the session
      keeps, but for adapters that the messages will settle. */
  lemma FetchSyncIff(s: System, now: Ifaces)
    requires InSync(s)
    ensures InSync(Step(s, Fetch(now))) <==>
      forall k :: LastWord(s.queue, k).None? ==> (k in now <==> k in s.kept)
  {
    var after := Step(s, Fetch(now));
    forall k ensures k in Replay(now, s.queue) <==>
      if LastWord(s.queue, k).None? then k in now else k in s.kept
    {
      ReplayKey(now, s.queue, k);
      ReplayKey(s.shown, s.queue, k);
      assert k in Replay(s.shown, s.queue).Keys <==> k in s.kept.Keys;
    }
    if InSync(after) {
      forall k | LastWord(s.queue, k).None? ensures k in now <==> k in s.kept {
        assert k in Replay(now, s.queue).Keys <==> k in s.kept.Keys;
      }
    }
  }

  /** Every reset and fetch of the run sees the adapters that the session keeps at that point. */
  ghost predicate Steady(s: System, es: seq<Event>)
    decreases |es|
  {
    es != [] ==>
    && (es[0].Reset? || es[0].Fetch? ==> es[0].now.Keys == s.kept.Keys)
    && Steady(Step(s, es[0]), es[1..])
  }

  /** No poll that sees an adapter come or go sees another one with a new address. */
  ghost predicate KeepsAddresses(s: System, es: seq<Event>)
    decreases |es|
  {
    es != [] ==>
    && (es[0].Poll? ==>
          (s.kept.Keys == es[0].now.Keys
           || forall k :: k in s.kept && k in es[0].now ==> s.kept[k] == es[0].now[k]))
    && KeepsAddresses(Step(s, es[0]), es[1..])
  }

  /** In every run in which resets and fetches see what the session keeps, whatever has been delivered so
      far: replaying what is still on its way shows exactly the adapters of the session. */
  lemma {:induction false} RunSync(s: System, es: seq<Event>)
    requires InSync(s) && Steady(s, es)
    ensures InSync(Run(s, es))
    ensures Run(s, es).queue == [] ==> Run(s, es).shown.Keys == Run(s, es).kept.Keys
    decreases |es|
  {
    if es != [] {
      match es[0] {
        case Poll(now) => PollSync(s, now);
        case Arrive => ArriveSame(s);
        case Reset(now) => ResetSyncIff(s, now);
        case Fetch(now) => FetchSyncIff(s, now);
      }
      RunSync(Step(s, es[0]), es[1..]);
    }
  }

  /** With the addresses: in every run of polls and arrivals in which no poll sees both an adapter come or go
      and another one with a new address. */
  lemma {:induction false} RunInStep(s: System, es: seq<Event>)
    requires InStep(s) && KeepsAddresses(s, es)
    requires forall i :: 0 <= i < |es| ==> es[i].Poll? || es[i].Arrive?
    ensures InStep(Run(s, es))
    ensures Run(s, es).queue == [] ==> Run(s, es).shown == Run(s, es).kept
    decreases |es|
  {
    if es != [] {
      match es[0] {
        case Poll(now) => PollStepIff(s, now);
        case Arrive => ArriveSame(s);
        case _ =>
      }
      assert forall i :: 0 <= i < |es[1..]| ==> es[1..][i] == es[i + 1];
      RunInStep(Step(s, es[0]), es[1..]);
    }
  }

  /** An adapter that is there only during a fetch, between two polls, is still shown when nothing
      is on its way. */
  lemma FlickerStays(kept: Ifaces, k: string, addr: string)
    requires k !in kept
    ensures var s := Run(System(kept, [], kept), [Fetch(kept[k := addr]), Poll(kept)]);
      s.kept == kept && s.queue == [] && k in s.shown
  {
    var es := [Fetch(kept[k := addr]), Poll(kept)];
    assert es[1..] == [Poll(kept)] && es[1..][1..] == [];
    var s := Step(System(kept, [], kept), es[0]);
    DiffBrings(kept, kept, kept);
    assert Run(s, es[1..]) == Step(s, Poll(kept));
  }
}
