/** Which statuses a session publishes while its tracked methods run. */
module Publishing {
  import opened Status

  /** A status message, or the point where `reset` clears `pause_message`. */
  datatype Event = Sent(status: Status) | Cleared

  /** The fields that publishing depends on, and what has happened so far. */
  datatype Publisher = Publisher(status: Status, paused: bool, log: seq<Event>)

  const FRESH := Publisher(Idle, false, [])

  /** What the tracker does after each tracked method. */
  function Track(p: Publisher): Publisher {
    if p.status == Idle || p.paused then p
    else Publisher(p.status, Terminal(p.status), p.log + [Sent(p.status)])
  }

  function SetStatus(p: Publisher, s: Status): Publisher {
    Track(p.(status := s))
  }

  /** `reset` calls `set_status`, then three more tracked setters, all of them with the status Idle. */
  function Reset(p: Publisher): Publisher {
    var idle := SetStatus(p, Idle);
    Track(Track(Track(Track(idle.(paused := false, log := idle.log + [Cleared])))))
  }

  function Start(p: Publisher): Publisher {
    Track(Reset(p).(status := Starting, paused := false))
  }

  /** `stop` calls `set_status` and `finish`, which are tracked, and is tracked itself. */
  function Stop(p: Publisher): Publisher {
    Track(Track(SetStatus(p, Stopping)))
  }

  /** A call of a tracked method. `Other` is any method that leaves the status alone; one that calls
      other tracked methods is that many `Other`s. */
  datatype Call = DoStart | DoStop | DoReset | DoSetStatus(status: Status) | Other

  function Step(p: Publisher, c: Call): Publisher {
    match c
    case DoStart => Start(p)
    case DoStop => Stop(p)
    case DoReset => Reset(p)
    case DoSetStatus(s) => SetStatus(p, s)
    case Other => Track(p)
  }

  function Run(p: Publisher, calls: seq<Call>): Publisher {
    if calls == [] then p else Step(Run(p, calls[..|calls| - 1]), calls[|calls| - 1])
  }

  // ---------------------------------------------------------------------
  // The protocol
  // ---------------------------------------------------------------------

  /** No `Cleared` from `i` on, before `j`. */
  predicate Unbroken(log: seq<Event>, i: nat, j: nat)
    requires i <= j <= |log|
  {
    Cleared !in log[i..j]
  }

  /** A terminal message has been sent and nothing cleared since. */
  ghost predicate Ended(log: seq<Event>) {
    exists i :: 0 <= i < |log| && log[i].Sent? && Terminal(log[i].status) && Unbroken(log, i, |log|)
  }

  /** Idle is never sent, and between two clearings nothing follows a terminal message. */
  ghost predicate Orderly(log: seq<Event>) {
    && (forall i :: 0 <= i < |log| ==> log[i] != Sent(Idle))
    && (forall i, j :: 0 <= i < j < |log| && log[i].Sent? && log[j].Sent? && Unbroken(log, i, j)
          ==> !Terminal(log[i].status))
  }

  /** The status that a reader of the log sees: that of the last message since the last clearing. */
  function Shown(log: seq<Event>): Status {
    if log == [] || log[|log| - 1] == Cleared then Idle else log[|log| - 1].status
  }

  ghost predicate Protocol(p: Publisher) {
    && Orderly(p.log)
    && (p.paused <==> Ended(p.log))
    && (!p.paused ==> Shown(p.log) == p.status || p.status == Idle)
    && (Terminal(p.status) && p.status != Idle ==> p.paused)
  }

  lemma UnbrokenAppend(log: seq<Event>, e: Event, i: nat)
    requires i <= |log|
    ensures Unbroken(log + [e], i, |log| + 1) <==> Unbroken(log, i, |log|) && e != Cleared
  {
    assert (log + [e])[i..|log| + 1] == log[i..|log|] + [e];
  }

  lemma EndedAppend(log: seq<Event>, e: Event)
    ensures Ended(log + [e]) <==> e.Sent? && (Terminal(e.status) || Ended(log))
  {
    hide Unbroken;
    var more := log + [e];
    forall i: nat | i <= |log| ensures Unbroken(more, i, |more|) <==> Unbroken(log, i, |log|) && e != Cleared {
      UnbrokenAppend(log, e, i);
    }
    if Ended(log) && e.Sent? {
      var i :| 0 <= i < |log| && log[i].Sent? && Terminal(log[i].status) && Unbroken(log, i, |log|);
      assert more[i] == log[i];
    }
    if e.Sent? && Terminal(e.status) {
      EmptyUnbroken(log);
      assert more[|log|] == e;
    }
    if Ended(more) {
      var i :| 0 <= i < |more| && more[i].Sent? && Terminal(more[i].status) && Unbroken(more, i, |more|);
      assert i < |log| ==> more[i] == log[i];
    }
  }

  lemma EmptyUnbroken(log: seq<Event>)
    ensures Unbroken(log, |log|, |log|)
  {
  }

  lemma OrderlyAppend(log: seq<Event>, e: Event)
    requires Orderly(log) && (e.Sent? ==> e.status != Idle && !Ended(log))
    ensures Orderly(log + [e])
  {
    var more := log + [e];
    forall i, j | 0 <= i < j < |more| && more[i].Sent? && more[j].Sent? && Unbroken(more, i, j)
      ensures !Terminal(more[i].status)
    {
      assert more[i..j] == log[i..j];
      assert Unbroken(log, i, j);
      assert more[i] == log[i];
    }
  }

  /** All of the protocol except that the current status has been published. */
  ghost predicate Pending(p: Publisher) {
    Orderly(p.log) && (p.paused <==> Ended(p.log))
  }

  lemma TrackKeeps(p: Publisher)
    requires Pending(p)
    ensures Protocol(Track(p)) && Track(p).status == p.status
  {
    hide Orderly, Ended;
    if p.status != Idle && !p.paused {
      EndedAppend(p.log, Sent(p.status));
      OrderlyAppend(p.log, Sent(p.status));
    }
  }

  lemma ResetKeeps(p: Publisher)
    requires Protocol(p)
    ensures Protocol(Reset(p)) && Reset(p) == Publisher(Idle, false, p.log + [Cleared])
  {
    hide Orderly, Ended;
    EndedAppend(p.log, Cleared);
    OrderlyAppend(p.log, Cleared);
  }

  lemma StepKeeps(p: Publisher, c: Call)
    requires Protocol(p)
    ensures Protocol(Step(p, c))
  {
    hide Orderly, Ended;
    match c
    case DoStart =>
      ResetKeeps(p);
      TrackKeeps(Reset(p).(status := Starting, paused := false));
    case DoStop =>
      TrackKeeps(p.(status := Stopping));
      TrackKeeps(SetStatus(p, Stopping));
      TrackKeeps(Track(SetStatus(p, Stopping)));
    case DoReset =>
      ResetKeeps(p);
    case DoSetStatus(s) =>
      TrackKeeps(p.(status := s));
    case Other =>
      TrackKeeps(p);
  }

  /** In every run of tracked methods: Idle is never published; between two resets any number of
      non-terminal messages is followed by at most one terminal message and nothing else;
      `pause_message` is set exactly when a terminal message has gone out since the last reset; a
      terminal status other than Idle is always published or preceded by one that was; and unless
      paused, the last message shows the current status if that is not Idle. */
  lemma {:induction false} RunProtocol(calls: seq<Call>)
    ensures Protocol(Run(FRESH, calls))
  {
    if calls == [] {
      assert !Ended([]);
    } else {
      RunProtocol(calls[..|calls| - 1]);
      StepKeeps(Run(FRESH, calls[..|calls| - 1]), calls[|calls| - 1]);
    }
  }

  /** `start` need not clear `pause_message`: the reset it begins with has done so. */
  lemma SecondClearRedundant(p: Publisher)
    ensures !Reset(p).paused && Start(p) == Track(Reset(p).(status := Starting))
    ensures Start(p) == Publisher(Starting, false, p.log + [Cleared, Sent(Starting)])
  {
    assert p.log + [Cleared] + [Sent(Starting)] == p.log + [Cleared, Sent(Starting)];
  }

  /** A session that is stopped while it runs publishes Stopping three times; stopped after its end it
      publishes nothing. */
  lemma StopPublishes(p: Publisher)
    ensures Stop(p) == if p.paused then p.(status := Stopping)
                       else Publisher(Stopping, false, p.log + [Sent(Stopping), Sent(Stopping), Sent(Stopping)])
  {
    if !p.paused {
      assert p.log + [Sent(Stopping)] + [Sent(Stopping)] + [Sent(Stopping)]
          == p.log + [Sent(Stopping), Sent(Stopping), Sent(Stopping)];
    }
  }

  /** After the first terminal message no call but `start` or `reset` publishes anything. */
  lemma {:induction false} SilentAfterEnd(p: Publisher, calls: seq<Call>)
    requires p.paused && DoStart !in calls && DoReset !in calls
    ensures Run(p, calls).log == p.log && Run(p, calls).paused
  {
    if calls != [] {
      SilentAfterEnd(p, calls[..|calls| - 1]);
    }
  }
}
