/** The status stream: the session publishes, the user interface opens and closes its subscriptions. */
module StatusStream {
  import opened Common
  import opened Status
  import opened Publishing

  /** What the user interface is told: a status of the session, or one that only its own pages use. */
  datatype Told = Session(status: Status) | Page(text: string)

  /** In progress, or stopping: the user interface wants to hear more. */
  predicate Live(t: Told) {
    t.Session? && (Running(t.status) || t.status == Stopping)
  }

  /** Which subscriptions are open, the mode, the status handled last, and the mode in which it was. */
  datatype Ui = Ui(statusOpen: bool, internetOpen: bool, singlePort: bool, seen: Told, seenSingle: bool)

  /** What handling a status does. */
  function Handle(ui: Ui, t: Told): Ui {
    var told := ui.(seen := t, seenSingle := ui.singlePort);
    if Live(t) then told.(statusOpen := true, internetOpen := ui.internetOpen || !ui.singlePort)
    else told.(statusOpen := false, internetOpen := false)
  }

  class Subscription {
    var closed: bool

    constructor ()
      ensures !closed
    {
      closed := false;
    }

    method Unsubscribe()
      modifies this
      ensures closed
    {
      closed := true;
    }
  }

  class AppEffects {
    var isSinglePortMode: bool
    var statusSubscription: Subscription?
    var internetSubscription: Subscription?
    /** The status handled last, and the mode in which it was. */
    ghost var seen: Told
    ghost var seenSingle: bool
    /** All subscriptions ever made. */
    ghost var statusMade: set<Subscription>
    ghost var internetMade: set<Subscription>

    constructor ()
      ensures Valid() && View() == Ui(false, false, false, Page(""), false)
    {
      isSinglePortMode := false;
      statusSubscription, internetSubscription := null, null;
      seen, seenSingle, statusMade, internetMade := Page(""), false, {}, {};
    }

    static predicate Open(s: Subscription?)
      reads s
    {
      s != null && !s.closed
    }

    /** Of all subscriptions ever made to one topic, only the one that is kept can be open; and the two
        topics share none. */
    ghost predicate Valid()
      reads this, statusMade, internetMade
    {
      && (statusSubscription != null ==> statusSubscription in statusMade)
      && (internetSubscription != null ==> internetSubscription in internetMade)
      && (forall s :: s in statusMade && s != statusSubscription ==> s.closed)
      && (forall s :: s in internetMade && s != internetSubscription ==> s.closed)
      && statusMade !! internetMade
    }

    ghost function View(): Ui
      reads this, statusSubscription, internetSubscription
    {
      Ui(Open(statusSubscription), Open(internetSubscription), isSinglePortMode, seen, seenSingle)
    }

    method OnFetchSystemConfigSuccess(singleIntf: bool)
      requires Valid()
      modifies this`isSinglePortMode
      ensures Valid() && View() == old(View()).(singlePort := singleIntf)
    {
      isSinglePortMode := singleIntf;
    }

    method PullingSystemStatusData()
      requires Valid()
      modifies this`statusSubscription, this`statusMade
      ensures Valid() && View() == old(View()).(statusOpen := true)
      ensures old(Open(statusSubscription)) ==> statusSubscription == old(statusSubscription)
    {
      if statusSubscription == null || statusSubscription.closed {
        statusSubscription := new Subscription();
        statusMade := statusMade + {statusSubscription};
      }
    }

    method FetchInternetConnection()
      requires Valid()
      modifies this`internetSubscription, this`internetMade
      ensures Valid()
      ensures View() == old(View()).(internetOpen := old(View()).internetOpen || !isSinglePortMode)
      ensures old(Open(internetSubscription)) ==> internetSubscription == old(internetSubscription)
    {
      if isSinglePortMode {
        return;
      }
      if internetSubscription == null || internetSubscription.closed {
        internetSubscription := new Subscription();
        internetMade := internetMade + {internetSubscription};
      }
    }

    method OnStopInterval()
      requires Valid()
      modifies statusSubscription, internetSubscription
      ensures Valid() && View() == old(View()).(statusOpen := false, internetOpen := false)
    {
      if statusSubscription != null {
        statusSubscription.Unsubscribe();
      }
      if internetSubscription != null {
        internetSubscription.Unsubscribe();
      }
    }

    method OnFetchSystemStatusSuccess(t: Told)
      requires Valid()
      modifies this, statusSubscription, internetSubscription
      ensures Valid() && View() == Handle(old(View()), t)
      ensures old(Open(statusSubscription)) && Live(t) ==> statusSubscription == old(statusSubscription)
    {
      seen, seenSingle := t, isSinglePortMode;
      if TestrunInProgress(t) || t == Session(Stopping) {
        PullingSystemStatusData();
        FetchInternetConnection();
      } else if !TestrunInProgress(t) {
        OnStopInterval();
      }
    }
  }

  predicate TestrunInProgress(t: Told) {
    t.Session? && t.status in {InProgress, WaitingForDevice, Starting, Monitoring, Validating}
  }

  // ---------------------------------------------------------------------
  // Session, channel and user interface as one system
  // ---------------------------------------------------------------------

  /** The session, the messages on their way to the open subscription, oldest first, and the interface. */
  datatype System = System(session: Publisher, queue: seq<Status>, ui: Ui)

  /** A tracked call; the first message arrives; a status from elsewhere is handled, such as the answer to
      a request or the Cancelling of a page; the mode is read from the configuration. */
  datatype Move = Call(call: Publishing.Call) | Arrive | Elsewhere(told: Told) | Mode(singlePort: bool)

  function Statuses(log: seq<Event>): seq<Status> {
    if log == [] then []
    else (if log[0].Sent? then [log[0].status] else []) + Statuses(log[1..])
  }

  /** What a call publishes. */
  function Published(p: Publisher, c: Call): (sent: seq<Status>) {
    var after := Publishing.Step(p, c).log;
    if |p.log| <= |after| then Statuses(after[|p.log|..]) else []
  }

  /** Messages reach a subscription only while it is open. */
  function Advance(s: System, m: Move): System {
    match m
    case Call(c) =>
      System(Publishing.Step(s.session, c),
             if s.ui.statusOpen then s.queue + Published(s.session, c) else [], s.ui)
    case Arrive =>
      if s.queue == [] then s else Handled(s.(queue := s.queue[1..]), Session(s.queue[0]))
    case Elsewhere(t) => Handled(s, t)
    case Mode(single) => s.(ui := s.ui.(singlePort := single))
  }

  function Handled(s: System, t: Told): System {
    var ui := Handle(s.ui, t);
    s.(ui := ui, queue := if ui.statusOpen then s.queue else [])
  }

  function Moves(s: System, ms: seq<Move>): System
    decreases |ms|
  {
    if ms == [] then s else Moves(Advance(s, ms[0]), ms[1..])
  }

  /** After every handled status: the status subscription is open exactly when that status is in progress
      or Stopping, and so is the internet subscription, if the status was not handled in single port mode;
      in that mode it is open only if the other is. A closed subscription has nothing on its way. */
  ghost predicate Attuned(s: System) {
    && (s.ui.statusOpen <==> Live(s.ui.seen))
    && (!s.ui.seenSingle ==> (s.ui.internetOpen <==> Live(s.ui.seen)))
    && (s.ui.internetOpen ==> s.ui.statusOpen)
    && (!s.ui.statusOpen ==> s.queue == [])
  }

  lemma {:induction false} AlwaysAttuned(s: System, ms: seq<Move>)
    requires Attuned(s)
    ensures Attuned(Moves(s, ms))
    decreases |ms|
  {
    if ms != [] {
      AlwaysAttuned(Advance(s, ms[0]), ms[1..]);
    }
  }

  /** The status that a move lets the interface handle, if any. */
  function HandledBy(s: System, m: Move): Option<Told> {
    match m
    case Arrive => if s.queue == [] then None else Some(Session(s.queue[0]))
    case Elsewhere(t) => Some(t)
    case _ => None
  }

  /** What any move does to the internet subscription, whatever has happened before: a status handled in
      multi-port mode leaves it open exactly if the status is in progress or Stopping; in single port mode such
      a status opens none and keeps one that is open, and any other status closes it; no other move touches
      it. */
  lemma InternetFollows(s: System, ms: seq<Move>, m: Move)
    requires Attuned(s)
    ensures var t := Moves(s, ms); var u := Advance(t, m);
      match HandledBy(t, m)
      case None => u.ui.internetOpen == t.ui.internetOpen
      case Some(told) =>
        var live := told.Session? && told.status in {InProgress, WaitingForDevice, Monitoring, Validating, Starting, Stopping};
        && (!t.ui.singlePort ==> (u.ui.internetOpen <==> live) && (u.ui.statusOpen <==> live))
        && (t.ui.singlePort ==> (u.ui.internetOpen <==> live && t.ui.internetOpen) && (u.ui.statusOpen <==> live))
  {
    AlwaysAttuned(s, ms);
  }

  /** While the mode is single port, no internet subscription is opened, by any moves. */
  lemma {:induction false} SinglePortOpensNone(s: System, ms: seq<Move>)
    requires s.ui.singlePort && Mode(false) !in ms
    ensures Moves(s, ms).ui.internetOpen ==> s.ui.internetOpen
    decreases |ms|
  {
    if ms != [] {
      assert ms[0] in ms && forall m :: m in ms[1..] ==> m in ms;
      SinglePortOpensNone(Advance(s, ms[0]), ms[1..]);
    }
  }

  /** No live status comes from elsewhere. */
  predicate Quiet(ms: seq<Move>) {
    forall i :: 0 <= i < |ms| && ms[i].Elsewhere? ==> !Live(ms[i].told)
  }

  /** Once a status that is not live has been handled, such as the last one of a run, both subscriptions
      stay closed, whatever the session publishes, be it another run, until a live status comes from
      elsewhere. */
  lemma {:induction false} StaysClosed(s: System, ms: seq<Move>)
    requires Attuned(s) && !s.ui.statusOpen && Quiet(ms)
    ensures var t := Moves(s, ms);
      !t.ui.statusOpen && !t.ui.internetOpen && t.queue == []
    decreases |ms|
  {
    if ms != [] {
      assert forall i :: 0 <= i < |ms[1..]| ==> ms[1..][i] == ms[i + 1];
      StaysClosed(Advance(s, ms[0]), ms[1..]);
    }
  }

  // ---------------------------------------------------------------------
  // One run, followed to its end
  // ---------------------------------------------------------------------

  /** A call within a run: neither `start` nor `reset`. */
  predicate InRun(c: Call) {
    c != DoStart && c != DoReset
  }

  /** What a call within a run publishes: nothing if paused; else the new status, unless that is Idle, and
      just once if it is terminal. */
  lemma PublishedInRun(p: Publisher, c: Call)
    requires InRun(c)
    ensures var q := Publishing.Step(p, c); var sent := Published(p, c);
      && (forall i :: 0 <= i < |sent| ==> sent[i] == q.status)
      && (sent == [] <==> p.paused || q.status == Idle)
      && (sent != [] && Terminal(q.status) ==> |sent| == 1)
      && (q.paused <==> p.paused || (sent != [] && Terminal(q.status)))
  {
    var q := Publishing.Step(p, c);
    if c == DoStop {
      StopPublishes(p);
    }
    var e := Sent(q.status);
    assert q.log == p.log || q.log == p.log + [e] || q.log == p.log + [e, e, e];
    assert p.log[|p.log|..] == [] && (p.log + [e])[|p.log|..] == [e];
    assert (p.log + [e, e, e])[|p.log|..] == [e, e, e];
    CopiesOf(q.status);
  }

  lemma CopiesOf(x: Status)
    ensures Statuses([]) == [] && Statuses([Sent(x)]) == [x]
    ensures Statuses([Sent(x), Sent(x), Sent(x)]) == [x, x, x]
  {
    var e := Sent(x);
    assert [e][1..] == [] && [e, e][1..] == [e] && [e, e, e][1..] == [e, e];
    assert Statuses([e]) == [x] + [];
    assert Statuses([e, e]) == [x] + Statuses([e]) == [x, x];
    assert Statuses([e, e, e]) == [x] + Statuses([e, e]);
  }

  /** While the interface follows a run: nothing in the queue but the last message can be terminal, and is
      so exactly when the session is paused; the last message, sent or handled, is the status of the
      session. */
  ghost predicate Following(s: System) {
    && Attuned(s) && s.ui.seen.Session?
    && (!s.ui.statusOpen ==> s.session.paused && Terminal(s.ui.seen.status))
    && (forall i :: 0 <= i < |s.queue| ==> s.queue[i] != Idle)
    && (forall i :: 0 <= i < |s.queue| - 1 ==> !Terminal(s.queue[i]))
    && (s.ui.statusOpen ==> (s.session.paused <==> s.queue != [] && Terminal(s.queue[|s.queue| - 1])))
    && (!s.session.paused && s.session.status != Idle ==> Last(s) == Session(s.session.status))
  }

  /** What will have been handled last when everything on its way has arrived. */
  function Last(s: System): Told {
    if s.queue == [] then s.ui.seen else Session(s.queue[|s.queue| - 1])
  }

  lemma LiveIsNotTerminal(s: Status)
    ensures Live(Session(s)) <==> !Terminal(s)
  {
  }

  lemma CallFollows(s: System, c: Call)
    requires Following(s) && InRun(c)
    ensures Following(Advance(s, Call(c)))
  {
    hide Published, Publishing.Step;
    PublishedInRun(s.session, c);
    var t := Advance(s, Call(c));
    var sent := Published(s.session, c);
    if s.ui.statusOpen && sent != [] {
      assert t.queue[|t.queue| - 1] == t.session.status;
      assert !s.session.paused;
    }
  }

  lemma ModeFollows(s: System, single: bool)
    requires Following(s)
    ensures Following(Advance(s, Mode(single)))
  {
  }

  lemma ArriveFollows(s: System)
    requires Following(s)
    ensures Following(Advance(s, Arrive))
  {
    if s.queue != [] {
      var t := Advance(s, Arrive);
      LiveIsNotTerminal(s.queue[0]);
      assert s.ui.statusOpen;
      if |s.queue| > 1 {
        assert t.queue == s.queue[1..];
      } else {
        assert s.queue[|s.queue| - 1] == s.queue[0];
      }
    }
  }

  /** Following a run on the messages alone, however they are delayed: once all have arrived, the interface
      shows the status published last, and its subscription is closed exactly if the run's terminal
      message has been sent. */
  lemma {:induction false} FollowsToTheEnd(s: System, ms: seq<Move>)
    requires Following(s)
    requires forall i :: 0 <= i < |ms| ==> !ms[i].Elsewhere? && (ms[i].Call? ==> InRun(ms[i].call))
    ensures var t := Moves(s, ms);
      && Following(t)
      && (t.queue == [] ==>
           && (t.ui.statusOpen <==> !t.session.paused)
           && (!t.session.paused && t.session.status != Idle ==> t.ui.seen == Session(t.session.status)))
    decreases |ms|
  {
    if ms != [] {
      match ms[0] {
        case Call(c) => CallFollows(s, c);
        case Arrive => ArriveFollows(s);
        case Mode(single) => ModeFollows(s, single);
        case Elsewhere(_) =>
      }
      assert forall i :: 0 <= i < |ms[1..]| ==> ms[1..][i] == ms[i + 1];
      FollowsToTheEnd(Advance(s, ms[0]), ms[1..]);
    }
  }

  /** An interface that is told, by whatever way, the live status of a session that has published it, and
      has nothing else on its way, follows the run from there. */
  lemma BeginsToFollow(s: System)
    requires Live(Session(s.session.status)) && !s.session.paused
    requires !s.ui.statusOpen && s.queue == []
    ensures Following(Advance(s, Elsewhere(Session(s.session.status))))
  {
  }

  // ---------------------------------------------------------------------
  // The next run
  // ---------------------------------------------------------------------

  lemma StartPublishes(p: Publisher)
    ensures Publishing.Step(p, DoStart).status == Starting && !Publishing.Step(p, DoStart).paused
    ensures Published(p, DoStart) == [Starting]
  {
    SecondClearRedundant(p);
    assert (p.log + [Cleared, Sent(Starting)])[|p.log|..] == [Cleared, Sent(Starting)];
    assert [Cleared, Sent(Starting)][1..] == [Sent(Starting)];
    CopiesOf(Starting);
  }

  /** An interface that follows a run follows the next one from its start exactly if the terminal message
      of the first has not been sent. */
  lemma StartFollowsIff(s: System)
    requires Following(s)
    ensures Following(Advance(s, Call(DoStart))) <==> !s.session.paused
  {
    StartPublishes(s.session);
    hide Published, Publishing.Step;
    var u := Advance(s, Call(DoStart));
    if s.ui.statusOpen {
      assert u.queue == s.queue + [Starting] && u.queue[|s.queue|] == Starting;
      if s.session.paused {
        assert u.queue[|s.queue| - 1] == s.queue[|s.queue| - 1];
        assert !Following(u);
      } else {
        assert forall i :: 0 <= i < |s.queue| ==> u.queue[i] == s.queue[i] && !Terminal(s.queue[i]);
      }
    }
  }

  /** The subscription is closed, or a message on its way will close it. */
  ghost predicate Closing(s: System) {
    Attuned(s) && (s.ui.statusOpen ==> exists i :: 0 <= i < |s.queue| && Terminal(s.queue[i]))
  }

  lemma CallCloses(s: System, c: Call)
    requires Closing(s)
    ensures Closing(Advance(s, Call(c)))
  {
    hide Published, Publishing.Step;
    if s.ui.statusOpen {
      var i :| 0 <= i < |s.queue| && Terminal(s.queue[i]);
      assert Advance(s, Call(c)).queue[i] == s.queue[i];
    }
  }

  lemma ArriveCloses(s: System)
    requires Closing(s)
    ensures Closing(Advance(s, Arrive))
  {
    if s.ui.statusOpen {
      var i :| 0 <= i < |s.queue| && Terminal(s.queue[i]);
      LiveIsNotTerminal(s.queue[0]);
      if i > 0 {
        assert s.queue[1..][i - 1] == s.queue[i];
      }
    }
  }

  lemma {:induction false} StaysClosing(s: System, ms: seq<Move>)
    requires Closing(s) && forall i :: 0 <= i < |ms| ==> !ms[i].Elsewhere?
    ensures Closing(Moves(s, ms))
    decreases |ms|
  {
    if ms != [] {
      match ms[0] {
        case Call(c) => CallCloses(s, c);
        case Arrive => ArriveCloses(s);
        case _ =>
      }
      assert forall i :: 0 <= i < |ms[1..]| ==> ms[1..][i] == ms[i + 1];
      StaysClosing(Advance(s, ms[0]), ms[1..]);
    }
  }

  /** The next run starts while the interface follows one, and goes on with any calls and arrivals. If the
      terminal message of the first had not been sent, the interface follows the next run through all of
      them; if it had, then whatever the next run publishes, once everything has arrived the subscription
      is closed. */
  lemma NextRunFollowedIff(s: System, ms: seq<Move>)
    requires Following(s)
    requires forall i :: 0 <= i < |ms| ==> !ms[i].Elsewhere? && (ms[i].Call? ==> InRun(ms[i].call))
    ensures var t := Moves(Advance(s, Call(DoStart)), ms);
      && (!s.session.paused ==> Following(t))
      && (s.session.paused && t.queue == [] ==> !t.ui.statusOpen)
  {
    var u := Advance(s, Call(DoStart));
    StartFollowsIff(s);
    if s.session.paused {
      assert Closing(s);
      CallCloses(s, DoStart);
      hide Following, Attuned;
      StaysClosing(u, ms);
    } else {
      FollowsToTheEnd(u, ms);
    }
  }

  function Arrivals(n: nat): seq<Move> {
    seq(n, _ => Arrive)
  }

  lemma {:induction false} NothingArrives(s: System, n: nat)
    requires s.queue == []
    ensures Moves(s, Arrivals(n)) == s
  {
    if n > 0 {
      assert Arrivals(n)[1..] == Arrivals(n - 1);
      NothingArrives(s, n - 1);
    }
  }

  /** When everything on its way has arrived, an open subscription is still open exactly if no message was
      terminal. */
  lemma {:induction false} Drains(s: System)
    requires Attuned(s) && s.ui.statusOpen
    ensures var t := Moves(s, Arrivals(|s.queue|));
      && t.queue == [] && t.session == s.session
      && (t.ui.statusOpen <==> forall i :: 0 <= i < |s.queue| ==> !Terminal(s.queue[i]))
    decreases |s.queue|
  {
    if s.queue != [] {
      var t := Advance(s, Arrive);
      assert Arrivals(|s.queue|)[1..] == Arrivals(|s.queue| - 1);
      LiveIsNotTerminal(s.queue[0]);
      if Terminal(s.queue[0]) {
        NothingArrives(t, |s.queue| - 1);
      } else {
        assert t.queue == s.queue[1..];
        Drains(t);
        assert forall i :: 0 < i < |s.queue| ==> s.queue[i] == t.queue[i - 1];
      }
    }
  }

  /** So, when all that was on its way at the start of the next run has arrived, the subscription is open
      exactly if the terminal message of the run before had not been sent. */
  lemma NextRunOpenIff(s: System)
    requires Following(s)
    ensures var u := Advance(s, Call(DoStart));
      var t := Moves(u, Arrivals(|u.queue|));
      t.queue == [] && (t.ui.statusOpen <==> !s.session.paused)
  {
    StartPublishes(s.session);
    hide Published, Publishing.Step;
    var u := Advance(s, Call(DoStart));
    if s.ui.statusOpen {
      assert u.queue == s.queue + [Starting];
      Drains(u);
      if s.session.paused {
        assert u.queue[|s.queue| - 1] == s.queue[|s.queue| - 1];
      } else {
        assert forall i :: 0 <= i < |s.queue| ==> u.queue[i] == s.queue[i] && !Terminal(s.queue[i]);
      }
    } else {
      NothingArrives(u, 0);
    }
  }

  /** Whatever the interface is following: with a terminal message on its way, or the subscription closed,
      the next run goes by unseen. Its messages are lost when the subscription closes. */
  lemma NextRunUnseen(s: System)
    requires Closing(s)
    ensures var u := Advance(s, Call(DoStart));
      var t := Moves(u, Arrivals(|u.queue|));
      t.session.status == Starting && !t.ui.statusOpen && t.queue == []
  {
    StartPublishes(s.session);
    CallCloses(s, DoStart);
    hide Publishing.Step, Published;
    var u := Advance(s, Call(DoStart));
    ArrivalsKeepSession(u, |u.queue|);
    if u.ui.statusOpen {
      Drains(u);
    } else {
      NothingArrives(u, |u.queue|);
    }
  }

  lemma {:induction false} ArrivalsKeepSession(s: System, n: nat)
    ensures Moves(s, Arrivals(n)).session == s.session
    decreases n
  {
    if n > 0 {
      assert Arrivals(n)[1..] == Arrivals(n - 1);
      ArrivalsKeepSession(Advance(s, Arrive), n - 1);
    }
  }
}
