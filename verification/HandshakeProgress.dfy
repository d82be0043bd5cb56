/** The handshake does not get stuck: any number of rounds can happen, and from every state in
    which a stop was asked for there is a way to the success of network_monitor_disable. */
module HandshakeProgress {
  import opened NetworkHandshake

  // ----- rounds that happen

  /** The application may start the next manager. */
  predicate AtRest(s: State) {
    s.app.Idle? && s.network_status == 0 && s.nl_socket == 0 && s.network_enable_status == 1
  }

  /** A state within a round: the newest manager, the two variables, and the events so far. */
  function During(s: State, status: int, app: App, m: Manager, events: seq<Event>): State {
    s.(network_status := status, app := app, managers := s.managers + [m], log := s.log + events)
  }

  lemma ByApp(s: State, status: int, app: App, m: Manager, events: seq<Event>, t: State)
    requires Reachable(During(s, status, app, m, events)) && AppStep(During(s, status, app, m, events), t)
    ensures Reachable(t)
  {
    assert Next(During(s, status, app, m, events), t);
    ReachNext(During(s, status, app, m, events), t);
  }

  lemma ByManager(s: State, t: State, m: nat)
    requires Reachable(s) && m < |s.managers| && ManagerStep(s, t, m)
    ensures Reachable(t)
  {
    assert Next(s, t);
    ReachNext(s, t);
  }

  lemma Opens(s: State, g: nat)
    requires Reachable(s) && AtRest(s) && g == |s.managers|
    ensures Reachable(During(s, -1, Waiting, Head, Round(g)[..3]))
  {
    ReachNext(s, s.(app := Checking));
    ReachNext(s.(app := Checking), s.(app := Creating));
    ReachNext(s.(app := Creating), During(s, 0, Started, Head, Round(g)[..1]));
    assert Round(g)[..2] == Round(g)[..1] + [StatusOne];
    assert s.log + Round(g)[..2] == s.log + Round(g)[..1] + [StatusOne];
    ByApp(s, 0, Started, Head, Round(g)[..1], During(s, 1, Idle, Head, Round(g)[..2]));
    ByApp(s, 1, Idle, Head, Round(g)[..2], During(s, 1, Requesting, Head, Round(g)[..2]));
    assert Round(g)[..3] == Round(g)[..2] + [StatusMinusOne];
    assert s.log + Round(g)[..3] == s.log + Round(g)[..2] + [StatusMinusOne];
    ByApp(s, 1, Requesting, Head, Round(g)[..2], During(s, -1, Waiting, Head, Round(g)[..3]));
  }

  lemma Closes(s: State, g: nat)
    requires g == |s.managers| && s.nl_socket == 0
    requires Reachable(During(s, -1, Waiting, Head, Round(g)[..3]))
    ensures Reachable(During(s, 0, Waiting, Left, Round(g)[..6]))
  {
    var log := s.log;
    assert log + Round(g)[..4] == log + Round(g)[..3] + [RequestSeen(g)];
    ByManager(During(s, -1, Waiting, Head, Round(g)[..3]),
              During(s, -1, Waiting, ClosingPort(true), Round(g)[..4]), g);
    assert log + Round(g)[..5] == log + Round(g)[..4] + [PortClosed(g)];
    ByManager(During(s, -1, Waiting, ClosingPort(true), Round(g)[..4]),
              During(s, -1, Waiting, ExitTest, Round(g)[..5]), g);
    ByManager(During(s, -1, Waiting, ExitTest, Round(g)[..5]), During(s, -1, Waiting, Clearing, Round(g)[..5]), g);
    assert log + Round(g)[..6] == log + Round(g)[..5] + [StatusZero(g)];
    ByManager(During(s, -1, Waiting, Clearing, Round(g)[..5]), During(s, 0, Waiting, Left, Round(g)[..6]), g);
  }

  lemma OneRound(s: State, g: nat) returns (t: State)
    requires Reachable(s) && AtRest(s) && g == |s.managers|
    ensures Reachable(t) && AtRest(t) && t.log == s.log + Round(g) && |t.managers| == g + 1
  {
    Opens(s, g);
    Closes(s, g);
    t := During(s, 0, Idle, Left, Round(g));
    assert s.log + Round(g) == s.log + Round(g)[..6] + [DisableSucceeded];
    ByApp(s, 0, Waiting, Left, Round(g)[..6], t);
  }

  /** Any number of complete rounds can happen. */
  lemma {:induction false} RoundsHappen(g: nat) returns (s: State)
    ensures Reachable(s) && AtRest(s) && |s.managers| == g && |s.log| == 7 * g
    ensures g > 0 ==> s.log[7 * g - 1] == DisableSucceeded
  {
    if g == 0 {
      s := State(0, 1, 0, Idle, [], [], [], []);
      assert IsRun([s]);
    } else {
      var before := RoundsHappen(g - 1);
      s := OneRound(before, g - 1);
    }
  }

  // ----- a stop that was asked for

  /** t can follow s after n steps. */
  ghost predicate Leads(s: State, t: State, n: nat)
    decreases n
  {
    if n == 0 then s == t else exists u :: Next(s, u) && Leads(u, t, n - 1)
  }

  /** network_monitor_disable has succeeded in the round of s. */
  predicate Grants(s: State, t: State) {
    |t.log| == |s.log| / 7 * 7 + 7 && t.log[|t.log| - 1] == DisableSucceeded
  }

  /** A manager's distance from the end, on a way that it can take. */
  function Distance(m: Manager, nl_socket: int): nat {
    match m
    case Left => 0
    case Clearing => 1
    case ExitResetting => 2
    case ExitClosing => 3
    case ExitTest => 4
    case ClosingPort(_) => 5
    case Head => 6
    case Recheck => 6
    case Body => 7
    case Resetting(lost) => if lost then 7 else 15
    case Closing(lost) => if lost then 8 else 16
    case Returned(lost) => if lost then 9 else 17
    case Reading => 10
    case Binding => 11
    case Testing => if nl_socket == -1 then 15 else 12
    case Storing(h) => if h == -1 then 16 else 13
    case Opening => 14
    case Unbound => 17
  }

  function AppDistance(app: App): nat {
    match app
    case WaitTest => 4
    case WaitClosing => 3
    case WaitResetting => 2
    case _ => 1
  }

  /** The step of the manager on that way. */
  function Forward(s: State, m: nat): State
    requires m < |s.managers|
  {
    match s.managers[m]
    case Head =>
      if s.network_status == -1 then Move(s, m, ClosingPort(true)).(log := s.log + [RequestSeen(m)])
      else Move(s, m, Body)
    case Body => Move(s, m, Head)
    case Recheck =>
      if s.network_status == -1 then Move(s, m, ClosingPort(false)).(log := s.log + [RequestSeen(m)])
      else Move(s, m, Opening)
    case Opening => Move(s, m, Storing(0))
    case Storing(h) => Move(s, m, Testing).(nl_socket := h, stored := s.stored + if h > 0 then [h] else [])
    case Testing => Move(s, m, if s.nl_socket == -1 then Opening else Binding)
    case Binding => Move(s, m, Reading)
    case Unbound => Move(s, m, if s.nl_socket > 0 then Closing(false) else Opening)
    case Reading => Move(s, m, Returned(true))
    case Returned(lost) => Move(s, m, if s.nl_socket != 0 then Closing(lost) else AfterListener(lost))
    case Closing(lost) => Move(s, m, Resetting(lost)).(closed := s.closed + [s.nl_socket])
    case Resetting(lost) => Move(s, m, AfterListener(lost)).(nl_socket := 0)
    case ClosingPort(full) => Move(s, m, if full then ExitTest else Clearing).(log := s.log + [PortClosed(m)])
    case ExitTest => Move(s, m, if s.nl_socket > 0 then ExitClosing else Clearing)
    case ExitClosing => Move(s, m, ExitResetting).(closed := s.closed + [s.nl_socket])
    case ExitResetting => Move(s, m, Clearing).(nl_socket := 0)
    case Clearing => Move(s, m, Left).(network_status := 0, log := s.log + [StatusZero(m)])
    case Left => s
  }

  lemma ForwardSteps(s: State, m: nat)
    requires m < |s.managers|
    ensures ManagerStep(s, Forward(s, m), m)
  {
  }

  /** While the request stands, each such step comes nearer. */
  lemma ForwardIsNearer(s: State, m: nat)
    requires m < |s.managers| && !s.managers[m].Left? && s.network_status == -1
    ensures var t := Forward(s, m);
            && |t.managers| == |s.managers|
            && Distance(t.managers[m], t.nl_socket) < Distance(s.managers[m], s.nl_socket)
  {
  }

  lemma ForwardPhase(s: State, m: nat)
    requires m < |s.managers| && Inv(s) && Inv(Forward(s, m)) && m == |s.log| / 7 && 3 <= |s.log| % 7 <= 5
    ensures var t := Forward(s, m); 3 <= |t.log| % 7 <= 6 && |t.log| / 7 == m
  {
    NextPhase(|s.log|);
  }

  /** The application's way from a state in which the manager has left. */
  function Onward(s: State): State {
    match s.app
    case WaitTest => s.(app := if s.nl_socket > 0 then WaitClosing else Waiting)
    case WaitClosing => s.(app := WaitResetting, closed := s.closed + [s.nl_socket])
    case WaitResetting => s.(app := Waiting, nl_socket := 0)
    case _ => s.(app := Idle, log := s.log + [DisableSucceeded])
  }

  lemma {:induction false} AppFinishes(s: State) returns (t: State, n: nat)
    requires Inv(s) && |s.log| % 7 == 6
    ensures Leads(s, t, n) && Grants(s, t)
    decreases AppDistance(s.app)
  {
    var u := Onward(s);
    assert Next(s, u);
    AppKeeps(s, u);
    if s.app.Waiting? {
      t, n := u, 1;
      assert Leads(u, t, 0);
    } else {
      t, n := AppFinishes(u);
      n := n + 1;
    }
  }

  lemma {:induction false} Finishes(s: State) returns (t: State, n: nat)
    requires Inv(s) && 3 <= |s.log| % 7
    ensures Leads(s, t, n) && Grants(s, t)
    decreases if |s.log| / 7 < |s.managers| then Distance(s.managers[|s.log| / 7], s.nl_socket) else 0
  {
    if |s.log| % 7 == 6 {
      t, n := AppFinishes(s);
    } else {
      var m := |s.log| / 7;
      var u := Forward(s, m);
      ForwardSteps(s, m);
      ManagerKeeps(s, u, m);
      ForwardIsNearer(s, m);
      ForwardPhase(s, m);
      assert Next(s, u);
      t, n := Finishes(u);
      n := n + 1;
    }
  }

  /** From every reachable state in which a stop was asked for and not yet granted, whatever
      the manager is at, there are steps to the success of network_monitor_disable. */
  lemma StopCanSucceed(run: seq<State>, i: nat) returns (t: State, n: nat)
    requires IsRun(run) && i < |run| && Awaits(run[i].app)
    ensures Leads(run[i], t, n) && Grants(run[i], t)
  {
    RunKeeps(run, i);
    t, n := Finishes(run[i]);
  }

  // ----- every place is reached

  /** Some reachable state has a manager there. */
  ghost predicate Reached(m: Manager) {
    exists s :: Reachable(s) && m in s.managers
  }

  /** In the first round, with this handle in nl_socket, the manager gets there. */
  ghost predicate GetsTo(nl_socket: int, m: Manager) {
    exists s :: At(s, nl_socket, m)
  }

  ghost predicate At(s: State, nl_socket: int, m: Manager) {
    Reachable(s) && s.nl_socket == nl_socket && s.network_status == 1 && s.app.Idle? && s.managers == [m]
  }

  /** A step without an event, while network_status is 1. */
  predicate Turns(nl_socket: int, m: Manager, m': Manager) {
    match m
    case Head => m'.Body?
    case Body => m'.Recheck?
    case Recheck => m'.Opening?
    case Opening => m'.Storing? && m'.h >= -1
    case Testing => nl_socket != -1 && m'.Binding?
    case Binding => m'.Unbound? || m'.Reading?
    case Reading => m'.Returned?
    case Returned(lost) => nl_socket != 0 && m' == Closing(lost)
    case _ => false
  }

  lemma TurnSteps(s: State, nl_socket: int, m: Manager, m': Manager)
    requires At(s, nl_socket, m) && Turns(nl_socket, m, m')
    ensures ManagerStep(s, Move(s, 0, m'), 0)
  {
    if m.Opening? {
      assert Move(s, 0, m') == Move(s, 0, Storing(m'.h));
    }
  }

  lemma Goes(nl_socket: int, m: Manager, m': Manager)
    requires GetsTo(nl_socket, m) && Turns(nl_socket, m, m')
    ensures GetsTo(nl_socket, m') && Reached(m')
  {
    var s :| At(s, nl_socket, m);
    TurnSteps(s, nl_socket, m, m');
    var t := Move(s, 0, m');
    ByManager(s, t, 0);
    assert At(t, nl_socket, m');
    assert m' in t.managers;
  }

  lemma GoesInTheLoop()
    ensures GetsTo(0, Opening) && GetsTo(0, Recheck)
    ensures Reached(Head) && Reached(Body) && Reached(Recheck) && Reached(Opening)
  {
    Started1();
    assert At(First(1, 0, Idle, Head, []), 0, Head) && Head in First(1, 0, Idle, Head, []).managers;
    Goes(0, Head, Body);
    Goes(0, Body, Recheck);
    Goes(0, Recheck, Opening);
  }

  lemma Stores(h: int)
    requires h >= -1
    ensures Reached(Storing(h)) && GetsTo(h, Testing) && Reached(Testing)
  {
    GoesInTheLoop();
    Goes(0, Opening, Storing(h));
    var s :| At(s, 0, Storing(h));
    var t := Move(s, 0, Testing).(nl_socket := h, stored := s.stored + if h > 0 then [h] else []);
    ByManager(s, t, 0);
    assert t.managers == [Testing];
    assert At(t, h, Testing) && Testing in t.managers;
  }

  lemma Listening(h: int)
    requires h > 0
    ensures Reached(Binding) && Reached(Unbound) && GetsTo(h, Reading) && Reached(Reading)
  {
    Stores(h);
    Goes(h, Testing, Binding);
    Goes(h, Binding, Unbound);
    Goes(h, Binding, Reading);
  }

  lemma Listened(h: int, lost: bool)
    requires h > 0
    ensures Reached(Returned(lost)) && GetsTo(h, Closing(lost)) && Reached(Closing(lost))
  {
    Listening(h);
    Goes(h, Reading, Returned(lost));
    Goes(h, Returned(lost), Closing(lost));
  }

  lemma ResettingReached(h: int, lost: bool)
    requires GetsTo(h, Closing(lost))
    ensures Reached(Resetting(lost))
  {
    var s :| At(s, h, Closing(lost));
    var t := Move(s, 0, Resetting(lost)).(closed := s.closed + [s.nl_socket]);
    ByManager(s, t, 0);
    assert t.managers[0] == Resetting(lost) && Resetting(lost) in t.managers;
  }

  /** From where the request was seen, without a handle, to the end. */
  lemma Exits(s: State, full: bool)
    requires Reachable(s) && s.nl_socket == 0 && s.managers == [ClosingPort(full)]
    ensures Reached(ClosingPort(full)) && Reached(Clearing) && Reached(Left) && (full ==> Reached(ExitTest))
  {
    var s1 := Move(s, 0, if full then ExitTest else Clearing).(log := s.log + [PortClosed(0)]);
    ByManager(s, s1, 0);
    var s2 := Move(s1, 0, Clearing);
    if full {
      ByManager(s1, s2, 0);
    }
    var s3 := Move(s2, 0, Left).(network_status := 0, log := s2.log + [StatusZero(0)]);
    assert s2 == s1 || full;
    ByManager(s2, s3, 0);
    assert s.managers[0] in s.managers && s1.managers[0] in s1.managers;
    assert s2.managers[0] == Clearing && s3.managers[0] == Left;
    assert s2.managers[0] in s2.managers && s3.managers[0] in s3.managers;
  }

  lemma Requested(m: Manager) returns (s: State)
    requires GetsTo(0, m)
    ensures Reachable(s) && s.nl_socket == 0 && s.network_status == -1 && s.managers == [m]
  {
    var s0 :| At(s0, 0, m);
    ReachNext(s0, s0.(app := App.Requesting));
    s := s0.(app := Waiting, network_status := -1, log := s0.log + [StatusMinusOne]);
    ReachNext(s0.(app := App.Requesting), s);
  }

  lemma Seen(m: Manager, full: bool)
    requires m == (if full then Head else Recheck) && GetsTo(0, m)
    ensures Reached(ClosingPort(full)) && Reached(Clearing) && Reached(Left) && (full ==> Reached(ExitTest))
  {
    var s := Requested(m);
    var t := Move(s, 0, ClosingPort(full)).(log := s.log + [RequestSeen(0)]);
    ByManager(s, t, 0);
    Exits(t, full);
  }

  lemma StartsAtHead()
    ensures GetsTo(0, Head)
  {
    Started1();
    assert At(First(1, 0, Idle, Head, []), 0, Head);
  }

  lemma PlaceReached(m: Manager)
    requires m.Storing? ==> m.h >= -1
    requires !m.ExitClosing? && !m.ExitResetting?
    ensures Reached(m)
  {
    GoesInTheLoop();
    match m
    case Storing(h) => Stores(h);
    case Testing => Stores(0);
    case Binding => Listening(1);
    case Unbound => Listening(1);
    case Reading => Listening(1);
    case Returned(lost) => Listened(1, lost);
    case Closing(lost) => Listened(1, lost);
    case Resetting(lost) =>
      Listened(1, lost);
      ResettingReached(1, lost);
    case ClosingPort(full) =>
      StartsAtHead();
      Seen(if full then Head else Recheck, full);
    case ExitTest =>
      StartsAtHead();
      Seen(Head, true);
    case Clearing =>
      Seen(Recheck, false);
    case Left =>
      Seen(Recheck, false);
    case _ =>
  }

  /** The places that some interleaving brings a manager to are all but the two that close a
      handle after the loop. */
  lemma PlacesReached(m: Manager)
    requires m.Storing? ==> m.h >= -1
    ensures Reached(m) <==> !m.ExitClosing? && !m.ExitResetting?
  {
    if m.ExitClosing? || m.ExitResetting? {
      if Reached(m) {
        var s :| Reachable(s) && m in s.managers;
        var run :| IsRun(run) && run[|run| - 1] == s;
        var k :| 0 <= k < |s.managers| && s.managers[k] == m;
        ExitFindsItClosed(run, |run| - 1, k);
      }
    } else {
      PlaceReached(m);
    }
  }
}
