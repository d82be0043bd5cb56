/** The stop/start handshake over network_status between one application thread (init,
    network_monitor_disable, deinit) and the network manager threads it creates, and the
    netlink handle nl_socket that both of them close.  A step is one call or one access to
    network_status or nl_socket; steps of all threads interleave freely. */
module NetworkHandshake {

  /** Where a manager thread is.  From Opening to Resetting it is inside link_listener; lost
      tells that read_event reported a lost link. */
  datatype Manager =
    | Head                     // about to test network_status at the top of the loop
    | Body                     // modem, SIM, signal and connection phases
    | Recheck                  // about to test network_status after the connection came up
    | Opening                  // about to call socket()
    | Storing(h: int)          // about to store its result in nl_socket
    | Testing                  // about to compare nl_socket with -1
    | Binding                  // about to bind nl_socket
    | Unbound                  // bind failed: about to test nl_socket
    | Reading                  // in read_event
    | Returned(lost: bool)     // read_event has returned: about to test nl_socket
    | Closing(lost: bool)      // about to close nl_socket
    | Resetting(lost: bool)    // about to store 0 in nl_socket
    | ClosingPort(full: bool)  // saw the request: about to call gsm_at_port_close
    | ExitTest                 // about to test nl_socket
    | ExitClosing              // about to close it
    | ExitResetting            // about to store 0 in it
    | Clearing                 // about to store 0 in network_status
    | Left                     // out of the loop

  /** Where the application thread is. */
  datatype App =
    | Idle
    | Checking      // init: about to test network_status
    | Creating      // init: about to call pthread_create
    | Started       // init: thread created, about to store 1
    | Requesting    // network_monitor_disable: saw 1, about to store -1
    | Waiting       // network_monitor_disable: about to test network_status for 0
    | WaitTest      // about to test nl_socket
    | WaitClosing   // about to close it
    | WaitResetting // about to store 0 in it

  datatype Event =
    | ThreadCreated(m: nat) | StatusOne | StatusMinusOne
    | RequestSeen(m: nat) | PortClosed(m: nat) | StatusZero(m: nat) | DisableSucceeded

  /** stored lists the handles above zero that were put in nl_socket, closed those that were
      passed to close() through it. */
  datatype State = State(network_status: int, network_enable_status: int, nl_socket: int,
                         app: App, managers: seq<Manager>, log: seq<Event>,
                         stored: seq<int>, closed: seq<int>)

  ghost predicate Init(s: State) {
    s == State(0, s.network_enable_status, 0, Idle, [], [], [], [])
  }

  // ----- the application thread

  ghost predicate AppStep(s: State, t: State) {
    match s.app
    case Idle =>
      // init(e) records e, 0 for a bad argument, and starts a manager for 1 only
      || t == s.(network_enable_status := 1, app := Checking)
      || t == s.(network_enable_status := 0)
      // network_monitor_disable, or deinit when the manager is enabled
      || t == (if s.network_status == 1 then s.(app := Requesting) else s)
    case Checking =>
      t == s.(app := if s.network_status == 0 then Creating else Idle)
    case Creating =>
      || t == s.(app := Idle)
      || t == s.(app := Started, managers := s.managers + [Head], log := s.log + [ThreadCreated(|s.managers|)])
    case Started =>
      t == s.(network_status := 1, app := Idle, log := s.log + [StatusOne])
    case Requesting =>
      t == s.(network_status := -1, app := Waiting, log := s.log + [StatusMinusOne])
    case Waiting =>
      if s.network_status == 0 then t == s.(app := Idle, log := s.log + [DisableSucceeded])
      else t == s || t == s.(app := WaitTest)
    case WaitTest =>
      t == s.(app := if s.nl_socket > 0 then WaitClosing else Waiting)
    case WaitClosing =>
      t == s.(app := WaitResetting, closed := s.closed + [s.nl_socket])
    case WaitResetting =>
      t == s.(app := Waiting, nl_socket := 0)
  }

  // ----- a manager thread

  ghost predicate ManagerStep(s: State, t: State, m: nat)
    requires m < |s.managers|
  {
    match s.managers[m]
    case Head =>
      if s.network_status == -1 then t == Move(s, m, ClosingPort(true)).(log := s.log + [RequestSeen(m)])
      else t == Move(s, m, Body)
    case Body =>
      t == Move(s, m, Head) || t == Move(s, m, Recheck)
    case Recheck =>
      if s.network_status == -1 then t == Move(s, m, ClosingPort(false)).(log := s.log + [RequestSeen(m)])
      else t == Move(s, m, Opening)
    case Opening =>
      exists h :: h >= -1 && t == Move(s, m, Storing(h))
    case Storing(h) =>
      t == Move(s, m, Testing).(nl_socket := h, stored := s.stored + if h > 0 then [h] else [])
    case Testing =>
      t == Move(s, m, if s.nl_socket == -1 then Opening else Binding)
    case Binding =>
      t == Move(s, m, Unbound) || t == Move(s, m, Reading)
    case Unbound =>
      t == Move(s, m, if s.nl_socket > 0 then Closing(false) else Opening)
    case Reading =>
      t == s || t == Move(s, m, Returned(true)) || t == Move(s, m, Returned(false))
    case Returned(lost) =>
      t == Move(s, m, if s.nl_socket != 0 then Closing(lost) else AfterListener(lost))
    case Closing(lost) =>
      t == Move(s, m, Resetting(lost)).(closed := s.closed + [s.nl_socket])
    case Resetting(lost) =>
      t == Move(s, m, AfterListener(lost)).(nl_socket := 0)
    case ClosingPort(full) =>
      t == Move(s, m, if full then ExitTest else Clearing).(log := s.log + [PortClosed(m)])
    case ExitTest =>
      t == Move(s, m, if s.nl_socket > 0 then ExitClosing else Clearing)
    case ExitClosing =>
      t == Move(s, m, ExitResetting).(closed := s.closed + [s.nl_socket])
    case ExitResetting =>
      t == Move(s, m, Clearing).(nl_socket := 0)
    case Clearing =>
      t == Move(s, m, Left).(network_status := 0, log := s.log + [StatusZero(m)])
    case Left => t == s
  }

  /** The listener is called again unless it reported a lost link. */
  function AfterListener(lost: bool): Manager {
    if lost then Head else Opening
  }

  function Move(s: State, m: nat, pc: Manager): State
    requires m < |s.managers|
  {
    s.(managers := s.managers[m := pc])
  }

  ghost predicate Next(s: State, t: State) {
    AppStep(s, t) || exists m: nat :: m < |s.managers| && ManagerStep(s, t, m)
  }

  ghost predicate IsRun(run: seq<State>) {
    run != [] && Init(run[0]) && forall i :: 0 <= i < |run| - 1 ==> Next(run[i], run[i + 1])
  }

  // ----- the invariant

  /** The i-th event of every run: rounds of seven. */
  function Scheduled(i: nat): Event {
    match i % 7
    case 0 => ThreadCreated(i / 7)
    case 1 => StatusOne
    case 2 => StatusMinusOne
    case 3 => RequestSeen(i / 7)
    case 4 => PortClosed(i / 7)
    case 5 => StatusZero(i / 7)
    case _ => DisableSucceeded
  }

  function StatusAt(phase: nat): int {
    if phase == 2 then 1 else if 3 <= phase <= 5 then -1 else 0
  }

  predicate AppAt(phase: nat, app: App) {
    match phase
    case 0 => app.Idle? || app.Checking? || app.Creating?
    case 1 => app.Started?
    case 2 => app.Idle? || app.Checking? || app.Requesting?
    case _ => Awaits(app)
  }

  /** In the loop of network_monitor_disable. */
  predicate Awaits(app: App) {
    app.Waiting? || app.WaitTest? || app.WaitClosing? || app.WaitResetting?
  }

  predicate InLoop(m: Manager) {
    m.Head? || m.Body? || m.Recheck? || m.Opening? || m.Storing? || MayHold(m)
  }

  /** Inside link_listener, from the store of the handle to the store of 0. */
  predicate MayHold(m: Manager) {
    || m.Testing? || m.Binding? || m.Unbound? || m.Reading?
    || m.Returned? || m.Closing? || m.Resetting?
  }

  predicate ManagerAt(phase: nat, m: Manager) {
    if phase <= 3 then InLoop(m)
    else if phase == 4 then m.ClosingPort?
    else if phase == 5 then m.ExitTest? || m.Clearing?
    else m.Left?
  }

  /** Everything about a reachable state follows from how many events have happened. */
  ghost predicate Inv(s: State) {
    var g, phase := |s.log| / 7, |s.log| % 7;
    && (forall i | 0 <= i < |s.log| :: s.log[i] == Scheduled(i))
    && s.network_status == StatusAt(phase)
    && AppAt(phase, s.app)
    && |s.managers| == (if phase == 0 then g else g + 1)
    && (forall k | 0 <= k < g :: s.managers[k].Left?)
    && (phase > 0 ==> ManagerAt(phase, s.managers[g]))
    && (s.nl_socket > 0 ==> phase > 0 && MayHold(s.managers[g]))
  }

  lemma NextPhase(n: nat)
    ensures (n + 1) % 7 == if n % 7 == 6 then 0 else n % 7 + 1
    ensures (n + 1) / 7 == if n % 7 == 6 then n / 7 + 1 else n / 7
  {
  }

  /** A step of the application that adds no event. */
  lemma AppMoves(s: State, t: State)
    requires Inv(s) && AppStep(s, t) && t.log == s.log
    ensures Inv(t)
  {
  }

  /** A step of the application that adds the next event. */
  lemma AppLogs(s: State, t: State)
    requires Inv(s) && AppStep(s, t) && |t.log| == |s.log| + 1
    ensures Inv(t)
  {
    NextPhase(|s.log|);
  }

  lemma AppKeeps(s: State, t: State)
    requires Inv(s) && AppStep(s, t)
    ensures Inv(t)
  {
    if t.log == s.log {
      AppMoves(s, t);
    } else {
      AppLogs(s, t);
    }
  }

  /** Only the newest manager moves. */
  lemma NewestMoves(s: State, t: State, m: nat)
    requires Inv(s) && m < |s.managers| && ManagerStep(s, t, m) && s != t
    ensures m == |s.log| / 7 && |s.log| % 7 > 0
  {
  }

  /** A step inside link_listener. */
  lemma ListenerMoves(s: State, t: State, m: nat)
    requires Inv(s) && m == |s.log| / 7 < |s.managers| && ManagerStep(s, t, m) && MayHold(s.managers[m])
    ensures Inv(t)
  {
  }

  /** Any other step that adds no event. */
  lemma ManagerMoves(s: State, t: State, m: nat)
    requires Inv(s) && m == |s.log| / 7 < |s.managers| && ManagerStep(s, t, m) && !MayHold(s.managers[m])
    requires t.log == s.log
    ensures Inv(t)
  {
  }

  /** A step that sees the request. */
  lemma ManagerSees(s: State, t: State, m: nat)
    requires Inv(s) && m == |s.log| / 7 < |s.managers| && ManagerStep(s, t, m) && |t.log| == |s.log| + 1
    requires InLoop(s.managers[m])
    ensures Inv(t)
  {
    NextPhase(|s.log|);
  }

  /** A step that closes the port or stores 0. */
  lemma ManagerEnds(s: State, t: State, m: nat)
    requires Inv(s) && m == |s.log| / 7 < |s.managers| && ManagerStep(s, t, m) && |t.log| == |s.log| + 1
    requires !InLoop(s.managers[m])
    ensures Inv(t)
  {
    NextPhase(|s.log|);
  }

  lemma ManagerKeeps(s: State, t: State, m: nat)
    requires Inv(s) && m < |s.managers| && ManagerStep(s, t, m)
    ensures Inv(t)
  {
    if s != t {
      NewestMoves(s, t, m);
      if MayHold(s.managers[m]) {
        ListenerMoves(s, t, m);
      } else if t.log == s.log {
        ManagerMoves(s, t, m);
      } else if InLoop(s.managers[m]) {
        ManagerSees(s, t, m);
      } else {
        ManagerEnds(s, t, m);
      }
    }
  }

  lemma {:induction false} RunKeeps(run: seq<State>, i: nat)
    requires IsRun(run) && i < |run|
    ensures Inv(run[i])
  {
    if i == 0 {
    } else {
      RunKeeps(run, i - 1);
      var s, t := run[i - 1], run[i];
      assert Next(s, t);
      if AppStep(s, t) {
        AppKeeps(s, t);
      } else {
        var m: nat :| m < |s.managers| && ManagerStep(s, t, m);
        ManagerKeeps(s, t, m);
      }
    }
  }

  // ----- the theorems

  /** In every interleaving the events come in rounds: a manager is created, network_status
      becomes 1, then -1; that manager sees the request, closes the port and stores 0; only
      then does network_monitor_disable succeed, and only then can the next round begin. */
  lemma Rounds(run: seq<State>, i: nat)
    requires IsRun(run) && i < |run|
    ensures forall k | 0 <= k < |run[i].log| :: run[i].log[k] == Scheduled(k)
  {
    RunKeeps(run, i);
  }

  /** network_status moves 0, 1, -1, 0 only; each move is made by its one owner and finds the
      value it replaces. */
  lemma StatusMoves(run: seq<State>, i: nat)
    requires IsRun(run) && i + 1 < |run| && run[i].network_status != run[i + 1].network_status
    ensures var s, t := run[i], run[i + 1];
            || (s.app.Started? && AppStep(s, t) && s.network_status == 0 && t.network_status == 1)
            || (s.app.Requesting? && AppStep(s, t) && s.network_status == 1 && t.network_status == -1)
            || (Awaits(s.app) && s.network_status == -1 && t.network_status == 0
                && exists m: nat :: m < |s.managers| && s.managers[m].Clearing? && ManagerStep(s, t, m))
  {
    RunKeeps(run, i);
    assert Next(run[i], run[i + 1]);
    var s, t := run[i], run[i + 1];
    if !AppStep(s, t) {
      var m: nat :| m < |s.managers| && ManagerStep(s, t, m);
      assert s.managers[m].Clearing?;
    }
  }

  /** At most one manager has not left its loop. */
  lemma OneManager(run: seq<State>, i: nat, a: nat, b: nat)
    requires IsRun(run) && i < |run| && a < |run[i].managers| && b < |run[i].managers|
    requires !run[i].managers[a].Left? && !run[i].managers[b].Left?
    ensures a == b
  {
    RunKeeps(run, i);
  }

  /** The events of one round. */
  function Round(g: nat): seq<Event> {
    [ThreadCreated(g), StatusOne, StatusMinusOne, RequestSeen(g), PortClosed(g), StatusZero(g), DisableSucceeded]
  }

  lemma LastRound(log: seq<Event>, g: nat)
    requires |log| == 7 * g + 7 && forall k | 0 <= k < |log| :: log[k] == Scheduled(k)
    ensures log[7 * g..] == Round(g)
  {
    forall k | 0 <= k < 7 ensures log[7 * g + k] == Round(g)[k] {
      RoundAt(g, k);
    }
  }

  lemma EndsRound(log: seq<Event>)
    requires log != [] && log[|log| - 1] == DisableSucceeded && forall k | 0 <= k < |log| :: log[k] == Scheduled(k)
    ensures var n := |log|; n >= 7 && n % 7 == 0 && log[n - 7..] == Round(n / 7 - 1)
  {
    LastOfRound(|log|);
    LastRound(log, |log| / 7 - 1);
  }

  lemma AllLeft(s: State)
    requires Inv(s) && |s.log| % 7 == 0
    ensures forall k | 0 <= k < |s.managers| :: s.managers[k].Left?
  {
  }

  lemma Disabled(s: State)
    requires Inv(s) && s.log != [] && s.log[|s.log| - 1] == DisableSucceeded
    ensures var n := |s.log|;
            n >= 7 && n % 7 == 0 && s.log[n - 7..] == Round(n / 7 - 1)
            && forall k | 0 <= k < |s.managers| :: s.managers[k].Left?
  {
    EndsRound(s.log);
    AllLeft(s);
  }

  /** When network_monitor_disable has succeeded, and until the next event, the last seven
      events are a whole round, in which the manager saw the request, closed the port and
      stored 0 -- and every manager has left its loop. */
  lemma DisableMeans(run: seq<State>, i: nat)
    requires IsRun(run) && i < |run|
    requires run[i].log != [] && run[i].log[|run[i].log| - 1] == DisableSucceeded
    ensures var s, n := run[i], |run[i].log|;
            n >= 7 && n % 7 == 0 && s.log[n - 7..] == Round(n / 7 - 1)
            && forall k | 0 <= k < |s.managers| :: s.managers[k].Left?
  {
    RunKeeps(run, i);
    Disabled(run[i]);
  }

  lemma LastOfRound(n: nat)
    requires n > 0 && Scheduled(n - 1) == DisableSucceeded
    ensures n >= 7 && n == 7 * (n / 7 - 1) + 7
  {
  }

  lemma RoundAt(g: nat, k: nat)
    requires k < 7
    ensures (7 * g + k) % 7 == k && (7 * g + k) / 7 == g
  {
  }

  /** nl_socket holds a handle only while a manager is inside link_listener. */
  lemma HandleBelongsToListener(run: seq<State>, i: nat)
    requires IsRun(run) && i < |run| && run[i].nl_socket > 0
    ensures exists m: nat :: m < |run[i].managers| && MayHold(run[i].managers[m])
  {
    RunKeeps(run, i);
    assert MayHold(run[i].managers[|run[i].log| / 7]);
  }

  /** So an exiting manager always finds it closed: its own close is never reached. */
  lemma ExitFindsItClosed(run: seq<State>, i: nat, m: nat)
    requires IsRun(run) && i < |run| && m < |run[i].managers|
    ensures !run[i].managers[m].ExitClosing? && !run[i].managers[m].ExitResetting?
    ensures run[i].managers[m].ExitTest? ==> run[i].nl_socket <= 0
  {
    RunKeeps(run, i);
  }

  // ----- handles are closed once unless two closers overlap

  /** The application has passed its test of nl_socket and not yet stored 0. */
  predicate AppCloses(app: App) {
    app.WaitClosing? || app.WaitResetting?
  }

  predicate ManagerCloses(m: Manager) {
    m.Closing? || m.Resetting? || m.ExitClosing? || m.ExitResetting?
  }

  /** No two threads are between their tests of nl_socket and their stores of 0. */
  ghost predicate Apart(s: State) {
    AppCloses(s.app) ==> forall m | 0 <= m < |s.managers| :: !ManagerCloses(s.managers[m])
  }

  /** A thread has closed the handle and not yet stored 0. */
  predicate Stale(s: State, m: Manager) {
    s.app.WaitResetting? || m.Resetting?
  }

  /** The manager that has not left its loop, if there is one. */
  ghost function Newest(s: State): Manager
    requires Inv(s)
  {
    if |s.log| % 7 == 0 then Left else s.managers[|s.log| / 7]
  }

  /** Every handle but one that is open has been closed, once and in order. */
  ghost predicate Settled(s: State)
    requires Inv(s)
  {
    var m := Newest(s);
    && s.nl_socket >= -1 && (AppCloses(s.app) || ManagerCloses(m) ==> s.nl_socket > 0)
    && (m.Storing? ==> m.h >= -1)
    && (MayHold(m) && !m.Testing? ==> s.nl_socket >= 0)
    && s.stored == s.closed + if s.nl_socket > 0 && !Stale(s, m) then [s.nl_socket] else []
  }

  lemma AppSettles(s: State, t: State)
    requires Inv(s) && Settled(s) && Apart(s) && AppStep(s, t) && Inv(t)
    ensures Settled(t)
  {
    NextPhase(|s.log|);
  }

  lemma ListenerSettles(s: State, t: State, m: nat)
    requires Inv(s) && Settled(s) && Apart(s) && m == |s.log| / 7 < |s.managers| && ManagerStep(s, t, m) && Inv(t)
    requires MayHold(s.managers[m])
    ensures Settled(t)
  {
  }

  lemma OthersSettle(s: State, t: State, m: nat)
    requires Inv(s) && Settled(s) && Apart(s) && m == |s.log| / 7 < |s.managers| && ManagerStep(s, t, m) && Inv(t)
    requires !MayHold(s.managers[m])
    ensures Settled(t)
  {
    NextPhase(|s.log|);
  }

  lemma ManagerSettles(s: State, t: State, m: nat)
    requires Inv(s) && Settled(s) && Apart(s) && m < |s.managers| && ManagerStep(s, t, m) && Inv(t) && s != t
    ensures Settled(t)
  {
    NewestMoves(s, t, m);
    if MayHold(s.managers[m]) {
      ListenerSettles(s, t, m);
    } else {
      OthersSettle(s, t, m);
    }
  }

  ghost predicate AllApart(run: seq<State>, n: nat)
    requires n <= |run|
  {
    forall k | 0 <= k < n :: Apart(run[k])
  }

  lemma {:induction false} RunSettles(run: seq<State>, i: nat)
    requires IsRun(run) && i < |run| && AllApart(run, i)
    ensures Inv(run[i]) && Settled(run[i])
  {
    RunKeeps(run, i);
    if i == 0 {
    } else {
      RunSettles(run, i - 1);
      var s, t := run[i - 1], run[i];
      assert Next(s, t) && Apart(s);
      if AppStep(s, t) {
        AppSettles(s, t);
      } else if s != t {
        var m: nat :| m < |s.managers| && ManagerStep(s, t, m);
        ManagerSettles(s, t, m);
      }
    }
  }

  /** As long as the two closers have not overlapped, every handle that was stored has been
      closed once, in order, except for the last one if it is still open. */
  lemma ClosedOnce(run: seq<State>, i: nat)
    requires IsRun(run) && i < |run| && AllApart(run, i)
    ensures run[i].closed == run[i].stored
            || (run[i].stored != [] && run[i].closed == run[i].stored[..|run[i].stored| - 1]
                && run[i].nl_socket == run[i].stored[|run[i].stored| - 1])
  {
    RunSettles(run, i);
  }

  // ----- a handle closed twice

  ghost predicate Reachable(s: State) {
    exists run :: IsRun(run) && run[|run| - 1] == s
  }

  lemma ReachNext(s: State, t: State)
    requires Reachable(s) && Next(s, t)
    ensures Reachable(t)
  {
    var run :| IsRun(run) && run[|run| - 1] == s;
    assert IsRun(run + [t]);
    assert (run + [t])[|run + [t]| - 1] == t;
  }

  lemma ReachByManager(s: State, t: State)
    requires Reachable(s) && |s.managers| == 1 && ManagerStep(s, t, 0)
    ensures Reachable(t)
  {
    assert Next(s, t);
    ReachNext(s, t);
  }

  /** The states of the first round, with one manager. */
  function First(status: int, nl_socket: int, app: App, m: Manager, closed: seq<int>): State {
    State(status, 1, nl_socket, app, [m],
          [ThreadCreated(0)] + (if status == 0 then [] else [StatusOne])
              + (if status == -1 then [StatusMinusOne] else []),
          if nl_socket > 0 then [nl_socket] else [], closed)
  }

  lemma Started1()
    ensures Reachable(First(1, 0, Idle, Head, []))
  {
    var s0 := State(0, 1, 0, Idle, [], [], [], []);
    assert IsRun([s0]);
    assert Reachable(s0);
    var s1, s2 := s0.(app := Checking), s0.(app := Creating);
    ReachNext(s0, s1);
    ReachNext(s1, s2);
    ReachNext(s2, First(0, 0, Started, Head, []));
    ReachNext(First(0, 0, Started, Head, []), First(1, 0, Idle, Head, []));
  }

  lemma Connected1()
    ensures Reachable(First(1, 0, Idle, Opening, []))
  {
    Started1();
    ReachByManager(First(1, 0, Idle, Head, []), First(1, 0, Idle, Body, []));
    ReachByManager(First(1, 0, Idle, Body, []), First(1, 0, Idle, Recheck, []));
    ReachByManager(First(1, 0, Idle, Recheck, []), First(1, 0, Idle, Opening, []));
  }

  lemma Listens(h: int)
    requires h > 0
    ensures Reachable(First(1, h, Idle, Reading, []))
  {
    Connected1();
    ReachByManager(First(1, 0, Idle, Opening, []), First(1, 0, Idle, Storing(h), []));
    ReachByManager(First(1, 0, Idle, Storing(h), []), First(1, h, Idle, Testing, []));
    ReachByManager(First(1, h, Idle, Testing, []), First(1, h, Idle, Binding, []));
    ReachByManager(First(1, h, Idle, Binding, []), First(1, h, Idle, Reading, []));
  }

  lemma BothTested(h: int)
    requires h > 0
    ensures Reachable(First(-1, h, WaitClosing, Closing(true), []))
  {
    Listens(h);
    ReachNext(First(1, h, Idle, Reading, []), First(1, h, Requesting, Reading, []));
    ReachNext(First(1, h, Requesting, Reading, []), First(-1, h, Waiting, Reading, []));
    ReachNext(First(-1, h, Waiting, Reading, []), First(-1, h, WaitTest, Reading, []));
    ReachNext(First(-1, h, WaitTest, Reading, []), First(-1, h, WaitClosing, Reading, []));
    ReachByManager(First(-1, h, WaitClosing, Reading, []), First(-1, h, WaitClosing, Returned(true), []));
    ReachByManager(First(-1, h, WaitClosing, Returned(true), []), First(-1, h, WaitClosing, Closing(true), []));
  }

  /** The waiting application and the listener test nl_socket, then both close it: an
      interleaving in which the same handle is closed twice. */
  lemma ClosedTwice(h: int)
    requires h > 0
    ensures exists s :: Reachable(s) && s.stored == [h] && s.closed == [h, h]
  {
    BothTested(h);
    var s := First(-1, h, WaitResetting, Closing(true), [h]);
    ReachNext(First(-1, h, WaitClosing, Closing(true), []), s);
    ReachByManager(s, First(-1, h, WaitResetting, Resetting(true), [h, h]));
  }
}
