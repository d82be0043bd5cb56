/** The network manager's loop, phase by phase: modem, registration, signal, connection,
    link listener, with the counters it carries from one pass to the next.  A run is given
    the answers of its calls one after the other and is cut where they end. */
module BringUp {

  /** What one call returns: its code, and for the queries the lengths of the two strings or
      the signal strength read. */
  datatype Answer = Answer(rc: int, cell_id: nat, lac: nat, signal: int)

  /** The calls whose answers decide what comes next, in the order of a pass. */
  datatype Call =
    | Status          // network_status at the top of the loop
    | Modem           // check_gsm_modem_status_monitor
    | PowerOn         // gsm_modem_on_monitor
    | Registration    // get_gsm_nw_reg_monitor
    | Signal          // get_gsm_signal_strength_monitor
    | Connection      // establish_connection_monitor
    | Internet        // check_network_connection_monitor
    | Recheck         // network_status once the connection is up
    | Listener        // link_listener

  datatype Event =
    | Head(sim_reg_count: int, sig_strength: int, network_link_count: int, network_connection_count: int)
    | Called(call: Call, answer: Answer)
    | Exit

  // ----- the specification: which event may come next

  /** The call that is due, whether the pass is over or the manager is to stop, the failures
      of this connection phase, and the failures counted since each counter was last reset. */
  datatype State = State(due: Call, over: bool, stop: bool, failures: nat, regs: nat, sigs: nat, links: nat, conns: nat)

  const BEGIN := State(Status, true, false, 0, 0, 0, 0, 0)

  function Rank(c: Call): nat {
    match c
    case Status => 0
    case Modem => 1
    case PowerOn => 2
    case Registration => 3
    case Signal => 4
    case Connection => 5
    case Internet => 6
    case Recheck => 7
    case Listener => 8
  }

  function Following(c: Call): Call {
    match c
    case Status => Modem
    case Modem => PowerOn
    case PowerOn => Registration
    case Registration => Signal
    case Signal => Connection
    case Connection => Internet
    case Internet => Recheck
    case Recheck => Listener
    case Listener => Listener
  }

  /** The answer with which the pass goes on to the following call. */
  predicate Succeeds(c: Call, a: Answer) {
    match c
    case Status => a.rc != -1
    case Modem => a.rc != 0              // the modem is off
    case PowerOn => a.rc == 0
    case Registration => a.cell_id != 0 && a.lac != 0
    case Signal => a.rc == 0 && a.signal > 10
    case Connection => a.rc == 0
    case Internet => a.rc == 0
    case Recheck => a.rc != -1
    case Listener => a.rc >= 0
  }

  /** Each counter is reset by the failure that takes it past its limit, which ends the pass;
      the two counters of the connection phase are reset together. */
  function Failed(s: State, c: Call, a: Answer): State {
    match c
    case Status => s.(stop := true)
    case Modem => s.(over := true)
    case PowerOn => s.(over := true)
    case Registration => if s.regs >= 9 then s.(regs := 0, over := true) else s.(regs := s.regs + 1)
    case Signal =>
      if a.rc == 0 then s
      else if s.sigs >= 3 then s.(sigs := 0, over := true)
      else s.(sigs := s.sigs + 1)
    case Connection =>
      if s.conns >= 1 then Unconnected(s) else s.(conns := s.conns + 1, failures := s.failures + 1)
    case Internet =>
      if s.links >= 1 then Unconnected(s) else s.(due := Connection, links := s.links + 1, failures := s.failures + 1)
    case Recheck => s.(stop := true)
    case Listener => s.(over := true)
  }

  function Unconnected(s: State): State {
    s.(links := 0, conns := 0, over := true, failures := s.failures + 1)
  }

  function After(s: State, e: Event): State {
    match e
    case Head(_, _, _, _) => s.(due := Status, over := false, failures := 0)
    case Called(c, a) => if Succeeds(c, a) then s.(due := Following(c)) else Failed(s, c, a)
    case Exit => s.(over := true)
  }

  function StateOf(trace: seq<Event>): State {
    if trace == [] then BEGIN else After(StateOf(trace[..|trace| - 1]), trace[|trace| - 1])
  }

  /** What may come next: the call that is due, the top of the loop when a pass is over, with
      the counters as they should be, or the end when network_status was found to be -1. */
  predicate Allowed(s: State, e: Event) {
    match e
    case Called(c, _) => Running(s) && c == s.due
    case Head(regs, sigs, links, conns) =>
      s.over && !s.stop && regs == s.regs && sigs == s.sigs && links == s.links && conns == s.conns
    case Exit => s.stop && !s.over
  }

  predicate Running(s: State) {
    !s.over && !s.stop
  }

  predicate Good(trace: seq<Event>) {
    trace == []
    || (Good(trace[..|trace| - 1]) && Allowed(StateOf(trace[..|trace| - 1]), trace[|trace| - 1]))
  }

  /** The answers of a run are those its events report, in order. */
  predicate Reported(trace: seq<Event>, answers: seq<Answer>) {
    if trace == [] then answers == []
    else
      var init, last := trace[..|trace| - 1], trace[|trace| - 1];
      if !last.Called? then Reported(init, answers)
      else answers != [] && last.answer == answers[|answers| - 1] && Reported(init, answers[..|answers| - 1])
  }

  // ----- what holds in every run

  /** The counters stay within their bounds, and a connection phase fails three times at most. */
  predicate Inv(s: State) {
    && s.regs <= 9 && s.sigs <= 3 && s.links <= 1 && s.conns <= 1
    && s.failures <= 3 && (!s.over ==> s.failures <= s.links + s.conns)
  }

  lemma StepKeeps(s: State, e: Event)
    requires Inv(s) && Allowed(s, e)
    ensures Inv(After(s, e))
  {
  }

  lemma {:induction false} PrefixGood(trace: seq<Event>, i: nat)
    requires Good(trace) && i <= |trace|
    ensures Good(trace[..i])
    decreases |trace| - i
  {
    if i == |trace| {
      assert trace[..i] == trace;
    } else {
      PrefixGood(trace, i + 1);
      assert trace[..i + 1][..i] == trace[..i];
    }
  }

  lemma {:induction false} PrefixInv(trace: seq<Event>)
    requires Good(trace)
    ensures Inv(StateOf(trace))
  {
    if trace == [] {
    } else {
      PrefixInv(trace[..|trace| - 1]);
      StepKeeps(StateOf(trace[..|trace| - 1]), trace[|trace| - 1]);
    }
  }

  lemma LastAllowed(trace: seq<Event>)
    requires Good(trace) && trace != []
    ensures Allowed(StateOf(trace[..|trace| - 1]), trace[|trace| - 1])
  {
  }

  lemma EventAllowed(trace: seq<Event>, i: nat)
    requires Good(trace) && i < |trace|
    ensures Allowed(StateOf(trace[..i]), trace[i])
  {
    PrefixGood(trace, i + 1);
    LastAllowed(trace[..i + 1]);
    assert trace[..i + 1][..i] == trace[..i];
  }

  lemma RunKeeps(trace: seq<Event>, i: nat)
    requires Good(trace) && i <= |trace|
    ensures Inv(StateOf(trace[..i]))
    ensures i < |trace| ==> Allowed(StateOf(trace[..i]), trace[i])
  {
    PrefixGood(trace, i);
    PrefixInv(trace[..i]);
    if i < |trace| {
      EventAllowed(trace, i);
    }
  }

  /** At every top of the loop the counters are within their bounds. */
  lemma HeadMeans(trace: seq<Event>, i: nat)
    requires Good(trace) && i < |trace| && trace[i].Head?
    ensures 0 <= trace[i].sim_reg_count <= 9 && 0 <= trace[i].sig_strength <= 3
    ensures 0 <= trace[i].network_link_count <= 1 && 0 <= trace[i].network_connection_count <= 1
  {
    RunKeeps(trace, i);
  }

  predicate FailedDial(e: Event) {
    e.Called? && (e.call.Connection? || e.call.Internet?) && e.answer.rc != 0
  }

  function FailedDials(trace: seq<Event>): nat {
    if trace == [] || trace[|trace| - 1].Head? then 0
    else FailedDials(trace[..|trace| - 1]) + if FailedDial(trace[|trace| - 1]) then 1 else 0
  }

  lemma CountFailure(s: State, e: Event)
    ensures After(s, e).failures == if e.Head? then 0 else s.failures + if FailedDial(e) then 1 else 0
  {
  }

  lemma {:induction false} FailedDialsCounted(trace: seq<Event>)
    ensures FailedDials(trace) == StateOf(trace).failures
  {
    if trace == [] {
    } else {
      var init, last := trace[..|trace| - 1], trace[|trace| - 1];
      FailedDialsCounted(init);
      CountFailure(StateOf(init), last);
    }
  }

  /** In every pass at most three dials or internet checks fail. */
  lemma ThreeFailures(trace: seq<Event>, i: nat)
    requires Good(trace) && i <= |trace|
    ensures FailedDials(trace[..i]) <= 3
  {
    RunKeeps(trace, i);
    FailedDialsCounted(trace[..i]);
  }

  /** The events of a pass: those since the last Head. */
  predicate SamePass(trace: seq<Event>, j: nat, i: nat)
    requires j <= i <= |trace|
  {
    forall k | j <= k < i :: !trace[k].Head?
  }

  predicate Success(e: Event, c: Call) {
    e.Called? && e.call == c && Succeeds(c, e.answer)
  }

  /** In the pass in progress after i events, the call has succeeded. */
  ghost predicate SucceededInPass(trace: seq<Event>, i: nat, c: Call)
    requires i <= |trace|
  {
    exists j: nat :: j < i && Success(trace[j], c) && SamePass(trace, j + 1, i)
  }

  lemma Advances(s: State, e: Event, c: Call)
    requires Allowed(s, e) && Rank(After(s, e).due) > Rank(c)
    ensures Success(e, c) || (Rank(s.due) > Rank(c) && !e.Head?)
  {
  }

  lemma SucceededBefore(trace: seq<Event>, i: nat, c: Call)
    requires 0 < i <= |trace| && SucceededInPass(trace, i - 1, c) && !trace[i - 1].Head?
    ensures SucceededInPass(trace, i, c)
  {
    var j: nat :| j < i - 1 && Success(trace[j], c) && SamePass(trace, j + 1, i - 1);
    assert SamePass(trace, j + 1, i);
  }

  /** Every call before the one that is due has succeeded in this pass. */
  lemma {:induction false} EarlierCallsSucceeded(trace: seq<Event>, i: nat, c: Call)
    requires Good(trace) && i <= |trace| && Rank(StateOf(trace[..i]).due) > Rank(c)
    ensures SucceededInPass(trace, i, c)
  {
    if i == 0 {
    } else {
      assert trace[..i][..i - 1] == trace[..i - 1];
      EventAllowed(trace, i - 1);
      Advances(StateOf(trace[..i - 1]), trace[i - 1], c);
      if Success(trace[i - 1], c) {
        assert SamePass(trace, i, i);
      } else {
        EarlierCallsSucceeded(trace, i - 1, c);
        SucceededBefore(trace, i, c);
      }
    }
  }

  /** The manager leaves its loop only when its last test of network_status found -1. */
  lemma ExitMeans(trace: seq<Event>, i: nat)
    requires Good(trace) && i < |trace| && trace[i].Exit?
    ensures i > 0 && trace[i - 1].Called? && (trace[i - 1].call.Status? || trace[i - 1].call.Recheck?)
            && trace[i - 1].answer.rc == -1
  {
    RunKeeps(trace, i);
    if i > 0 {
      assert trace[..i][..i - 1] == trace[..i - 1];
      RunKeeps(trace, i - 1);
    }
  }

  // ----- the loop

  class Manager {
    const answers: seq<Answer>
    var next: nat
    ghost var trace: seq<Event>

    constructor (answers: seq<Answer>)
      ensures this.answers == answers && next == 0 && trace == [] && Valid()
    {
      this.answers, next, trace := answers, 0, [];
      new;
      assert answers[..0] == [];
    }

    ghost predicate Valid()
      reads this
    {
      next <= |answers| && Good(trace) && Reported(trace, answers[..next])
    }

    ghost function Now(): State
      reads this
    {
      StateOf(trace)
    }

    /** The top of the loop, or its end. */
    ghost method Mark(e: Event)
      requires Valid() && (e.Head? || e.Exit?) && Allowed(Now(), e)
      modifies this`trace
      ensures Valid() && Now() == After(old(Now()), e) && trace == old(trace) + [e]
    {
      assert (trace + [e])[..|trace|] == trace;
      trace := trace + [e];
    }

    /** One call: its answer, if the run is not cut here. */
    method Ask(ghost call: Call) returns (cut: bool, a: Answer)
      requires Valid() && Running(Now()) && Now().due == call
      modifies this
      ensures Valid() && cut == (old(next) == |answers|)
      ensures cut ==> next == old(next) && trace == old(trace)
      ensures !cut ==> next == old(next) + 1 && a == answers[old(next)] && trace == old(trace) + [Called(call, a)]
      ensures !cut ==> Now() == After(old(Now()), Called(call, a))
    {
      cut := next == |answers|;
      if cut {
        a := Answer(0, 0, 0, 0);
        return;
      }
      a := answers[next];
      assert answers[..next + 1][..next] == answers[..next];
      assert (trace + [Called(call, a)])[..|trace|] == trace;
      trace := trace + [Called(call, a)];
      next := next + 1;
    }

    /** Registration: until a cell is known, or the tenth failure since the last reset. */
    method Register(count: nat) returns (cut: bool, sim_reg_count: nat)
      requires Valid() && Running(Now()) && Now().due == Registration && count == Now().regs <= 9
      modifies this
      ensures Valid() && next >= old(next) && sim_reg_count <= 10 && (cut ==> next == |answers|)
      ensures !cut ==> next > old(next)
                       && Now() == if sim_reg_count < 10 then old(Now()).(due := Signal, regs := sim_reg_count)
                                   else old(Now()).(regs := 0, over := true)
    {
      sim_reg_count := count;
      ghost var s := Now();
      while true
        invariant Valid() && sim_reg_count <= 9 && next >= old(next) && Now() == s.(regs := sim_reg_count)
        decreases |answers| - next
      {
        var a;
        cut, a := Ask(Registration);
        if cut {
          return;
        }
        if a.cell_id != 0 && a.lac != 0 {
          return;
        }
        sim_reg_count := sim_reg_count + 1;
        if sim_reg_count == 10 {
          return;
        }
      }
    }

    /** Signal: until it is above 10, or the fourth failed query since the last reset. */
    method MeasureSignal(count: nat) returns (cut: bool, sig_strength: nat, arr_sig_strength: int)
      requires Valid() && Running(Now()) && Now().due == Signal && count == Now().sigs <= 3
      modifies this
      ensures Valid() && next >= old(next) && sig_strength <= 4 && (cut ==> next == |answers|)
      ensures !cut ==> if sig_strength <= 3 then arr_sig_strength > 10
              && Now() == old(Now()).(due := Connection, sigs := sig_strength)
                       else Now() == old(Now()).(sigs := 0, over := true)
    {
      sig_strength, arr_sig_strength := count, 0;
      ghost var s := Now();
      while true
        invariant Valid() && sig_strength <= 3 && next >= old(next) && Now() == s.(sigs := sig_strength)
        decreases |answers| - next
      {
        var a;
        cut, a := Ask(Signal);
        if cut {
          return;
        }
        arr_sig_strength := a.signal;
        if a.rc != 0 {
          sig_strength := sig_strength + 1;
          if sig_strength > 3 {
            return;
          }
        } else if arr_sig_strength > 10 {
          return;
        }
      }
    }

    /** Connection: until the network and the internet answer, or either counter passes 1. */
    method Connect(links: nat, conns: nat)
      returns (cut: bool, network_link_count: nat, network_connection_count: nat)
      requires Valid() && Running(Now()) && Now().due == Connection
      requires links == Now().links <= 1 && conns == Now().conns <= 1
      modifies this
      ensures Valid() && next >= old(next) && (cut ==> next == |answers|)
      ensures !cut ==> var s := old(Now()).(failures := Now().failures);
                       if network_link_count <= 1 && network_connection_count <= 1 then
                         Now() == s.(due := Recheck, links := network_link_count, conns := network_connection_count)
                       else
                         Now() == s.(due := Now().due, links := 0, conns := 0, over := true)
    {
      network_link_count, network_connection_count := links, conns;
      ghost var s := Now();
      while true
        invariant Valid() && network_link_count <= 1 && network_connection_count <= 1 && next >= old(next)
        invariant Now() == s.(links := network_link_count, conns := network_connection_count,
                  failures := Now().failures)
        decreases |answers| - next
      {
        var a;
        cut, a := Ask(Connection);
        if cut {
          return;
        }
        if a.rc == 0 {
          cut, a := Ask(Internet);
          if cut {
            return;
          }
          if a.rc == 0 {
            return;
          }
          network_link_count := network_link_count + 1;
          if network_link_count > 1 {
            return;
          }
        } else {
          network_connection_count := network_connection_count + 1;
          if network_connection_count > 1 {
            return;
          }
        }
      }
    }

    /** The listener, called until it reports a lost link. */
    method Listen() returns (cut: bool)
      requires Valid() && Running(Now()) && Now().due == Listener
      modifies this
      ensures Valid() && next >= old(next) && (cut ==> next == |answers|)
      ensures !cut ==> Now() == old(Now()).(over := true)
    {
      ghost var s := Now();
      while true
        invariant Valid() && Now() == s && next >= old(next)
        decreases |answers| - next
      {
        var a;
        cut, a := Ask(Listener);
        if cut {
          return;
        }
        if a.rc < 0 {
          return;
        }
      }
    }

    /** Tests network_status and finds the modem off and powers it on; over when the pass or
        the run ends here. */
    method PowerUp() returns (cut: bool, exit: bool, again: bool)
      requires Valid() && Running(Now()) && Now().due == Status
      modifies this
      ensures Valid() && next >= old(next) && (cut ==> next == |answers|) && (!cut ==> next > old(next))
      ensures !cut && exit ==> Now() == old(Now()).(stop := true)
      ensures !cut && !exit && again ==> Now() == old(Now()).(due := Now().due, over := true)
      ensures !cut && !exit && !again ==> Now() == old(Now()).(due := Registration)
    {
      exit, again := false, false;
      var a;
      cut, a := Ask(Status);
      if cut {
        return;
      }
      if a.rc == -1 {
        exit := true;
        return;
      }
      cut, a := Ask(Modem);
      if cut {
        return;
      }
      if a.rc == 0 {
        again := true;
        return;
      }
      cut, a := Ask(PowerOn);
      again := a.rc != 0;
    }

    /** Registration, then signal; again when the pass ends here, with the counter reset. */
    method FindNetwork(regs: nat, sigs: nat) returns (cut: bool, again: bool, sim_reg_count: nat, sig_strength: nat)
      requires Valid() && Running(Now()) && Now().due == Registration
      requires regs == Now().regs <= 9 && sigs == Now().sigs <= 3
      modifies this
      ensures Valid() && next >= old(next) && (cut ==> next == |answers|)
      ensures !cut ==> sim_reg_count <= 9 && sig_strength <= 3
                       && Now() == old(Now()).(regs := sim_reg_count, sigs := sig_strength, over := again,
                                               due := if again then Now().due else Connection)
    {
      sig_strength, again := sigs, false;
      cut, sim_reg_count := Register(regs);
      if cut {
        return;
      }
      if sim_reg_count == 10 {
        sim_reg_count := 0;
        again := true;
        return;
      }
      var arr_sig_strength;
      cut, sig_strength, arr_sig_strength := MeasureSignal(sigs);
      if cut {
        return;
      }
      if sig_strength > 3 {
        sig_strength := 0;
        again := true;
        return;
      }
      if arr_sig_strength < 10 {
        assert false;            // the signal loop is left with a strength above 10
      }
    }

    /** network_manager.  Every event of every run is the one the specification allows; a run
        stops only where the answers end or network_status was found to be -1. */
    method NetworkManager()
      requires Valid() && trace == []
      modifies this
      ensures Valid()
      ensures next == |answers| || (trace != [] && trace[|trace| - 1].Exit?)
    {
      var sim_reg_count, sig_strength, network_link_count, network_connection_count := 0, 0, 0, 0;
      while true
        invariant Valid() && Now().over && !Now().stop
        invariant 0 <= sim_reg_count <= 9 && 0 <= sig_strength <= 3
        invariant 0 <= network_link_count <= 1 && 0 <= network_connection_count <= 1
        invariant sim_reg_count == Now().regs && sig_strength == Now().sigs
        invariant network_link_count == Now().links && network_connection_count == Now().conns
        decreases |answers| - next
      {
        Mark(Head(sim_reg_count, sig_strength, network_link_count, network_connection_count));
        var cut, exit, again := PowerUp();
        if cut {
          return;
        }
        if exit {
          Mark(Exit);
          return;
        }
        if again {
          continue;
        }
        cut, again, sim_reg_count, sig_strength := FindNetwork(sim_reg_count, sig_strength);
        if cut {
          return;
        }
        if again {
          continue;
        }
        cut, network_link_count, network_connection_count := Connect(network_link_count, network_connection_count);
        if cut {
          return;
        }
        if network_connection_count > 1 || network_link_count > 1 {
          network_connection_count := 0;
          network_link_count := 0;
          continue;
        }
        var a;
        cut, a := Ask(Recheck);
        if cut {
          return;
        }
        if a.rc == -1 {
          Mark(Exit);
          return;
        }
        cut := Listen();
        if cut {
          return;
        }
      }
    }
  }
}
