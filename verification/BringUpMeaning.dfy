/** What follows what in a run of the network manager, by the answers alone: no counters. */
module BringUpMeaning {
  import Arith
  import opened BringUp

  /** A registration query that finds no cell or no area code. */
  predicate NoCell(e: Event) {
    e.Called? && e.call.Registration? && (e.answer.cell_id == 0 || e.answer.lac == 0)
  }

  predicate NoStrength(e: Event) {
    e.Called? && e.call.Signal? && e.answer.rc != 0
  }

  function NoCells(trace: seq<Event>): nat {
    if trace == [] then 0 else NoCells(trace[..|trace| - 1]) + if NoCell(trace[|trace| - 1]) then 1 else 0
  }

  function NoStrengths(trace: seq<Event>): nat {
    if trace == [] then 0 else NoStrengths(trace[..|trace| - 1]) + if NoStrength(trace[|trace| - 1]) then 1 else 0
  }

  predicate Fails(e: Event, c: Call) {
    e.Called? && e.call == c && e.answer.rc != 0
  }

  /** After this failed dial or internet check the pass is over. */
  predicate GivesUp(trace: seq<Event>, k: nat)
    requires k + 1 < |trace|
  {
    (Fails(trace[k], Connection) || Fails(trace[k], Internet)) && trace[k + 1].Head?
  }

  /** The call failed at j, and no connection phase has been given up since. */
  predicate FailedAt(trace: seq<Event>, j: nat, i: nat, c: Call)
    requires i < |trace|
  {
    j < i && Fails(trace[j], c) && forall k | j <= k < i :: !GivesUp(trace, k)
  }

  ghost predicate FailedBefore(trace: seq<Event>, i: nat, c: Call)
    requires i < |trace|
  {
    exists j: nat :: FailedAt(trace, j, i, c)
  }

  // ----- the counters

  lemma Wraps(n: nat, m: nat)
    requires m > 0
    ensures (n + 1) % m == if n % m == m - 1 then 0 else n % m + 1
  {
    if n % m == m - 1 {
      Arith.DivModUnique(n + 1, m, n / m + 1, 0);
    } else {
      Arith.DivModUnique(n + 1, m, n / m, n % m + 1);
    }
  }

  lemma RegsStep(s: State, e: Event, n: nat)
    requires s.regs == n % 10 && Allowed(s, e)
    ensures After(s, e).regs == (n + if NoCell(e) then 1 else 0) % 10
  {
    Wraps(n, 10);
  }

  lemma SigsStep(s: State, e: Event, n: nat)
    requires s.sigs == n % 4 && Allowed(s, e)
    ensures After(s, e).sigs == (n + if NoStrength(e) then 1 else 0) % 4
  {
    Wraps(n, 4);
  }

  lemma {:induction false} RegsCounted(trace: seq<Event>)
    requires Good(trace)
    ensures StateOf(trace).regs == NoCells(trace) % 10
  {
    if trace == [] {
    } else {
      var init, last := trace[..|trace| - 1], trace[|trace| - 1];
      RegsCounted(init);
      LastAllowed(trace);
      RegsStep(StateOf(init), last, NoCells(init));
    }
  }

  lemma {:induction false} SigsCounted(trace: seq<Event>)
    requires Good(trace)
    ensures StateOf(trace).sigs == NoStrengths(trace) % 4
  {
    if trace == [] {
    } else {
      var init, last := trace[..|trace| - 1], trace[|trace| - 1];
      SigsCounted(init);
      LastAllowed(trace);
      SigsStep(StateOf(init), last, NoStrengths(init));
    }
  }

  /** A pass that is over is followed by the top of the loop, one that is not is not. */
  lemma OverMeansHead(trace: seq<Event>, k: nat)
    requires Good(trace) && k + 1 < |trace| && trace[k].Called? && !StateOf(trace[..k + 1]).stop
    ensures StateOf(trace[..k + 1]).over <==> trace[k + 1].Head?
  {
    EventAllowed(trace, k + 1);
  }

  lemma Stepped(trace: seq<Event>, k: nat)
    requires Good(trace) && k < |trace|
    ensures StateOf(trace[..k + 1]) == After(StateOf(trace[..k]), trace[k]) && Allowed(StateOf(trace[..k]), trace[k])
  {
    EventAllowed(trace, k);
    assert trace[..k + 1][..k] == trace[..k];
  }

  lemma GivesUpMeans(trace: seq<Event>, k: nat)
    requires Good(trace) && k + 1 < |trace|
    ensures GivesUp(trace, k) <==>
            (Fails(trace[k], Connection) && StateOf(trace[..k]).conns >= 1)
            || (Fails(trace[k], Internet) && StateOf(trace[..k]).links >= 1)
  {
    Stepped(trace, k);
    if Fails(trace[k], Connection) || Fails(trace[k], Internet) {
      OverMeansHead(trace, k);
    }
  }

  lemma FailedBeforeStep(trace: seq<Event>, i: nat, c: Call)
    requires i + 1 < |trace|
    ensures FailedBefore(trace, i + 1, c) <==> !GivesUp(trace, i) && (Fails(trace[i], c) || FailedBefore(trace, i, c))
  {
    if FailedBefore(trace, i + 1, c) {
      var j: nat :| FailedAt(trace, j, i + 1, c);
      if j < i {
        assert FailedAt(trace, j, i, c);
      }
    }
    if !GivesUp(trace, i) {
      if Fails(trace[i], c) {
        assert FailedAt(trace, i, i + 1, c);
      } else if FailedBefore(trace, i, c) {
        var j: nat :| FailedAt(trace, j, i, c);
        assert FailedAt(trace, j, i + 1, c);
      }
    }
  }

  function Bit(b: bool): nat {
    if b then 1 else 0
  }

  /** The two counters after an event, in terms of what failed. */
  lemma DialCounters(s: State, e: Event, s': State)
    requires Inv(s) && Allowed(s, e) && s' == After(s, e)
    ensures var up := (Fails(e, Connection) && s.conns >= 1) || (Fails(e, Internet) && s.links >= 1);
            && s'.conns == Bit(!up && (Fails(e, Connection) || s.conns == 1))
            && s'.links == Bit(!up && (Fails(e, Internet) || s.links == 1))
  {
  }

  lemma {:induction false} DialsCounted(trace: seq<Event>, i: nat)
    requires Good(trace) && i < |trace|
    ensures StateOf(trace[..i]).conns == Bit(FailedBefore(trace, i, Connection))
    ensures StateOf(trace[..i]).links == Bit(FailedBefore(trace, i, Internet))
  {
    if i == 0 {
    } else {
      var s := StateOf(trace[..i - 1]);
      DialsCounted(trace, i - 1);
      Stepped(trace, i - 1);
      RunKeeps(trace, i - 1);
      DialCounters(s, trace[i - 1], StateOf(trace[..i]));
      GivesUpMeans(trace, i - 1);
      FailedBeforeStep(trace, i - 1, Connection);
      FailedBeforeStep(trace, i - 1, Internet);
    }
  }

  // ----- what follows

  predicate Calls(e: Event, c: Call) {
    e.Called? && e.call == c
  }

  /** The event that follows a call, given which failure is the last that is borne. */
  predicate Follows(e: Event, next: Event, regs: bool, sigs: bool, conns: bool, links: bool)
    requires e.Called?
  {
    var a := e.answer;
    match e.call
    case Status => if a.rc == -1 then next.Exit? else Calls(next, Modem)
    case Modem => if a.rc == 0 then next.Head? else Calls(next, PowerOn)
    case PowerOn => if a.rc != 0 then next.Head? else Calls(next, Registration)
    case Registration =>
      if a.cell_id != 0 && a.lac != 0 then Calls(next, Signal)
      else if regs then next.Head? else Calls(next, Registration)
    case Signal =>
      if a.rc == 0 then Calls(next, if a.signal > 10 then Connection else Signal)
      else if sigs then next.Head? else Calls(next, Signal)
    case Connection =>
      if a.rc == 0 then Calls(next, Internet) else if conns then next.Head? else Calls(next, Connection)
    case Internet =>
      if a.rc == 0 then Calls(next, Recheck) else if links then next.Head? else Calls(next, Connection)
    case Recheck => if a.rc == -1 then next.Exit? else Calls(next, Listener)
    case Listener => if a.rc < 0 then next.Head? else Calls(next, Listener)
  }

  lemma StateFollows(s: State, e: Event, next: Event)
    requires Inv(s) && Allowed(s, e) && e.Called? && Allowed(After(s, e), next)
    ensures Follows(e, next, s.regs == 9, s.sigs == 3, s.conns == 1, s.links == 1)
  {
  }

  lemma NextMultiple(n: nat, m: nat)
    requires m > 0
    ensures (n + 1) % m == 0 <==> n % m == m - 1
  {
    Wraps(n, m);
  }

  lemma CellCount(trace: seq<Event>, i: nat)
    requires Good(trace) && i < |trace| && NoCell(trace[i])
    ensures NoCells(trace[..i + 1]) % 10 == 0 <==> StateOf(trace[..i]).regs == 9
  {
    PrefixGood(trace, i);
    RegsCounted(trace[..i]);
    NextMultiple(NoCells(trace[..i]), 10);
    assert trace[..i + 1][..i] == trace[..i];
    assert NoCells(trace[..i + 1]) == NoCells(trace[..i]) + 1;
  }

  lemma StrengthCount(trace: seq<Event>, i: nat)
    requires Good(trace) && i < |trace| && NoStrength(trace[i])
    ensures NoStrengths(trace[..i + 1]) % 4 == 0 <==> StateOf(trace[..i]).sigs == 3
  {
    PrefixGood(trace, i);
    SigsCounted(trace[..i]);
    NextMultiple(NoStrengths(trace[..i]), 4);
    assert trace[..i + 1][..i] == trace[..i];
    assert NoStrengths(trace[..i + 1]) == NoStrengths(trace[..i]) + 1;
  }

  /** The event after a call, in every run: registration is given up at every tenth query
      without a cell, the signal at every fourth failed query, and the connection when a dial,
      or an internet check, fails that has failed before. */
  lemma NextEvent(trace: seq<Event>, i: nat)
    requires Good(trace) && i + 1 < |trace| && trace[i].Called?
    ensures Follows(trace[i], trace[i + 1], NoCells(trace[..i + 1]) % 10 == 0, NoStrengths(trace[..i + 1]) % 4 == 0,
                    FailedBefore(trace, i, Connection), FailedBefore(trace, i, Internet))
  {
    Stepped(trace, i);
    Stepped(trace, i + 1);
    RunKeeps(trace, i);
    StateFollows(StateOf(trace[..i]), trace[i], trace[i + 1]);
    if NoCell(trace[i]) {
      CellCount(trace, i);
    }
    if NoStrength(trace[i]) {
      StrengthCount(trace, i);
    }
    DialsCounted(trace, i);
  }

  /** The top of the loop is followed by the test of network_status, and the end by nothing. */
  lemma NextOfHead(trace: seq<Event>, i: nat)
    requires Good(trace) && i + 1 < |trace| && !trace[i].Called?
    ensures trace[i].Head? && Calls(trace[i + 1], Status)
  {
    Stepped(trace, i);
    Stepped(trace, i + 1);
  }

  /** A run begins with the top of the loop, and its counters are the failures not yet used up. */
  lemma HeadCounts(trace: seq<Event>, i: nat)
    requires Good(trace) && i < |trace|
    ensures i == 0 ==> trace[0].Head?
    ensures trace[i].Head? ==>
              && trace[i].sim_reg_count == NoCells(trace[..i]) % 10
              && trace[i].sig_strength == NoStrengths(trace[..i]) % 4
              && trace[i].network_connection_count == Bit(FailedBefore(trace, i, Connection))
              && trace[i].network_link_count == Bit(FailedBefore(trace, i, Internet))
  {
    EventAllowed(trace, i);
    PrefixGood(trace, i);
    RegsCounted(trace[..i]);
    SigsCounted(trace[..i]);
    DialsCounted(trace, i);
  }

  /** In the pass in progress before the i-th event, the call got such an answer. */
  ghost predicate Got(trace: seq<Event>, i: nat, c: Call, good: Answer -> bool)
    requires i <= |trace|
  {
    exists j: nat :: j < i && Calls(trace[j], c) && good(trace[j].answer) && SamePass(trace, j + 1, i)
  }

  lemma SuccessIsGot(trace: seq<Event>, i: nat, c: Call, good: Answer -> bool)
    requires i <= |trace| && SucceededInPass(trace, i, c)
    requires forall a: Answer :: Succeeds(c, a) ==> good(a)
    ensures Got(trace, i, c, good)
  {
    var j: nat :| j < i && Success(trace[j], c) && SamePass(trace, j + 1, i);
    assert Calls(trace[j], c) && good(trace[j].answer);
  }

  lemma Reached(trace: seq<Event>, i: nat, c: Call, good: Answer -> bool)
    requires Good(trace) && i < |trace| && Calls(trace[i], Listener) && !c.Listener?
    requires forall a: Answer :: Succeeds(c, a) ==> good(a)
    ensures Got(trace, i, c, good)
  {
    RunKeeps(trace, i);
    EarlierCallsSucceeded(trace, i, c);
    SuccessIsGot(trace, i, c, good);
  }

  /** The listener runs only after every call before it has succeeded in the same pass. */
  lemma ListenerMeans(trace: seq<Event>, i: nat)
    requires Good(trace) && i < |trace| && trace[i].Called? && trace[i].call.Listener?
    ensures Got(trace, i, Status, (a: Answer) => a.rc != -1)
    ensures Got(trace, i, Modem, (a: Answer) => a.rc != 0)
    ensures Got(trace, i, PowerOn, (a: Answer) => a.rc == 0)
    ensures Got(trace, i, Registration, (a: Answer) => a.cell_id != 0 && a.lac != 0)
    ensures Got(trace, i, Signal, (a: Answer) => a.rc == 0 && a.signal > 10)
    ensures Got(trace, i, Connection, (a: Answer) => a.rc == 0)
    ensures Got(trace, i, Internet, (a: Answer) => a.rc == 0)
    ensures Got(trace, i, Recheck, (a: Answer) => a.rc != -1)
  {
    Reached(trace, i, Status, (a: Answer) => a.rc != -1);
    Reached(trace, i, Modem, (a: Answer) => a.rc != 0);
    Reached(trace, i, PowerOn, (a: Answer) => a.rc == 0);
    Reached(trace, i, Registration, (a: Answer) => a.cell_id != 0 && a.lac != 0);
    Reached(trace, i, Signal, (a: Answer) => a.rc == 0 && a.signal > 10);
    Reached(trace, i, Connection, (a: Answer) => a.rc == 0);
    Reached(trace, i, Internet, (a: Answer) => a.rc == 0);
    Reached(trace, i, Recheck, (a: Answer) => a.rc != -1);
  }
}
