/** Bringing the mobile connection up, with fallback from 4G over 3G and 2G to automatic mode
    (establish_connection and what it calls).  Modem answers, link checks and clock drift are
    functions of the number of the call. */
module BearerFallback {

  const OBD2_LIB_SUCCESS := 0
  const OBD2_LIB_FAILURE := -1
  const ENOMEM := 12
  const INVALID_VALUE := 0x100A
  // error numbers, as 32-bit int
  const E_GSM_SIM_NOT_DETECTED := 0xE001_000A - 0x1_0000_0000
  const E_GSM_SIM_DETECTED := 0xE001_000B - 0x1_0000_0000
  const E_GSM_SIM_STATUS_UNKNOWN := 0xE001_000C - 0x1_0000_0000
  const E_GSM_USB_DISCONNECT := 0xE001_0004 - 0x1_0000_0000
  const E_BUFFER_READ_OVERFLOW := 0xE101_0008 - 0x1_0000_0000
  const E_GSM_NETWORK_MODE_ENABLED := 0xE101_0009 - 0x1_0000_0000
  const WAIT_PPP_UP := 3
  const WINDOW := 60

  /** One answer to AT+CPIN?, with what follows when a PIN is asked for. */
  datatype Reply =
    | AtError                 // the command fails: asked again
    | Ready
    | PinNoMemory             // the PIN command cannot be built
    | PinError(code: int)     // the PIN command fails
    | PinReady
    | PinPending              // asked again
    | Absent                  // NOT... or +CME ERROR
    | Other                   // anything else: asked again, seven times at most

  /** One AT command: its code, and which words its answer holds. */
  datatype Message = Message(code: int, cpin: bool, ready: bool, absent: bool, simPin: bool, cme: bool)

  /** What the modem says while it starts: its first message, the answer to the PIN command,
      and the answer to AT+CPIN?. */
  datatype Dialogue = Dialogue(first: Message, pin: Message, status: Message)

  /** The status that a message with READY or NOT in it gives; NOT wins. */
  function Told(m: Message, was: int): int {
    if m.absent then E_GSM_SIM_NOT_DETECTED else if m.ready then E_GSM_SIM_DETECTED else was
  }

  /** The PIN was asked for and taken, without leading to READY at once. */
  predicate AsksAgain(d: Dialogue) {
    d.first.code == 0 && d.first.cpin && d.first.simPin && d.pin.code == 0 && !d.pin.ready && d.status.code == 0
  }

  /** The SIM status after the modem has started. */
  function BootStatus(d: Dialogue, was: int): int {
    if d.first.code != 0 || !d.first.cpin then was
    else if d.first.simPin && d.pin.code == 0 && d.pin.ready then E_GSM_SIM_DETECTED
    else if AsksAgain(d) then
      if d.status.cme then E_GSM_SIM_NOT_DETECTED else Told(d.status, Told(d.first, was))
    else Told(d.first, was)
  }

  /** The code of the command that fails in the PIN dialogue, which ends the call; 0 if none. */
  function BootFailure(d: Dialogue): int {
    if d.first.code != 0 || !d.first.cpin || !d.first.simPin then OBD2_LIB_SUCCESS
    else if d.pin.code != 0 then d.pin.code
    else if d.pin.ready then OBD2_LIB_SUCCESS
    else d.status.code
  }

  /** The manager thread's own status after the same dialogue: +CME ERROR does not change it. */
  function BootStatusMonitor(d: Dialogue): int {
    if d.first.code != 0 || !d.first.cpin then OBD2_LIB_FAILURE
    else if d.first.simPin && d.pin.code == 0 && d.pin.ready then E_GSM_SIM_DETECTED
    else if AsksAgain(d) then Told(d.status, Told(d.first, OBD2_LIB_FAILURE))
    else Told(d.first, OBD2_LIB_FAILURE)
  }

  /** The start-up dialogue, message by message: NOT in the first message wins over READY; a
      PIN taken with READY finds the SIM, and one taken without it leaves it to the status
      message, where +CME ERROR is as good as NOT.  A command that fails in the PIN dialogue is
      the failure of the call, and the status stays as the first message told it. */
  lemma BootMeans(d: Dialogue, was: int)
    ensures var heard := d.first.code == 0 && d.first.cpin;
            var first := if d.first.absent then E_GSM_SIM_NOT_DETECTED
                         else if d.first.ready then E_GSM_SIM_DETECTED else was;
            && (!heard ==> BootStatus(d, was) == was && BootFailure(d) == 0)
            && (heard && !d.first.simPin ==> BootStatus(d, was) == first && BootFailure(d) == 0)
            && (heard && d.first.simPin && d.pin.code != 0 ==>
                  BootStatus(d, was) == first && BootFailure(d) == d.pin.code)
            && (heard && d.first.simPin && d.pin.code == 0 && d.pin.ready ==>
                  BootStatus(d, was) == E_GSM_SIM_DETECTED && BootFailure(d) == 0)
            && (heard && d.first.simPin && d.pin.code == 0 && !d.pin.ready && d.status.code != 0 ==>
                  BootStatus(d, was) == first && BootFailure(d) == d.status.code)
            && (heard && d.first.simPin && d.pin.code == 0 && !d.pin.ready && d.status.code == 0 ==>
                  BootFailure(d) == 0
                  && BootStatus(d, was) == if d.status.absent || d.status.cme then E_GSM_SIM_NOT_DETECTED
                                           else if d.status.ready then E_GSM_SIM_DETECTED else first)
  {
  }

  /** The manager thread's copy ends with the same status from -1, but where +CME ERROR without
      NOT decides: that it does not hear. */
  lemma BootMonitorMeans(d: Dialogue)
    ensures var unheard := AsksAgain(d) && d.status.cme && !d.status.absent;
            BootStatusMonitor(d)
            == if unheard then BootStatus(d.(status := d.status.(cme := false)), -1) else BootStatus(d, -1)
    ensures AsksAgain(d) && d.status.cme ==> BootStatus(d, -1) == E_GSM_SIM_NOT_DETECTED
  {
  }

  predicate Decisive(r: Reply) {
    r.Ready? || r.PinNoMemory? || (r.PinError? && r.code != 0) || r.PinReady? || r.Absent?
  }

  /** The SIM status after the answer that ends a query: PIN failures leave it as it was. */
  function StatusAfter(r: Reply, was: int): int {
    if r.Ready? || r.PinReady? then E_GSM_SIM_DETECTED
    else if r.Absent? || r.Other? then E_GSM_SIM_NOT_DETECTED
    else was
  }

  function CodeAfter(r: Reply): int {
    if r.PinNoMemory? then -ENOMEM else if r.PinError? then r.code else OBD2_LIB_SUCCESS
  }

  datatype Event = Dialled | DialLink(r: int) | SwitchLink(r: int) | ModeSet(mode: int, r: int)

  function Dials(trace: seq<Event>): nat {
    if trace == [] then 0 else Dials(trace[..|trace| - 1]) + if trace[|trace| - 1].Dialled? then 1 else 0
  }

  /** The number of modes that the modem accepted. */
  function Accepted(trace: seq<Event>): nat {
    if trace == [] then 0
    else
      var last := trace[|trace| - 1];
      Accepted(trace[..|trace| - 1]) + if last.ModeSet? && last.r == 0 then 1 else 0
  }

  /** The modes that were tried, in order. */
  function Modes(trace: seq<Event>): seq<int> {
    if trace == [] then []
    else
      var last := trace[|trace| - 1];
      Modes(trace[..|trace| - 1]) + if last.ModeSet? then [last.mode] else []
  }

  /** n, n-1, ... down to one above k. */
  function Down(n: int, k: int): seq<int>
    requires 0 <= k <= n
    decreases n - k
  {
    if n == k then [] else Down(n, k + 1) + [k + 1]
  }

  lemma TraceSnoc(trace: seq<Event>, e: Event)
    ensures Dials([]) == 0 && Modes([]) == [] && Accepted([]) == 0
    ensures Dials(trace + [e]) == Dials(trace) + if e.Dialled? then 1 else 0
    ensures Modes(trace + [e]) == Modes(trace) + if e.ModeSet? then [e.mode] else []
    ensures Accepted(trace + [e]) == Accepted(trace) + if e.ModeSet? && e.r == 0 then 1 else 0
  {
    assert (trace + [e])[..|trace|] == trace;
  }

  /** What one dial adds to the trace. */
  lemma TraceDial(trace: seq<Event>, first: int, second: int)
    ensures var more := trace + if first == 0 then [DialLink(0)] else [DialLink(first), Dialled, DialLink(second)];
            Modes(more) == Modes(trace) && Accepted(more) == Accepted(trace)
            && Dials(trace) <= Dials(more) <= Dials(trace) + 1
  {
    if first == 0 {
      TraceSnoc(trace, DialLink(0));
    } else {
      TraceSnoc(trace, DialLink(first));
      TraceSnoc(trace + [DialLink(first)], Dialled);
      TraceSnoc(trace + [DialLink(first)] + [Dialled], DialLink(second));
      assert trace + [DialLink(first), Dialled, DialLink(second)]
          == trace + [DialLink(first)] + [Dialled] + [DialLink(second)];
    }
  }

  class Gsm {
    var sim_status: int
    var sim_status_monitor: int
    const network_enable_status: int
    var now: int                  // seconds of the monotonic clock
    ghost var trace: seq<Event>   // since the last establish_connection began

    // what the outside world answers to the k-th call
    const link: nat -> int
    const modem: nat -> int
    const command: nat -> int
    const reply: (nat, nat) -> Reply
    const delay: nat -> nat
    const patience: nat -> nat
    var links: nat
    var modems: nat
    var commands: nat
    var queries: nat
    var sleeps: nat

    constructor (enable: int, start: int, link: nat -> int, modem: nat -> int, command: nat -> int,
                 reply: (nat, nat) -> Reply, delay: nat -> nat, patience: nat -> nat)
      ensures SimStatusSet() && trace == []
      ensures network_enable_status == enable && now == start && this.reply == reply && this.patience == patience
      ensures this.link == link && this.modem == modem && this.command == command && this.delay == delay
      ensures links == modems == commands == queries == sleeps == 0
    {
      sim_status, sim_status_monitor, now, trace := OBD2_LIB_FAILURE, 0, start, [];
      network_enable_status := enable;
      this.link, this.modem, this.command, this.reply := link, modem, command, reply;
      this.delay, this.patience := delay, patience;
      links, modems, commands, queries, sleeps := 0, 0, 0, 0, 0;
    }

    /** Answers among the first k of a query that are Other. */
    ghost function Others(query: nat, k: nat): nat {
      if k == 0 then 0 else Others(query, k - 1) + if reply(query, k - 1).Other? then 1 else 0
    }

    /** Every query of the SIM status is answered in the end: by a decisive answer or by
        seven that mean nothing. */
    ghost predicate Answers() {
      forall q: nat :: Answered(q, patience(q))
    }

    /** The query has ended with its k-th answer at the latest. */
    ghost predicate Answered(q: nat, k: nat) {
      Decisive(reply(q, k)) || Others(q, k + 1) >= 7
    }

    /** The places of the answers that mean nothing, among the first k of a query. */
    ghost function Meaningless(query: nat, k: nat): set<nat> {
      set j: nat | j < k && reply(query, j).Other?
    }

    lemma OthersCounted(query: nat, k: nat)
      ensures Others(query, k) == |Meaningless(query, k)|
    {
      if k == 0 {
        assert Meaningless(query, 0) == {};
      } else {
        OthersCounted(query, k - 1);
        assert Meaningless(query, k)
            == Meaningless(query, k - 1) + if reply(query, k - 1).Other? then {k - 1} else {};
      }
    }

    // ----- calls to the outside

    method CheckLink() returns (r: int)
      modifies this`links
      ensures r == link(old(links)) && links == old(links) + 1
    {
      r := link(links);
      links := links + 1;
    }

    /** sleep(n): at least n seconds pass. */
    method Sleep(n: nat)
      modifies this`now, this`sleeps
      ensures now == old(now) + n + delay(old(sleeps)) && sleeps == old(sleeps) + 1
    {
      now := now + n + delay(sleeps);
      sleeps := sleeps + 1;
    }

    method AtCommand() returns (r: int)
      modifies this`commands
      ensures r == command(old(commands)) && commands == old(commands) + 1
    {
      r := command(commands);
      commands := commands + 1;
    }

    // ----- the SIM status

    /** The whole-program invariant that makes a failed dial report a failure. */
    predicate SimStatusSet()
      reads this
    {
      sim_status != 0
    }

    /** The k-th answer of a query ends it. */
    ghost predicate Stops(query: nat, k: nat) {
      Decisive(reply(query, k)) || (reply(query, k).Other? && Others(query, k) > 5)
    }

    /** The k-th answer is the one that ends a query. */
    ghost predicate StopsAt(query: nat, k: nat) {
      Stops(query, k) && forall j | 0 <= j < k :: !Stops(query, j)
    }

    /** A query ends at its first answer that decides, or at the seventh that means nothing. */
    lemma StopsMeans(query: nat, k: nat)
      ensures Stops(query, k) <==>
              match reply(query, k) {
                case Ready => true
                case PinReady => true
                case Absent => true
                case PinNoMemory => true
                case PinError(code) => code != 0
                case Other => |Meaningless(query, k)| >= 6
                case AtError => false
                case PinPending => false
              }
      ensures StopsAt(query, k) && reply(query, k).Other? ==> |Meaningless(query, k + 1)| == 7
    {
      OthersCounted(query, k);
      OthersCounted(query, k + 1);
      if StopsAt(query, k) && reply(query, k).Other? && Others(query, k) > 6 {
        EarlierStop(query, k);
      }
    }

    /** More than six answers that mean nothing have a seventh among them, which stopped. */
    lemma EarlierStop(query: nat, k: nat)
      requires Others(query, k) > 6
      ensures exists j | 0 <= j < k :: Stops(query, j)
    {
      if Others(query, k - 1) > 6 {
        EarlierStop(query, k - 1);
      } else {
        assert Stops(query, k - 1);
      }
    }

    /** What a query leaves in sim_status, given the numbers of the modem check and the query. */
    ghost predicate QuerySets(check: nat, query: nat, was: int, status: int) {
      if modem(check) != 0 then status == E_GSM_SIM_STATUS_UNKNOWN
      else exists k: nat :: StopsAt(query, k) && status == StatusAfter(reply(query, k), was)
    }

    /** get_gsm_sim_status: UNKNOWN when the modem is not there, and otherwise what the answer
        that ends the query says. */
    method GetGsmSimStatus() returns (ret: int, val: int)
      requires SimStatusSet() && Answers()
      modifies this`sim_status, this`modems, this`queries
      ensures SimStatusSet() && val == sim_status && modems == old(modems) + 1
      ensures QuerySets(old(modems), old(queries), old(sim_status), sim_status)
      ensures modem(old(modems)) != 0 ==> ret == modem(old(modems)) && sim_status == E_GSM_SIM_STATUS_UNKNOWN
      ensures modem(old(modems)) == 0 ==>
                exists k: nat :: StopsAt(old(queries), k)
                  && match reply(old(queries), k) {
                       case Ready => ret == 0 && sim_status == E_GSM_SIM_DETECTED
                       case PinReady => ret == 0 && sim_status == E_GSM_SIM_DETECTED
                       case Absent => ret == 0 && sim_status == E_GSM_SIM_NOT_DETECTED
                       case Other => ret == 0 && sim_status == E_GSM_SIM_NOT_DETECTED
                       case PinNoMemory => ret == -12 && sim_status == old(sim_status)
                       case PinError(code) => ret == code != 0 && sim_status == old(sim_status)
                       case AtError => false
                       case PinPending => false
                     }
    {
      ret := modem(modems);
      modems := modems + 1;
      if ret != OBD2_LIB_SUCCESS {
        sim_status := E_GSM_SIM_STATUS_UNKNOWN;
        return ret, sim_status;
      }
      var q: nat, k: nat, count: nat, stop := queries, 0, 0, false;
      queries := queries + 1;
      ghost var bound: nat := patience(q);
      assert Answered(q, bound);
      while !stop
        invariant SimStatusSet() && k >= 0 && modems == old(modems) + 1
        invariant !stop ==> k <= bound && count == Others(q, k) <= 6 && sim_status == old(sim_status)
        invariant !stop ==> forall j | 0 <= j < k :: !Stops(q, j)
        invariant stop ==> k > 0 && StopsAt(q, k - 1) && ret == CodeAfter(reply(q, k - 1))
                           && sim_status == StatusAfter(reply(q, k - 1), old(sim_status))
        decreases bound - k, !stop
      {
        stop, ret, count := OnReply(reply(q, k), count);
        k := k + 1;
      }
      val := sim_status;
    }

    /** One turn of the query: whether it ends, and with what. */
    method OnReply(r: Reply, before: nat) returns (stop: bool, ret: int, count: nat)
      requires SimStatusSet()
      modifies this`sim_status
      ensures SimStatusSet()
      ensures stop == (Decisive(r) || (r.Other? && before > 5))
      ensures sim_status == if stop then StatusAfter(r, old(sim_status)) else old(sim_status)
      ensures stop ==> ret == CodeAfter(r)
      ensures !stop ==> count == before + if r.Other? then 1 else 0
    {
      stop, ret, count := false, OBD2_LIB_SUCCESS, before;
      match r
      case AtError => ret := OBD2_LIB_FAILURE;
      case Ready =>
        sim_status := E_GSM_SIM_DETECTED;
        stop := true;
      case PinNoMemory =>
        ret := -ENOMEM;
        stop := true;
      case PinError(code) =>
        ret := code;
        stop := ret != OBD2_LIB_SUCCESS;
      case PinReady =>
        sim_status := E_GSM_SIM_DETECTED;
        stop := true;
      case PinPending =>
      case Absent =>
        sim_status := E_GSM_SIM_NOT_DETECTED;
        stop := true;
      case Other =>
        if count > 5 {
          sim_status := E_GSM_SIM_NOT_DETECTED;
          stop := true;
        } else {
          count := count + 1;
        }
    }

    // ----- the other writers of sim_status

    /** get_gsm_signal_strength, as far as it concerns the SIM status. */
    method SignalStrengthSimStatus()
      requires SimStatusSet() && Answers()
      modifies this`sim_status, this`modems, this`queries
      ensures SimStatusSet()
      ensures QuerySets(old(modems), old(queries), old(sim_status), sim_status)
    {
      var ret, sim_info := GetGsmSimStatus();
      if sim_info != E_GSM_SIM_DETECTED {
        sim_status := sim_info;
      }
    }

    /** The dialogue of gsm_modem_on; exit when it ends the call. */
    method ReadBoot(d: Dialogue) returns (exit: bool, ret: int)
      requires SimStatusSet()
      modifies this`sim_status
      ensures SimStatusSet() && sim_status == BootStatus(d, old(sim_status))
      ensures exit == (BootFailure(d) != 0) && (exit ==> ret == BootFailure(d))
    {
      exit, ret := false, d.first.code;
      if ret == OBD2_LIB_SUCCESS && d.first.cpin {
        if d.first.ready {
          sim_status := E_GSM_SIM_DETECTED;
        }
        if d.first.absent {
          sim_status := E_GSM_SIM_NOT_DETECTED;
        }
        if d.first.simPin {
          ret := d.pin.code;
          if ret != OBD2_LIB_SUCCESS {
            return true, ret;
          }
          if d.pin.ready {
            sim_status := E_GSM_SIM_DETECTED;
          } else {
            ret := d.status.code;
            if ret != OBD2_LIB_SUCCESS {
              return true, ret;
            }
            if d.status.ready {
              sim_status := E_GSM_SIM_DETECTED;
            }
            if d.status.absent {
              sim_status := E_GSM_SIM_NOT_DETECTED;
            }
            if d.status.absent || d.status.cme {
              sim_status := E_GSM_SIM_NOT_DETECTED;
            }
          }
        }
      }
    }

    /** The modem is missing in these checks. */
    ghost predicate NoModem(from: nat, to: nat) {
      forall k | from <= k < to :: modem(k) != 0
    }

    /** Waits for the modem to appear: 32 checks at most. */
    method AwaitModem() returns (ret: int)
      modifies this`modems, this`now, this`sleeps
      ensures old(modems) < modems <= old(modems) + 32 && NoModem(old(modems), modems - 1)
      ensures ret == modem(modems - 1) && (ret == 0 || modems == old(modems) + 32)
    {
      var count := 0;
      while true
        invariant 0 <= count <= 31 && modems == old(modems) + count
        invariant NoModem(old(modems), modems)
        decreases 31 - count
      {
        ret := modem(modems);
        modems := modems + 1;
        if ret == OBD2_LIB_SUCCESS {
          break;
        }
        Sleep(1);
        if count > 30 {
          break;
        }
        count := count + 1;
      }
    }

    /** gsm_modem_on, for a PIN of the given length. */
    method GsmModemOn(length: int, d: Dialogue) returns (ret: int)
      requires SimStatusSet() && Answers()
      modifies this
      ensures SimStatusSet()
      ensures network_enable_status != 0 ==> ret == E_GSM_NETWORK_MODE_ENABLED && sim_status == old(sim_status)
      ensures network_enable_status == 0 && !(0 <= length <= 49) ==>
                ret == E_BUFFER_READ_OVERFLOW && sim_status == old(sim_status)
      ensures network_enable_status == 0 && 0 <= length <= 49 && modem(old(modems)) == 0 ==>
                ret == 0 && sim_status == old(sim_status)
      ensures network_enable_status == 0 && 0 <= length <= 49 && NoModem(old(modems), old(modems) + 33) ==>
                ret == E_GSM_USB_DISCONNECT && sim_status == old(sim_status)
      // when the modem has appeared, the call ends with a failing PIN dialogue, or asks for the
      // automatic mode and returns the modem's presence
      ensures network_enable_status == 0 && 0 <= length <= 49 && modem(old(modems)) != 0
              && !NoModem(old(modems), old(modems) + 33) ==>
                if BootFailure(d) != 0 then
                  ret == BootFailure(d) && sim_status == BootStatus(d, old(sim_status)) && trace == old(trace)
                else
                  modems >= 2 && ret == modem(modems - 1) && (exists r :: trace == old(trace) + [ModeSet(1, r)])
                  && QuerySets(modems - 2, old(queries), BootStatus(d, old(sim_status)), sim_status)
    {
      if network_enable_status != 0 {
        return E_GSM_NETWORK_MODE_ENABLED;
      }
      if length < 0 || length > 49 {    // compared as unsigned
        return E_BUFFER_READ_OVERFLOW;
      }
      ret := modem(modems);
      modems := modems + 1;
      if ret == OBD2_LIB_SUCCESS {
        return;
      }
      ret := AwaitModem();
      if ret != OBD2_LIB_SUCCESS {
        return E_GSM_USB_DISCONNECT;
      }
      var exit;
      exit, ret := ReadBoot(d);
      if exit {
        return;
      }
      ret := SetGsmNetworkMode(1);
      ret := modem(modems);
      modems := modems + 1;
    }

    /** The dialogue of gsm_modem_on_monitor, in the manager thread.  It has a status of its own,
        but for one place where it stores to sim_status. */
    method ReadBootMonitor(d: Dialogue, noMemory: bool) returns (exit: bool, ret: int)
      requires SimStatusSet()
      modifies this`sim_status, this`sim_status_monitor
      ensures SimStatusSet()
      ensures sim_status
              == if !noMemory && AsksAgain(d) && (d.status.absent || d.status.cme) then E_GSM_SIM_NOT_DETECTED
                 else old(sim_status)
      ensures !noMemory ==> sim_status_monitor == BootStatusMonitor(d)
      ensures !noMemory ==> exit == (BootFailure(d) != 0) && (exit ==> ret == BootFailure(d))
      ensures noMemory ==> exit == (d.first.code == 0 && d.first.cpin && d.first.simPin) && (exit ==> ret == -ENOMEM)
    {
      sim_status_monitor := OBD2_LIB_FAILURE;
      exit, ret := false, d.first.code;
      if ret == OBD2_LIB_SUCCESS && d.first.cpin {
        if d.first.ready {
          sim_status_monitor := E_GSM_SIM_DETECTED;
        }
        if d.first.absent {
          sim_status_monitor := E_GSM_SIM_NOT_DETECTED;
        }
        if d.first.simPin {
          if noMemory {
            return true, -ENOMEM;
          }
          ret := d.pin.code;
          if ret != OBD2_LIB_SUCCESS {
            return true, ret;
          }
          if d.pin.ready {
            sim_status_monitor := E_GSM_SIM_DETECTED;
          } else {
            ret := d.status.code;
            if ret != OBD2_LIB_SUCCESS {
              return true, ret;
            }
            if d.status.ready {
              sim_status_monitor := E_GSM_SIM_DETECTED;
            }
            if d.status.absent {
              sim_status_monitor := E_GSM_SIM_NOT_DETECTED;
            }
            if d.status.absent || d.status.cme {
              sim_status := E_GSM_SIM_NOT_DETECTED;
            }
          }
        }
      }
    }

    // ----- one dial, one mode switch

    /** Succeeds exactly when the link check that ends it succeeds. */
    method EstablishNwConnection() returns (ret: int)
      requires SimStatusSet() && Answers()
      modifies this
      ensures SimStatusSet() && now >= old(now)
      ensures network_enable_status != 0 ==> ret == E_GSM_NETWORK_MODE_ENABLED && trace == old(trace)
      ensures network_enable_status == 0 ==>
                var first, second := link(old(links)), link(old(links) + 1);
                trace == old(trace)
                         + (if first == 0 then [DialLink(0)] else [DialLink(first), Dialled, DialLink(second)])
                && ret == (if first == 0 || second == 0 then 0 else sim_status)
                && (ret != 0 ==> now >= old(now) + WAIT_PPP_UP
                                 && QuerySets(old(modems), old(queries), old(sim_status), sim_status))
                && links == old(links) + (if first == 0 then 1 else 2)
                && (first != 0 ==> now == old(now) + WAIT_PPP_UP + delay(old(sleeps)))
    {
      if network_enable_status != 0 {
        return E_GSM_NETWORK_MODE_ENABLED;
      }
      ret := CheckLink();
      trace := trace + [DialLink(ret)];
      if ret == OBD2_LIB_SUCCESS {
        return;
      }
      ghost var first := ret;
      trace := trace + [Dialled];
      Sleep(WAIT_PPP_UP);
      ret := CheckLink();
      trace := trace + [DialLink(ret)];
      assert trace == old(trace) + [DialLink(first), Dialled, DialLink(ret)];
      if ret == OBD2_LIB_SUCCESS {
        return;
      }
      var sim_ret, sim_info := GetGsmSimStatus();
      ret := sim_info;
    }

    /** Asks for a mode, if there is a SIM. */
    method SetGsmNetworkMode(mode: int) returns (ret: int)
      requires SimStatusSet() && Answers()
      modifies this
      ensures SimStatusSet() && now == old(now) && links == old(links)
      ensures network_enable_status == 0 ==>
                modems == old(modems) + 1 && QuerySets(old(modems), old(queries), old(sim_status), sim_status)
      ensures network_enable_status != 0 ==> ret == E_GSM_NETWORK_MODE_ENABLED && trace == old(trace)
      ensures network_enable_status == 0 ==> trace == old(trace) + [ModeSet(mode, ret)]
      ensures network_enable_status == 0 ==>
                ret == if sim_status != E_GSM_SIM_DETECTED then sim_status
                       else if 1 <= mode <= 4 then command(old(commands)) else INVALID_VALUE
    {
      if network_enable_status != 0 {
        return E_GSM_NETWORK_MODE_ENABLED;
      }
      var sim_ret, sim_info := GetGsmSimStatus();
      if sim_info != E_GSM_SIM_DETECTED {
        ret := sim_status;
      } else if 1 <= mode <= 4 {
        ret := AtCommand();
      } else {
        ret := INVALID_VALUE;
      }
      trace := trace + [ModeSet(mode, ret)];
    }

    // ----- the connection

    /** The SIM is there at every query, and the modem accepts no mode. */
    ghost predicate Stuck() {
      (forall k: nat :: modem(k) == 0 && command(k) != 0) && forall q: nat, k: nat :: reply(q, k) == Ready
    }

    /** Besides, the first dial fails and lasts the whole window. */
    ghost predicate StuckAt(l: nat, s: nat) {
      Stuck() && link(l) != 0 && link(l + 1) != 0 && delay(s) >= WINDOW
    }

    /** The set_mode part: kills pppd and sets the next mode down until one is accepted; false
        when there is none left. */
    method SwitchMode(mode: int) returns (ok: bool, network_mode: int, ret: int)
      requires SimStatusSet() && Answers() && network_enable_status == 0
      requires 0 <= mode <= 4 && Modes(trace) == Down(4, mode)
      modifies this
      ensures SimStatusSet() && 0 <= network_mode <= mode && Modes(trace) == Down(4, network_mode)
      ensures Dials(trace) == Dials(old(trace))
      ensures now == old(now) && Accepted(trace) == Accepted(old(trace)) + if ok then 1 else 0
      ensures if ok then network_mode < mode && ret == 0
              else network_mode == 0 && ret == -1 && trace != [] && trace[|trace| - 1].SwitchLink?
      ensures Stuck() ==> !ok && trace[|trace| - 1] == SwitchLink(link(old(links) + mode))
    {
      network_mode := mode;
      while true
        invariant SimStatusSet() && 0 <= network_mode <= mode && Modes(trace) == Down(4, network_mode)
        invariant Dials(trace) == Dials(old(trace)) && Accepted(trace) == Accepted(old(trace)) && now == old(now)
        invariant links == old(links) + (mode - network_mode)
        decreases network_mode
      {
        ret := CheckLink();
        TraceSnoc(trace, SwitchLink(ret));
        trace := trace + [SwitchLink(ret)];
        if network_mode <= 0 {
          return false, network_mode, -1;
        }
        ghost var before := trace;
        ret := SetGsmNetworkMode(network_mode);
        TraceSnoc(before, ModeSet(network_mode, ret));
        network_mode := network_mode - 1;
        if ret == 0 {
          return true, network_mode, ret;
        }
      }
    }

    /** How the connection may end once the SIM was there: up, with the SIM lost after a dial,
        or with every mode tried. */
    ghost predicate Ended(ret: int)
      reads this
    {
      trace != []
      && var last := trace[|trace| - 1];
         || (ret == 0 && last == DialLink(0))
         || (ret == sim_status != E_GSM_SIM_DETECTED && last.DialLink? && last.r != 0)
         || (ret == -1 && last.SwitchLink? && Modes(trace) == [4, 3, 2, 1])
    }

    /** One dial of the loop. */
    method Dial() returns (ret: int)
      requires SimStatusSet() && Answers() && network_enable_status == 0
      modifies this
      ensures SimStatusSet() && Modes(trace) == Modes(old(trace)) && Accepted(trace) == Accepted(old(trace))
      ensures Dials(trace) <= Dials(old(trace)) + 1 && now >= old(now) + if ret == 0 then 0 else WAIT_PPP_UP
      ensures ret == E_GSM_SIM_DETECTED || Ended(ret)
      ensures StuckAt(old(links), old(sleeps)) ==>
                ret == E_GSM_SIM_DETECTED && links == old(links) + 2 && now >= old(now) + WINDOW
    {
      TraceDial(trace, link(links), link(links + 1));
      ret := EstablishNwConnection();
    }

    /** Tries the 60-second window of each mode.  It ends; it returns 0 exactly when the link
        check of its last dial succeeded; it tries the modes 4, 3, 2, 1 in that order, each at
        most once; it dials at most 75 times, 15 in each of five windows; and each mode that
        the modem accepted comes after a full window.  It dials at all exactly when the SIM was
        found at the start, and then gives up only when the SIM is lost or no mode is left. */
    method EstablishConnection() returns (ret: int)
      requires SimStatusSet() && Answers()
      modifies this
      ensures SimStatusSet()
      ensures ret == 0 <==> trace != [] && trace[|trace| - 1] == DialLink(0)
      ensures Modes(trace) <= [4, 3, 2, 1]
      ensures Dials(trace) <= 75 && now - old(now) >= 60 * Accepted(trace)
      ensures network_enable_status != 0 ==> ret == E_GSM_NETWORK_MODE_ENABLED && trace == []
      ensures network_enable_status == 0 && modem(old(modems)) != 0 ==> ret == modem(old(modems)) && trace == []
      ensures network_enable_status == 0 && modem(old(modems)) == 0 ==>
                exists k: nat :: StopsAt(old(queries), k)
                  && match reply(old(queries), k) {
                       case Ready => Ended(ret)
                       case PinReady => Ended(ret)
                       case Absent => trace == [] && ret == sim_status == E_GSM_SIM_NOT_DETECTED
                       case Other => trace == [] && ret == sim_status == E_GSM_SIM_NOT_DETECTED
                       case PinNoMemory => trace == [] && ret == -12 && sim_status == old(sim_status)
                       case PinError(code) => trace == [] && ret == code != 0 && sim_status == old(sim_status)
                       case AtError => false
                       case PinPending => false
                     }
      // and then -1 is returned whatever the last link check said
      ensures network_enable_status == 0 && StuckAt(old(links), old(sleeps)) ==>
                ret == -1 && trace != [] && trace[|trace| - 1] == SwitchLink(link(old(links) + 6))
    {
      trace := [];
      assert Modes(trace) == Down(4, 4);
      if network_enable_status != 0 {
        return E_GSM_NETWORK_MODE_ENABLED;
      }
      var start := now;
      var sim_info;
      ret, sim_info := GetGsmSimStatus();
      if ret != 0 {
        return;
      }
      if sim_info != E_GSM_SIM_DETECTED {
        return sim_info;
      }
      ret := DialInWindows(start);
    }

    /** The loop of establish_connection. */
    method DialInWindows(begin: int) returns (ret: int)
      requires SimStatusSet() && Answers() && network_enable_status == 0 && trace == [] && begin == now
      modifies this
      ensures SimStatusSet() && Ended(ret) && Dials(trace) <= 75 && now - begin >= WINDOW * Accepted(trace)
      ensures exists k :: 0 <= k <= 4 && Modes(trace) == Down(4, k)
      ensures StuckAt(old(links), old(sleeps)) ==>
                ret == -1 && trace[|trace| - 1] == SwitchLink(link(old(links) + 6))
    {
      var start, network_mode := begin, 4;
      ghost var window := 0;    // dials since start
      ghost var first := true;
      while true
        invariant SimStatusSet() && 0 <= network_mode <= 4 && Modes(trace) == Down(4, network_mode)
        invariant start <= now && (window > 0 ==> 4 * window <= now - start < WINDOW)
        invariant Dials(trace) <= 15 * (4 - network_mode) + window
        invariant start - begin >= WINDOW * Accepted(trace)
        invariant if first then links == old(links) && sleeps == old(sleeps) && start == now && network_mode == 4
                  else !StuckAt(old(links), old(sleeps))
        decreases network_mode, if now - start < WINDOW then WINDOW - (now - start) else 0
      {
        ret := Dial();
        if ret == OBD2_LIB_SUCCESS {
          break;
        } else if ret != E_GSM_SIM_DETECTED {
          break;
        }
        window := window + 1;
        Sleep(1);
        first := false;
        if now - start >= WINDOW {
          var ok;
          ok, network_mode, ret := SwitchMode(network_mode);
          if !ok {
            break;
          }
          start := now;
          window := 0;
        }
      }
    }
  }

  /** A run in which establish_connection fails although the last link check, after its last
      dial, succeeds: no mode is accepted, and the link comes up late. */
  method LateLink() returns (gsm: Gsm, ret: int)
    ensures ret == -1 && gsm.trace != [] && gsm.trace[|gsm.trace| - 1] == SwitchLink(0)
  {
    gsm := new Gsm(0, 0, k => if k == 6 then 0 else 1, k => 0, k => 1, (q, k) => Ready, k => 60, k => 0);
    assert forall q: nat :: gsm.Answered(q, gsm.patience(q));
    ret := gsm.EstablishConnection();
  }
}
