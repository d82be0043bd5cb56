/** The request protocol of can_write, can_read and can_deinit: one pending-request flag,
    three cached sockets, and the filters the sockets carry.  The kernel's sockets are a
    table of open descriptors; what system calls return is given by the caller. */
module CanRequest {
  import opened Common
  import opened CanText

  const E_CAN_READ_TIMEOUT := 0x9001_000A
  const E_LIB_MEM_ALLOC_ERROR := 0xF321_0003

  type Bus = b: int | 0 <= b < 3

  datatype CanFilter = CanFilter(can_id: bv32, can_mask: bv32)

  /** What a raw socket receives: Unset is the kernel's default on an unbound socket, Mute the
      empty filter of can_write; User holds the filters set by the application, None where
      their allocation had failed. */
  datatype Filter = Unset | Mute | Obd | User(filters: Option<seq<CanFilter>>)

  /** An open socket, with the number of filter changes before it was set up. */
  datatype Socket = Socket(filter: Filter, generation: nat)

  datatype Event =
    | Transmitted(frame: CanFrame)
    | Refused
    | Received(bus: Bus, filter: Filter, reopened: bool)
    | TimedOut(bus: Bus)

  // ----- the wire lengths of CAN FD

  function Dlc2Len(dlc: nat): nat
    requires dlc < 16
  {
    [0, 1, 2, 3, 4, 5, 6, 7, 8, 12, 16, 20, 24, 32, 48, 64][dlc]
  }

  function Len2Dlc(len: u8): (dlc: nat)
    ensures dlc < 16
  {
    if len <= 8 then len
    else if len <= 12 then 9
    else if len <= 16 then 10
    else if len <= 20 then 11
    else if len <= 24 then 12
    else if len <= 32 then 13
    else if len <= 48 then 14
    else 15
  }

  /** A payload is sent in the shortest frame that holds it. */
  lemma ShortestFrame(len: u8, dlc: nat)
    requires len <= 64 && dlc < 16
    ensures len <= Dlc2Len(Len2Dlc(len)) <= 64
    ensures len <= Dlc2Len(dlc) ==> Dlc2Len(Len2Dlc(len)) <= Dlc2Len(dlc)
  {
  }

  /** The frame as it is written to the socket. */
  function OnWire(p: Parsed): CanFrame {
    if p.mtu > CAN_MTU then p.frame.(len := Dlc2Len(Len2Dlc(p.frame.len))) else p.frame
  }

  lemma IsLength(n: nat) returns (dlc: nat)
    requires n in [0, 1, 2, 3, 4, 5, 6, 7, 8, 12, 16, 20, 24, 32, 48, 64]
    ensures dlc < 16 && n == Dlc2Len(dlc)
  {
    var lengths := [0, 1, 2, 3, 4, 5, 6, 7, 8, 12, 16, 20, 24, 32, 48, 64];
    dlc :| dlc < |lengths| && lengths[dlc] == n;
  }

  lemma LengthIs(dlc: nat)
    requires dlc < 16
    ensures Dlc2Len(dlc) in [0, 1, 2, 3, 4, 5, 6, 7, 8, 12, 16, 20, 24, 32, 48, 64]
  {
  }

  /** Whatever the text, its frame goes out in the shortest CAN FD frame that holds it, or as
      it is. */
  lemma SentFrame(data: string, n: nat)
    requires ParseText(data).Some?
    requires n in [0, 1, 2, 3, 4, 5, 6, 7, 8, 12, 16, 20, 24, 32, 48, 64]
    ensures var p := ParseText(data).value;
            var sent := OnWire(p).len;
            if p.mtu > CAN_MTU then
              && p.frame.len <= sent <= 64 && (p.frame.len <= n ==> sent <= n)
              && sent in [0, 1, 2, 3, 4, 5, 6, 7, 8, 12, 16, 20, 24, 32, 48, 64]
              && OnWire(p) == p.frame.(len := sent)
            else OnWire(p) == p.frame
  {
    var p := ParseText(data).value;
    var dlc := IsLength(n);
    ShortestFrame(p.frame.len, dlc);
    LengthIs(Len2Dlc(p.frame.len));
  }

  // ----- the log

  /** A request is pending: the last frame sent was neither answered nor followed by a refusal. */
  predicate Pending(log: seq<Event>) {
    log != []
    && var last := log[|log| - 1];
       last.Transmitted? || (last.TimedOut? && Pending(log[..|log| - 1]))
  }

  /** A frame is sent only when no request is pending. */
  predicate OneAtATime(log: seq<Event>) {
    forall i | 0 <= i < |log| && log[i].Transmitted? :: !Pending(log[..i])
  }

  lemma {:induction false} PendingSince(log: seq<Event>, i: nat)
    requires i < |log| && log[i].Transmitted?
    requires forall k | i < k < |log| :: !log[k].Received? && !log[k].Refused?
    ensures Pending(log)
    decreases |log|
  {
    if i == |log| - 1 {
    } else {
      var init := log[..|log| - 1];
      assert forall k | 0 <= k < |init| :: init[k] == log[k];
      PendingSince(init, i);
    }
  }

  /** Two frames sent are always separated by a received answer or a refused write. */
  lemma Separated(log: seq<Event>, i: nat, j: nat)
    requires OneAtATime(log) && i < j < |log| && log[i].Transmitted? && log[j].Transmitted?
    ensures exists k | i < k < j :: log[k].Received? || log[k].Refused?
  {
    if forall k | i < k < j :: !log[k].Received? && !log[k].Refused? {
      PendingSince(log[..j], i);
    }
  }

  lemma LogSnoc(log: seq<Event>, e: Event)
    requires OneAtATime(log) && (e.Transmitted? ==> !Pending(log))
    ensures OneAtATime(log + [e])
    ensures Pending(log + [e]) <==> e.Transmitted? || (e.TimedOut? && Pending(log))
  {
    var more := log + [e];
    assert more[..|log|] == log;
    forall i | 0 <= i < |more| && more[i].Transmitted? ensures !Pending(more[..i]) {
      if i < |log| {
        assert more[..i] == log[..i];
      }
    }
  }

  // ----- system calls

  /** What the calls inside one can_write return. */
  datatype WriteEnv = WriteEnv(fd: int, ifindex: nat, mtu: Option<int>, fdMode: bool, bound: bool, written: bool)

  /** What the calls inside one can_read return; frame is None when recvmsg fails. */
  datatype ReadEnv = ReadEnv(fd: int, fdMode: bool, frame: Option<CanFrame>)

  /** An extended identifier is handed over without its flags. */
  function WithoutFlags(f: CanFrame): CanFrame {
    if HasEff(f.id) then f.(id := LowBits(f.id, CAN_EFF_MASK)) else f
  }

  /** can_write gets as far as the request flag: there is a bound socket on an interface that
      takes the frame. */
  predicate Reaches(p: Parsed, env: WriteEnv) {
    && env.fd >= 0 && env.ifindex != 0 && env.bound
    && (p.mtu > CAN_MTU ==> env.mtu == Some(CANFD_MTU) && env.fdMode)
  }

  /** What a socket that can_write leaves open carries: nothing was set up before the interface
      was found to take the frame; after that nothing is received. */
  function LeftFilter(p: Parsed, env: WriteEnv): Filter {
    if env.ifindex == 0 || (p.mtu > CAN_MTU && (env.mtu != Some(CANFD_MTU) || !env.fdMode)) then Unset else Mute
  }

  function FilterEntry(filter: bv32, mask: bv32): CanFilter {
    CanFilter(if filter & 0x0FF0_0000 != 0 then (filter | 0x8000_0000) & 0x9FFF_FFFF else filter,
              0x8000_0000 | 0x4000_0000 | mask)
  }

  lemma MaskBits(mask: bv32, can_mask: bv32)
    requires can_mask == 0x8000_0000 | 0x4000_0000 | mask
    ensures can_mask & 0xC000_0000 == 0xC000_0000 && can_mask & 0x3FFF_FFFF == mask & 0x3FFF_FFFF
  {
  }

  lemma IdBits(filter: bv32, can_id: bv32)
    requires can_id == if filter & 0x0FF0_0000 != 0 then (filter | 0x8000_0000) & 0x9FFF_FFFF else filter
    ensures if filter & 0x0FF0_0000 == 0 then can_id == filter
            else can_id & 0xE000_0000 == 0x8000_0000 && can_id & 0x1FFF_FFFF == filter & 0x1FFF_FFFF
  {
  }

  /** The bits of an entry: the mask asks for the frame format and for data frames, besides the
      application's bits; a filter with any of the bits 20 to 27 is an extended identifier, of
      which the flags are set so, and any other filter is taken as it is. */
  lemma FilterEntryMeans(filter: bv32, mask: bv32, can_id: bv32, can_mask: bv32)
    requires FilterEntry(filter, mask) == CanFilter(can_id, can_mask)
    ensures can_mask & 0xC000_0000 == 0xC000_0000 && can_mask & 0x3FFF_FFFF == mask & 0x3FFF_FFFF
    ensures if filter & 0x0FF0_0000 == 0 then can_id == filter
            else can_id & 0xE000_0000 == 0x8000_0000 && can_id & 0x1FFF_FFFF == filter & 0x1FFF_FFFF
  {
    MaskBits(mask, can_mask);
    IdBits(filter, can_id);
  }

  /** The socket was set up for the user filter, which is the current one if no change came
      after it, or its set-up failed before any filter. */
  predicate UserSocket(s: Socket, rfilter: Option<seq<CanFilter>>, generation: nat) {
    && s.generation <= generation
    && (s.filter == Unset || (s.filter.User? && (s.generation == generation ==> s.filter == User(rfilter))))
  }

  // ----- the descriptor table

  /** What socket() returns: the lowest descriptor that is not in use, or a failure. */
  predicate Granted(used: set<int>, fd: int) {
    fd == -1 || (fd >= 0 && fd !in used && forall k | 0 <= k < fd :: k in used)
  }

  lemma ZeroGranted(used: set<int>, closed: int, fd: int)
    requires Granted(used - {closed}, fd) && fd >= 0
    ensures fd == 0 <==> closed == 0 || 0 !in used
  {
    assert fd > 0 ==> 0 in used - {closed};
  }

  function Nonzero(sread: seq<int>): set<int>
    requires |sread| == 3
  {
    set b: Bus | 0 <= b < 3 && sread[b] != 0 :: sread[b]
  }

  /** Why an open socket has its filter: the user filter is on cached sockets only, and the
      OBD filter on the one that a pending request is being read from, or at descriptor 0. */
  predicate Explained(s: Socket, fd: int, sread: seq<int>, reading: Option<int>)
    requires |sread| == 3
  {
    && (s.filter.User? ==> fd == sread[0] || fd == sread[1] || fd == sread[2])
    && (s.filter == Obd ==> fd == 0 || reading == Some(fd))
  }

  /** The cache and the table.  A cached descriptor above zero is an open socket of its own
      that carries the user filter (or was never set up), the current one unless the filter
      changed since. */
  ghost predicate Accounted(sread: seq<int>, open: map<int, Socket>, used: set<int>,
                            rfilter: Option<seq<CanFilter>>, generation: nat, reading: Option<int>)
  {
    && |sread| == 3 && open.Keys <= used && (forall fd <- open :: fd >= 0)
    && (forall b: Bus :: sread[b] > 0 ==>
          sread[b] in open && (UserSocket(open[sread[b]], rfilter, generation) || reading == Some(sread[b])))
    && (forall a: Bus, b: Bus :: a != b && sread[a] > 0 ==> sread[a] != sread[b])
    && (forall fd <- open :: Explained(open[fd], fd, sread, reading))
  }

  /** A socket that is not cached and has no receive filter of interest. */
  lemma OpensAside(sread: seq<int>, open: map<int, Socket>, used: set<int>,
                   rfilter: Option<seq<CanFilter>>, generation: nat, fd: int, s: Socket)
    requires Accounted(sread, open, used, rfilter, generation, None)
    requires fd >= 0 && fd !in used && (s.filter == Unset || s.filter == Mute)
    ensures Accounted(sread, open[fd := s], used + {fd}, rfilter, generation, None)
    ensures open[fd := s] - {fd} == open && used + {fd} - {fd} == used
  {
  }

  /** Closing a cached socket. */
  lemma ClosesCached(sread: seq<int>, open: map<int, Socket>, used: set<int>,
                     rfilter: Option<seq<CanFilter>>, generation: nat, reading: Option<int>, b: Bus)
    requires Accounted(sread, open, used, rfilter, generation, reading)
    requires sread[b] > 0 && (reading == None || reading == Some(sread[b]))
    ensures Accounted(sread[b := 0], open - {sread[b]}, used - {sread[b]}, rfilter, generation, None)
  {
  }

  /** Closing what is cached for a bus. */
  lemma ClosesForReopening(sread: seq<int>, open: map<int, Socket>, used: set<int>,
                           rfilter: Option<seq<CanFilter>>, generation: nat, b: Bus)
    requires Accounted(sread, open, used, rfilter, generation, None)
    ensures Accounted(sread[b := -1], open - {sread[b]}, used - {sread[b]}, rfilter, generation, None)
  {
  }

  /** Caching a new socket, with the user filter, none at all, or the OBD filter. */
  lemma CachesNew(sread: seq<int>, open: map<int, Socket>, used: set<int>, rfilter: Option<seq<CanFilter>>,
                  generation: nat, b: Bus, fd: int, s: Socket, reading: Option<int>)
    requires Accounted(sread, open, used, rfilter, generation, None) && sread[b] == -1
    requires fd >= 0 && fd !in used && s.generation == generation
    requires s.filter == Unset || s.filter == User(rfilter) || (s.filter == Obd && reading == Some(fd))
    ensures Accounted(sread[b := fd], open[fd := s], used + {fd}, rfilter, generation, reading)
  {
  }

  /** What is cached need not be read. */
  lemma MayBeRead(sread: seq<int>, open: map<int, Socket>, used: set<int>, rfilter: Option<seq<CanFilter>>,
                  generation: nat, reading: Option<int>)
    requires Accounted(sread, open, used, rfilter, generation, None)
    ensures Accounted(sread, open, used, rfilter, generation, reading)
  {
  }

  /** The table after a bus was given a new socket, or none. */
  function Anew(open: map<int, Socket>, closed: int, fd: int, s: Socket): map<int, Socket> {
    if fd < 0 then open - {closed} else (open - {closed})[fd := s]
  }

  lemma OpensAnew(sread: seq<int>, open: map<int, Socket>, used: set<int>, rfilter: Option<seq<CanFilter>>,
                  generation: nat, b: Bus, fd: int, s: Socket, reading: Option<int>)
    requires Accounted(sread, open, used, rfilter, generation, None) && Granted(used - {sread[b]}, fd)
    requires s.generation == generation
    requires s.filter == Unset || s.filter == User(rfilter) || (s.filter == Obd && reading == Some(fd))
    ensures Accounted(sread[b := fd], Anew(open, sread[b], fd, s),
                      if fd < 0 then used - {sread[b]} else used - {sread[b]} + {fd}, rfilter, generation, reading)
  {
    var none, rest, left := sread[b := -1], open - {sread[b]}, used - {sread[b]};
    ClosesForReopening(sread, open, used, rfilter, generation, b);
    if fd < 0 {
      MayBeRead(none, rest, left, rfilter, generation, reading);
    } else {
      CachesNew(none, rest, left, rfilter, generation, b, fd, s, reading);
      assert none[b := fd] == sread[b := fd];
    }
  }

  // ----- the calls

  class CanPort {
    var reqst_flag: int
    var rfilter: Option<seq<CanFilter>>
    var sread: seq<int>               // sread_can0, sread_can1, sread_can2
    var open: map<int, Socket>        // the open CAN sockets
    var used: set<int>                // every open descriptor of the process
    var generation: nat               // calls of set_can_mask_and_filter so far
    ghost var log: seq<Event>

    /** What holds between calls: a socket left open carries the user filter and is cached,
        was never given a filter, is mute, or carries the OBD filter at descriptor 0. */
    ghost predicate Valid()
      reads this
    {
      Accounted(sread, open, used, rfilter, generation, None) && Logged()
    }

    ghost predicate Logged()
      reads this
    {
      (reqst_flag == 0 || reqst_flag == 1) && OneAtATime(log) && (reqst_flag == 1 <==> Pending(log))
    }

    constructor (used: set<int>)
      ensures Valid() && log == [] && open == map[] && this.used == used && sread == [0, 0, 0]
      ensures reqst_flag == 0 && rfilter == Some([])
    {
      reqst_flag, rfilter, sread, open, generation, log := 0, Some([]), [0, 0, 0], map[], 0, [];
      this.used := used;
    }

    /** Descriptor 0 is free, or is freed by can_read when it opens a new socket for the bus. */
    predicate ZeroFree(bus: Bus)
      requires |sread| == 3
      reads this
    {
      sread[bus] == 0 || 0 !in used
    }

    /** Every socket left open carries the user filter. */
    ghost predicate AllUser()
      reads this
    {
      forall fd <- open :: open[fd].filter.User?
    }

    /** So does every one but the one cached for a bus. */
    ghost predicate OthersUser(bus: Bus)
      requires |sread| == 3
      reads this
    {
      forall fd <- open :: fd == sread[bus] || open[fd].filter.User?
    }

    /** can_read leaves a socket without the user filter open: one it opened at descriptor 0,
        which it never closes, with the OBD filter or without any; or, with no request pending,
        one that could not be set up and yet delivered a frame. */
    predicate LeavesOther(bus: Bus, env: ReadEnv)
      requires |sread| == 3
      reads this
    {
      env.fd >= 0
      && if reqst_flag == 1 then ZeroFree(bus)
         else sread[bus] <= 0 && !env.fdMode && (ZeroFree(bus) || env.frame.Some?)
    }

    /** A socket with the OBD filter is open; by Valid it can be at descriptor 0 only. */
    predicate ObdLeftOpen()
      reads this
    {
      0 in open && open[0].filter == Obd
    }

    /** close(): nothing happens for a descriptor that is not open. */
    method Close(fd: int)
      modifies this`open, this`used
      ensures open == old(open) - {fd} && used == old(used) - {fd}
    {
      open := open - {fd};
      used := used - {fd};
    }

    /** The opening lines of can_write and the body of can_deinit. */
    method CloseCached(b: Bus)
      requires Valid()
      modifies this`open, this`used, this`sread
      ensures Valid() && ObdLeftOpen() == old(ObdLeftOpen()) && (old(AllUser()) ==> AllUser())
      ensures if old(sread)[b] > 0 then
                var fd := old(sread)[b];
                sread == old(sread)[b := 0] && open == old(open) - {fd} && used == old(used) - {fd}
              else sread == old(sread) && open == old(open) && used == old(used)
    {
      if sread[b] > 0 {
        ClosesCached(sread, open, used, rfilter, generation, None, b);
        Close(sread[b]);
        sread := sread[b := 0];
      }
    }

    method SetCanMaskAndFilter(mask: seq<bv32>, filter: seq<bv32>, no_of_filter: nat, granted: bool) returns (ret: int)
      requires Valid() && no_of_filter <= |mask| && no_of_filter <= |filter|
      modifies this`rfilter, this`generation
      ensures Valid() && generation == old(generation) + 1
      ensures !granted ==> ret == E_LIB_MEM_ALLOC_ERROR && rfilter == None
      ensures granted ==> ret == 0 && rfilter.Some? && |rfilter.value| == no_of_filter
                             && forall i :: 0 <= i < no_of_filter ==>
                                  rfilter.value[i] == FilterEntry(filter[i], mask[i])
    {
      generation := generation + 1;
      if !granted {
        rfilter := None;
        return E_LIB_MEM_ALLOC_ERROR;
      }
      var entries: seq<CanFilter> := [];
      for i := 0 to no_of_filter
        invariant |entries| == i && forall k :: 0 <= k < i ==> entries[k] == FilterEntry(filter[k], mask[k])
      {
        entries := entries + [FilterEntry(filter[i], mask[i])];
      }
      rfilter := Some(entries);
      return 0;
    }

    /** read_init: opens a socket for reading and gives it the OBD filter while a request is
        pending, the user filter otherwise. */
    method ReadInit(fd: int, fdMode: bool) returns (s: int)
      requires Granted(used, fd)
      modifies this`open, this`used
      ensures s == fd
      ensures if fd < 0 then open == old(open) && used == old(used)
              else open == old(open)[fd := Socket(InitFilter(fdMode), generation)] && used == old(used) + {fd}
    {
      s := fd;
      if s < 0 {
        return;
      }
      open, used := open[s := Socket(Unset, generation)], used + {s};
      if !fdMode {
        return;
      }
      if reqst_flag != 0 {
        open := open[s := Socket(Obd, generation)];
      } else {
        open := open[s := Socket(User(rfilter), generation)];
      }
    }

    function InitFilter(fdMode: bool): Filter
      reads this
    {
      if !fdMode then Unset else if reqst_flag != 0 then Obd else User(rfilter)
    }

    /** can_write; bus is None for a name that is not can0, can1 or can2. */
    method CanWrite(bus: Option<Bus>, data: string, env: WriteEnv) returns (ret: int)
      requires Valid()
      requires Granted(if bus.Some? && sread[bus.value] > 0 then used - {sread[bus.value]} else used, env.fd)
      modifies this
      ensures Valid() && rfilter == old(rfilter) && generation == old(generation)
      ensures ret == 0 <==>
              && ParseText(data).Some? && env.fd >= 0 && env.ifindex != 0 && env.bound && env.written
              && (ParseText(data).value.mtu > 16 ==> env.mtu == Some(72) && env.fdMode)
              && old(reqst_flag) == 0
      ensures var parsed := ParseText(data);
              var reaches := parsed.Some? && Reaches(parsed.value, env);
              && log == (if ret == 0 then old(log) + [Transmitted(OnWire(parsed.value))]
                         else if reaches && old(reqst_flag) == 1 then old(log) + [Refused] else old(log))
              && reqst_flag == if reaches then (if ret == 0 then 1 else 0) else old(reqst_flag)
      ensures ObdLeftOpen() == old(ObdLeftOpen())
      // a frame that went out closes its socket; a refused write leaves it open, mute
      ensures ret == 0 ==> env.fd !in open
      ensures log == old(log) + [Refused] ==> env.fd in open && open[env.fd].filter == Mute
      ensures ret != 0 ==> ret == -1
      ensures sread == if bus.Some? && old(sread)[bus.value] > 0 then old(sread)[bus.value := 0] else old(sread)
      // what is left open: the cached socket of the bus is closed, the new one only on success
      ensures var closed := if bus.Some? && old(sread)[bus.value] > 0 then {old(sread)[bus.value]} else {};
              if ParseText(data).None? || env.fd < 0 || ret == 0 then
                open == old(open) - closed && used == old(used) - closed
              else
                var taken := env.ifindex != 0
                             && (ParseText(data).value.mtu > 16 ==> env.mtu == Some(72) && env.fdMode);
                var filter := if taken then Mute else Unset;
                && open == (old(open) - closed)[env.fd := Socket(filter, generation)]
                && used == old(used) - closed + {env.fd}
      ensures old(AllUser()) ==> (AllUser() <==> ret == 0 || env.fd < 0 || ParseText(data).None?)
    {
      if bus.Some? {
        CloseCached(bus.value);
      }
      ret := WriteText(ParseText(data), env);
    }

    /** can_write once the cached socket is closed, given what the text parses to. */
    method WriteText(parsed: Option<Parsed>, env: WriteEnv) returns (ret: int)
      requires Valid() && Granted(used, env.fd)
      modifies this`open, this`used, this`reqst_flag, this`log
      ensures Valid() && ObdLeftOpen() == old(ObdLeftOpen())
      ensures open == if parsed.None? || env.fd < 0 || ret == 0 then old(open)
                      else old(open)[env.fd := Socket(LeftFilter(parsed.value, env), generation)]
      ensures used == if parsed.None? || env.fd < 0 || ret == 0 then old(used) else old(used) + {env.fd}
      ensures ret == 0 <==>
              parsed.Some? && Reaches(parsed.value, env) && old(reqst_flag) == 0 && env.written
      ensures ret == 0 ==> env.fd !in open
      ensures ret != 0 ==> ret == -1
      ensures log == (if ret == 0 then old(log) + [Transmitted(OnWire(parsed.value))]
                      else if parsed.Some? && Reaches(parsed.value, env) && old(reqst_flag) == 1 then
                        old(log) + [Refused]
                      else old(log))
      ensures reqst_flag == if parsed.Some? && Reaches(parsed.value, env) then (if ret == 0 then 1 else 0)
                            else old(reqst_flag)
      ensures log == old(log) + [Refused] ==> env.fd in open && open[env.fd].filter == Mute
      ensures old(AllUser()) ==> (AllUser() <==> ret == 0 || env.fd < 0 || parsed.None?)
    {
      if parsed.None? {
        return -1;
      }
      ret := WriteFrame(parsed.value, env);
    }

    /** can_write from the socket() call on. */
    method WriteFrame(p: Parsed, env: WriteEnv) returns (ret: int)
      requires Valid() && Granted(used, env.fd)
      modifies this`open, this`used, this`reqst_flag, this`log
      ensures Valid() && ObdLeftOpen() == old(ObdLeftOpen())
      ensures open == if env.fd < 0 || ret == 0 then old(open)
                      else old(open)[env.fd := Socket(LeftFilter(p, env), generation)]
      ensures used == if env.fd < 0 || ret == 0 then old(used) else old(used) + {env.fd}
      ensures ret == 0 <==> Reaches(p, env) && old(reqst_flag) == 0 && env.written
      ensures ret == 0 ==> env.fd !in open
      ensures ret != 0 ==> ret == -1 && (env.fd >= 0 ==> env.fd in open)
      ensures log == (if ret == 0 then old(log) + [Transmitted(OnWire(p))]
                      else if Reaches(p, env) && old(reqst_flag) == 1 then old(log) + [Refused] else old(log))
      ensures reqst_flag == if Reaches(p, env) then (if ret == 0 then 1 else 0) else old(reqst_flag)
      ensures log == old(log) + [Refused] ==> env.fd in open && open[env.fd].filter == Mute
    {
      if env.fd < 0 {
        return -1;
      }
      OpensAside(sread, open, used, rfilter, generation, env.fd, Socket(Unset, generation));
      OpensAside(sread, open, used, rfilter, generation, env.fd, Socket(Mute, generation));
      var ok := Prepare(p, env);
      if !ok {
        return -1;
      }
      ok := Send(p, env);
      if !ok {
        return -1;
      }
      Close(env.fd);
      return 0;
    }

    /** Writes the frame, or refuses it while a request is pending. */
    method Send(p: Parsed, env: WriteEnv) returns (ok: bool)
      requires Logged()
      modifies this`reqst_flag, this`log
      ensures Logged() && ok == (old(reqst_flag) == 0 && env.written)
      ensures log == old(log) + (if ok then [Transmitted(OnWire(p))]
                                 else if old(reqst_flag) == 1 then [Refused] else [])
      ensures reqst_flag == if ok then 1 else 0
    {
      if reqst_flag == 0 {
        if !env.written {
          return false;
        }
        LogSnoc(log, Transmitted(OnWire(p)));
        log := log + [Transmitted(OnWire(p))];
        reqst_flag := 1;
        return true;
      } else {
        LogSnoc(log, Refused);
        log := log + [Refused];
        reqst_flag := 0;
        return false;
      }
    }

    /** Opens the socket of can_write, checks the interface and binds. */
    method Prepare(p: Parsed, env: WriteEnv) returns (ok: bool)
      requires env.fd >= 0
      modifies this`open, this`used
      ensures ok == Reaches(p, env) && used == old(used) + {env.fd}
      ensures open == old(open)[env.fd := Socket(LeftFilter(p, env), generation)]
      ensures ok ==> LeftFilter(p, env) == Mute
    {
      open, used := open[env.fd := Socket(Unset, generation)], used + {env.fd};
      if env.ifindex == 0 {
        return false;
      }
      if p.mtu > CAN_MTU {
        if env.mtu != Some(CANFD_MTU) {
          return false;
        }
        if !env.fdMode {
          return false;
        }
      }
      open := open[env.fd := Socket(Mute, generation)];
      return env.bound;
    }

    /** As Valid, except that the socket about to be read may carry the OBD filter. */
    ghost predicate ReadyToRead(bus: Bus)
      reads this
    {
      && |sread| == 3 && Logged()
      && Accounted(sread, open, used, rfilter, generation, if reqst_flag == 1 then Some(sread[bus]) else None)
    }

    /** Closes what is cached for the bus and opens a new socket in its place. */
    method OpenAnew(bus: Bus, env: ReadEnv)
      requires Valid() && Granted(used - {sread[bus]}, env.fd)
      modifies this`open, this`used, this`sread
      ensures ReadyToRead(bus) && sread == old(sread)[bus := env.fd]
      ensures open == Anew(old(open), old(sread)[bus], env.fd, Socket(InitFilter(env.fdMode), generation))
    {
      OpensAnew(sread, open, used, rfilter, generation, bus, env.fd, Socket(InitFilter(env.fdMode), generation),
                if reqst_flag == 1 then Some(env.fd) else None);
      Close(sread[bus]);
      var s := ReadInit(env.fd, env.fdMode);
      sread := sread[bus := s];
    }

    /** The opening lines of can_read: a socket that is not cached, or any socket while a
        request is pending, is closed and opened anew. */
    method Reopen(bus: Bus, env: ReadEnv) returns (reopened: bool)
      requires Valid() && Granted(used - {sread[bus]}, env.fd)
      modifies this`open, this`used, this`sread
      ensures ReadyToRead(bus) && reopened == (old(sread)[bus] <= 0 || reqst_flag == 1)
      ensures reopened ==> sread == old(sread)[bus := env.fd]
      ensures reopened && env.fd >= 0 ==>
                env.fd in open && open[env.fd] == Socket(InitFilter(env.fdMode), generation)
                && (env.fd == 0 <==> old(ZeroFree(bus)))
      ensures ObdLeftOpen() <==>
                if reqst_flag == 1 && env.fdMode && env.fd >= 0 then old(ZeroFree(bus)) || old(ObdLeftOpen())
                else old(ObdLeftOpen()) && old(sread)[bus] != 0
      ensures var s := Socket(InitFilter(env.fdMode), generation);
              open == if reopened then Anew(old(open), old(sread)[bus], env.fd, s) else old(open)
      ensures !reopened ==> sread == old(sread)
      ensures old(AllUser()) ==> OthersUser(bus)
    {
      reopened := false;
      if sread[bus] <= 0 || reqst_flag == 1 {
        if env.fd >= 0 {
          ZeroGranted(used, sread[bus], env.fd);
        }
        OpenAnew(bus, env);
        reopened := true;
      }
    }

    /** can_read.  The frame arrives through the cached socket, or through one opened here. */
    method CanRead(bus: Bus, env: ReadEnv) returns (ret: int, frame: Option<CanFrame>)
      requires Valid() && Granted(used - {sread[bus]}, env.fd)
      requires env.fd == -1 && (sread[bus] <= 0 || reqst_flag == 1) ==> env.frame.None?
      modifies this
      ensures Valid() && rfilter == old(rfilter) && generation == old(generation)
      ensures env.frame.None? ==> ret == E_CAN_READ_TIMEOUT && frame == None && reqst_flag == old(reqst_flag)
      ensures env.frame.None? ==> log == old(log) + [TimedOut(bus)]
      ensures env.frame.Some? ==>
                var f := env.frame.value;
                frame == Some(if f.id >= 0x8000_0000 then f.(id := f.id % 0x2000_0000) else f)
                && ret == f.len && reqst_flag == 0
      // a pending request is answered through a socket opened here with the OBD filter; otherwise
      // the frame comes through the user filter, of this moment if the socket is new
      ensures env.frame.Some? ==>
                var reopened := old(sread)[bus] <= 0 || old(reqst_flag) == 1;
                var carried := if !env.fdMode then Unset else if old(reqst_flag) == 1 then Obd else User(rfilter);
                log == old(log)
                       + [Received(bus, if reopened then carried else old(open)[old(sread)[bus]].filter, reopened)]
      // answered or not, a pending request leaves the socket it is read from open, with the
      // OBD filter, exactly where descriptor 0 was free; no other call opens such a socket
      ensures ObdLeftOpen() <==>
                if old(reqst_flag) == 1 && env.fdMode && env.fd >= 0 then old(ZeroFree(bus)) || old(ObdLeftOpen())
                else old(ObdLeftOpen()) && old(sread)[bus] != 0
      // what is left open
      ensures var reopened := old(sread)[bus] <= 0 || old(reqst_flag) == 1;
              var cache := if reopened then old(sread)[bus := env.fd] else old(sread);
              var s := Socket(if !env.fdMode then Unset else if old(reqst_flag) == 1 then Obd else User(rfilter),
                              generation);
              var table := if reopened then Anew(old(open), old(sread)[bus], env.fd, s) else old(open);
              if env.frame.None? then
                sread == cache[bus := if cache[bus] > 0 then 0 else cache[bus]]
                && open == if cache[bus] > 0 then table - {cache[bus]} else table
              else if old(reqst_flag) == 1 then
                (forall b: Bus :: sread[b] == if cache[b] == 0 then 0 else -1) && open == table - Nonzero(cache)
              else
                sread == cache && open == table
      ensures old(AllUser()) ==> (AllUser() <==> !old(LeavesOther(bus, env)))
    {
      var reopened := Reopen(bus, env);
      ret, frame := Receive(bus, env, reopened);
    }

    /** can_read from the recvmsg() call on. */
    method Receive(bus: Bus, env: ReadEnv, reopened: bool) returns (ret: int, frame: Option<CanFrame>)
      requires ReadyToRead(bus) && (env.frame.Some? ==> sread[bus] in open)
      modifies this`open, this`used, this`sread, this`log, this`reqst_flag
      ensures Valid() && ObdLeftOpen() == old(ObdLeftOpen())
      ensures env.frame.None? ==> ret == E_CAN_READ_TIMEOUT && frame == None && reqst_flag == old(reqst_flag)
                                  && log == old(log) + [TimedOut(bus)]
      ensures env.frame.Some? ==> frame == Some(WithoutFlags(env.frame.value)) && ret == env.frame.value.len
                                  && reqst_flag == 0
                                  && log == old(log) + [Received(bus, old(open)[old(sread)[bus]].filter, reopened)]
      ensures if env.frame.None? then
                var cached := old(sread)[bus];
                sread == old(sread)[bus := if cached > 0 then 0 else cached]
                && open == if cached > 0 then old(open) - {cached} else old(open)
              else if old(reqst_flag) == 1 then
                (forall b: Bus :: sread[b] == if old(sread)[b] == 0 then 0 else -1)
                && open == old(open) - Nonzero(old(sread))
              else
                sread == old(sread) && open == old(open)
      ensures var fd := old(sread)[bus];
              old(OthersUser(bus)) ==>
                (AllUser() <==> fd !in old(open) || old(open)[fd].filter.User?
                                || (fd > 0 && (env.frame.None? || old(reqst_flag) == 1)))
    {
      if env.frame.None? {
        GiveUp(bus);
        return E_CAN_READ_TIMEOUT, None;
      }
      Accept(bus, reopened);
      frame := Some(WithoutFlags(env.frame.value));
      ret := frame.value.len;
    }

    /** After a failed recvmsg: closes the socket; the request stays pending. */
    method GiveUp(bus: Bus)
      requires ReadyToRead(bus)
      modifies this`open, this`used, this`sread, this`log
      ensures Valid() && log == old(log) + [TimedOut(bus)]
      ensures sread == old(sread)[bus := if old(sread)[bus] > 0 then 0 else old(sread)[bus]]
      ensures open == if old(sread)[bus] > 0 then old(open) - {old(sread)[bus]} else old(open)
    {
      LogSnoc(log, TimedOut(bus));
      log := log + [TimedOut(bus)];
      if sread[bus] > 0 {
        ClosesCached(sread, open, used, rfilter, generation, if reqst_flag == 1 then Some(sread[bus]) else None, bus);
        Close(sread[bus]);
        sread := sread[bus := 0];
      }
    }

    /** After a received frame: an answered request closes every socket but one at 0 and is no
        longer pending. */
    method Accept(bus: Bus, reopened: bool)
      requires ReadyToRead(bus) && sread[bus] in open
      modifies this`open, this`used, this`sread, this`reqst_flag, this`log
      ensures Valid() && reqst_flag == 0 && ObdLeftOpen() == old(ObdLeftOpen())
      ensures log == old(log) + [Received(bus, old(open)[old(sread)[bus]].filter, reopened)]
      ensures if old(reqst_flag) == 1 then forall b: Bus :: sread[b] == if old(sread)[b] == 0 then 0 else -1
              else sread == old(sread)
      ensures open == if old(reqst_flag) == 1 then old(open) - Nonzero(old(sread)) else old(open)
    {
      LogSnoc(log, Received(bus, open[sread[bus]].filter, reopened));
      log := log + [Received(bus, open[sread[bus]].filter, reopened)];
      if reqst_flag == 1 {
        CloseAll();
        reqst_flag := 0;
      }
    }

    /** Closes every cached descriptor but 0. */
    method CloseAll()
      requires |sread| == 3
      modifies this`open, this`used, this`sread
      ensures |sread| == 3 && forall b: Bus :: sread[b] == if old(sread)[b] == 0 then 0 else -1
      ensures open == old(open) - Nonzero(old(sread)) && used == old(used) - Nonzero(old(sread))
    {
      ghost var before := sread;
      for b := 0 to 3
        invariant |sread| == 3
        invariant forall k: Bus :: sread[k] == if k < b && before[k] != 0 then -1 else before[k]
        invariant var closed := set k: Bus | 0 <= k < b && before[k] != 0 :: before[k];
                  open == old(open) - closed && used == old(used) - closed
      {
        if sread[b] != 0 {
          Close(sread[b]);
          sread := sread[b := -1];
        }
      }
    }
  }

  /** The first request of a process: whatever descriptors it has open, and whether the answer
      comes or not, a socket with the OBD filter is left open, since can_read closes 0. */
  method FirstRequest(port: CanPort, bus: Bus, data: string, write: WriteEnv, read: ReadEnv) returns (ret: int)
    requires port.Valid() && port.log == [] && port.sread == [0, 0, 0] && port.open == map[]
    requires ParseText(data).Some? && Reaches(ParseText(data).value, write) && write.written
    requires Granted(port.used, write.fd) && read.fd == 0 && read.fdMode
    modifies port
    ensures port.Valid() && port.ObdLeftOpen()
  {
    ret := port.CanWrite(Some(bus), data, write);
    var frame;
    ret, frame := port.CanRead(bus, read);
  }

  /** The second input: two writes in a row.  The second is refused and leaves its socket open
      without a receive filter, although no socket with the OBD filter is open. */
  method RefusedWrite(port: CanPort, bus: Bus, data: string, first: WriteEnv, second: WriteEnv) returns (ret: int)
    requires port.Valid() && port.log == [] && port.sread == [0, 0, 0] && port.open == map[]
    requires ParseText(data).Some? && Reaches(ParseText(data).value, first) && first.written
    requires Reaches(ParseText(data).value, second)
    requires Granted(port.used, first.fd) && first.fd == second.fd
    modifies port
    ensures port.Valid() && !port.ObdLeftOpen() && !port.AllUser()
    ensures second.fd in port.open && port.open[second.fd].filter == Mute
  {
    ret := port.CanWrite(Some(bus), data, first);
    ret := port.CanWrite(Some(bus), data, second);
  }
}
