/** The RTM_NEWLINK request of do_set_nl_link: attributes appended to a fixed buffer, two
    nested lengths patched in afterwards, and what a standard attribute walk reads back. */
module Netlink {

  import opened Common

  const HEADER_SIZE := 32      // struct nlmsghdr and struct ifinfomsg
  const REQUEST_SIZE := 1056   // struct set_req
  const IFLA_LINKINFO: u16 := 18
  const IFLA_INFO_KIND: u16 := 1
  const IFLA_INFO_DATA: u16 := 2
  const IFLA_CAN_BITTIMING: u16 := 1
  const IFLA_CAN_CTRLMODE: u16 := 5
  const IFLA_CAN_RESTART_MS: u16 := 6
  const IFLA_CAN_RESTART: u16 := 7
  const IFLA_CAN_DATA_BITTIMING: u16 := 9
  const IF_UP := 1
  const IF_DOWN := 2
  const IFF_UP: u32 := 1
  const NLM_F_REQUEST_ACK: u16 := 5
  const RTM_NEWLINK: u16 := 16
  const CAN: seq<u8> := [0x63, 0x61, 0x6E]

  // ----- attributes

  datatype Attr = Attr(rta_type: u16, payload: seq<u8>) {
    /** rta_len has 16 bits. */
    predicate Valid() {
      |payload| <= 0xFFFF - 4
    }
  }

  function Le16(n: u16): (s: seq<u8>)
    ensures |s| == 2
  {
    [n % 256, n / 256]
  }

  function Le32(n: u32): (s: seq<u8>)
    ensures |s| == 4
  {
    [n % 256, n / 0x100 % 256, n / 0x1_0000 % 256, n / 0x100_0000]
  }

  function Zeros(n: nat): (s: seq<u8>)
    ensures |s| == n && forall i :: 0 <= i < n ==> s[i] == 0
  {
    seq(n, _ => 0)
  }

  /** One attribute: length, type, payload, padding. */
  function Encode(a: Attr): (s: seq<u8>)
    requires a.Valid()
    ensures |s| == Align(4 + |a.payload|)
  {
    Le16(4 + |a.payload|) + Le16(a.rta_type) + a.payload + Zeros(Align(4 + |a.payload|) - 4 - |a.payload|)
  }

  predicate AllValid(attrs: seq<Attr>) {
    forall i | 0 <= i < |attrs| :: attrs[i].Valid()
  }

  function EncodeAll(attrs: seq<Attr>): (s: seq<u8>)
    requires AllValid(attrs)
    ensures |s| % 4 == 0
  {
    if attrs == [] then [] else Encode(attrs[0]) + EncodeAll(attrs[1..])
  }

  /** The standard walk: RTA_OK, RTA_DATA and RTA_NEXT.  None when the bytes are not a row of
      attributes. */
  function Walk(b: seq<u8>): Option<seq<Attr>> {
    if b == [] then Some([])
    else if |b| < 4 || !(4 <= RtaLen(b) <= |b|) then None
    else
      var a := Attr(Word(b, 2), b[4..RtaLen(b)]);
      if Align(RtaLen(b)) >= |b| then Some([a])
      else Prepend(a, Walk(b[Align(RtaLen(b))..]))
  }

  function Prepend(a: Attr, rest: Option<seq<Attr>>): Option<seq<Attr>> {
    if rest.None? then None else Some([a] + rest.value)
  }

  /** The 16-bit number at an offset. */
  function Word(b: seq<u8>, at: nat): u16
    requires at + 2 <= |b|
  {
    b[at] as int + 256 * (b[at + 1] as int)
  }

  function RtaLen(b: seq<u8>): u16
    requires |b| >= 4
  {
    Word(b, 0)
  }

  lemma EncodeHeader(a: Attr, rest: seq<u8>)
    requires a.Valid()
    ensures var b := Encode(a) + rest;
            RtaLen(b) == 4 + |a.payload| && Word(b, 2) == a.rta_type
            && b[4..4 + |a.payload|] == a.payload && b[Align(4 + |a.payload|)..] == rest
  {
    var b, n := Encode(a) + rest, |a.payload|;
    assert b[0] == (4 + n) % 256 && b[1] == (4 + n) / 256;
    assert b[2] == a.rta_type % 256 && b[3] == a.rta_type / 256;
    assert b[4..4 + n] == a.payload;
  }

  lemma WalkFirst(a: Attr, rest: seq<u8>)
    requires a.Valid()
    ensures Walk(Encode(a) + rest) == Prepend(a, Walk(rest))
  {
    EncodeHeader(a, rest);
    var b := Encode(a) + rest;
    var n := RtaLen(b);
    assert |b| == Align(n) + |rest| && n <= |b|;
    assert Attr(Word(b, 2), b[4..n]) == a;
    if rest == [] {
      assert [a] + [] == [a];
    } else {
      assert Walk(b) == Prepend(a, Walk(b[Align(n)..]));
    }
  }

  lemma WalkMore(first: Attr, rest: seq<Attr>)
    requires first.Valid() && AllValid(rest) && Walk(EncodeAll(rest)) == Some(rest)
    ensures Walk(Encode(first) + EncodeAll(rest)) == Some([first] + rest)
  {
    WalkFirst(first, EncodeAll(rest));
  }

  /** Walking a row of encoded attributes reads back exactly those attributes, in order. */
  lemma {:induction false} WalkEncodeAll(attrs: seq<Attr>)
    requires AllValid(attrs)
    ensures Walk(EncodeAll(attrs)) == Some(attrs)
  {
    if attrs == [] {
    } else {
      WalkEncodeAll(attrs[1..]);
      WalkMore(attrs[0], attrs[1..]);
      assert [attrs[0]] + attrs[1..] == attrs;
    }
  }

  // ----- the request

  /** struct req_info; the structures are given by their bytes. */
  datatype ReqInfo = ReqInfo(restart: u8, disable_autorestart: u8, restart_ms: u32,
                             ctrlmode: Option<CtrlMode>, bittiming: Option<BitTiming>, dbittiming: Option<BitTiming>)
  type CtrlMode = s: seq<u8> | |s| == 8 witness Zeros(8)
  type BitTiming = s: seq<u8> | |s| == 32 witness Zeros(32)

  function When(cond: bool, a: Attr): seq<Attr> {
    if cond then [a] else []
  }

  function Optional(rta_type: u16, payload: Option<seq<u8>>): seq<Attr> {
    if payload.Some? then [Attr(rta_type, payload.value)] else []
  }

  function Restart(info: ReqInfo): seq<Attr> {
    When(info.restart_ms > 0 || info.disable_autorestart != 0, Attr(IFLA_CAN_RESTART_MS, Le32(info.restart_ms)))
    + When(info.restart != 0, Attr(IFLA_CAN_RESTART, Le32(1)))
  }

  /** The attributes the caller asked for, in the order of the request. */
  function Requested(info: ReqInfo): seq<Attr> {
    Restart(info) + Optional(IFLA_CAN_BITTIMING, info.bittiming)
    + Optional(IFLA_CAN_DATA_BITTIMING, info.dbittiming)
    + Optional(IFLA_CAN_CTRLMODE, info.ctrlmode)
  }

  lemma SplitSize(a: seq<Attr>, b: seq<Attr>)
    requires AllValid(a) && AllValid(b)
    ensures AllValid(a + b) && |EncodeAll(a + b)| == |EncodeAll(a)| + |EncodeAll(b)|
  {
    EncodeAllAppend(a, b);
  }

  lemma OneSize(attrs: seq<Attr>, n: nat)
    requires |attrs| <= 1 && (attrs != [] ==> |attrs[0].payload| == n) && n % 4 == 0 && n <= 32
    ensures AllValid(attrs) && |EncodeAll(attrs)| == if attrs == [] then 0 else n + 4
  {
    EncodeAtMostOne(attrs);
  }

  lemma RequestedFits(info: ReqInfo)
    ensures Fits(Requested(info))
  {
    var r1 := When(info.restart_ms > 0 || info.disable_autorestart != 0,
        Attr(IFLA_CAN_RESTART_MS, Le32(info.restart_ms)));
    var r2 := When(info.restart != 0, Attr(IFLA_CAN_RESTART, Le32(1)));
    var r3 := Optional(IFLA_CAN_BITTIMING, info.bittiming);
    var r4 := Optional(IFLA_CAN_DATA_BITTIMING, info.dbittiming);
    var r5 := Optional(IFLA_CAN_CTRLMODE, info.ctrlmode);
    OneSize(r1, 4);
    OneSize(r2, 4);
    OneSize(r3, 32);
    OneSize(r4, 32);
    OneSize(r5, 8);
    SplitSize(r1, r2);
    SplitSize(r1 + r2, r3);
    SplitSize(r1 + r2 + r3, r4);
    SplitSize(r1 + r2 + r3 + r4, r5);
  }

  lemma EncodeAtMostOne(attrs: seq<Attr>)
    requires AllValid(attrs) && |attrs| <= 1
    ensures EncodeAll(attrs) == if attrs == [] then [] else Encode(attrs[0])
  {
    if attrs != [] {
      assert EncodeAll(attrs[1..]) == [];
    }
  }

  lemma {:induction false} EncodeAllAppend(a: seq<Attr>, b: seq<Attr>)
    requires AllValid(a) && AllValid(b)
    ensures AllValid(a + b) && EncodeAll(a + b) == EncodeAll(a) + EncodeAll(b)
  {
    if a == [] {
      assert a + b == b;
    } else {
      EncodeAllAppend(a[1..], b);
      assert (a + b)[0] == a[0] && (a + b)[1..] == a[1..] + b;
      assert Encode(a[0]) + (EncodeAll(a[1..]) + EncodeAll(b)) == Encode(a[0]) + EncodeAll(a[1..]) + EncodeAll(b);
    }
  }

  /** A list of CAN attributes that fits the request. */
  predicate Fits(attrs: seq<Attr>) {
    AllValid(attrs) && |EncodeAll(attrs)| <= 100
  }

  /** The attributes inside LINKINFO: KIND "can" and DATA holding the CAN attributes. */
  function Nested(attrs: seq<Attr>): (linkinfo: seq<Attr>)
    requires Fits(attrs)
    ensures AllValid(linkinfo)
  {
    [Attr(IFLA_INFO_KIND, CAN), Attr(IFLA_INFO_DATA, EncodeAll(attrs))]
  }

  lemma EncodeTwo(a: Attr, b: Attr)
    requires a.Valid() && b.Valid()
    ensures AllValid([a, b]) && EncodeAll([a, b]) == Encode(a) + Encode(b)
  {
    assert [a, b][1..] == [b];
    EncodeAtMostOne([b]);
  }

  lemma NestedBytes(attrs: seq<Attr>)
    requires Fits(attrs)
    ensures EncodeAll(Nested(attrs)) == Encode(Attr(IFLA_INFO_KIND, CAN))
            + Encode(Attr(IFLA_INFO_DATA, EncodeAll(attrs)))
    ensures |EncodeAll(Nested(attrs))| == 12 + |EncodeAll(attrs)|
  {
    EncodeTwo(Attr(IFLA_INFO_KIND, CAN), Attr(IFLA_INFO_DATA, EncodeAll(attrs)));
  }

  /** The one attribute of the message. */
  function LinkInfo(attrs: seq<Attr>): (a: Attr)
    requires Fits(attrs)
    ensures a.Valid()
  {
    NestedBytes(attrs);
    Attr(IFLA_LINKINFO, EncodeAll(Nested(attrs)))
  }

  lemma LinkInfoBytes(attrs: seq<Attr>)
    requires Fits(attrs)
    ensures var whole := Attr(IFLA_LINKINFO, Encode(Attr(IFLA_INFO_KIND, CAN))
            + Encode(Attr(IFLA_INFO_DATA, EncodeAll(attrs))));
            LinkInfo(attrs) == whole && |Encode(whole)| == 16 + |EncodeAll(attrs)| <= 116
  {
    NestedBytes(attrs);
  }

  /** Three walks, each of the payload found by the one before, recover the attributes. */
  lemma LinkInfoDecodes(attrs: seq<Attr>)
    requires Fits(attrs)
    ensures var outer := Walk(Encode(LinkInfo(attrs)));
            outer.Some? && |outer.value| == 1 && outer.value[0].rta_type == IFLA_LINKINFO
            && var inner := Walk(outer.value[0].payload);
               inner.Some? && |inner.value| == 2
               && inner.value[0] == Attr(IFLA_INFO_KIND, CAN)
               && inner.value[1].rta_type == IFLA_INFO_DATA
               && Walk(inner.value[1].payload) == Some(attrs)
  {
    var link := LinkInfo(attrs);
    EncodeAtMostOne([link]);
    WalkEncodeAll([link]);
    WalkEncodeAll(Nested(attrs));
    WalkEncodeAll(attrs);
  }

  // ----- building it in place

  function Overwrite(s: seq<u8>, at: nat, part: seq<u8>): (r: seq<u8>)
    requires at + |part| <= |s|
    ensures |r| == |s|
  {
    s[..at] + part + s[at + |part|..]
  }

  /** The header of an empty attribute, with the length of what follows it stored over its own. */
  lemma Patched(before: seq<u8>, rta_type: u16, inner: seq<u8>)
    requires |inner| <= 0xFFFF - 4 && |inner| % 4 == 0
    ensures var was, n := before + (Encode(Attr(rta_type, [])) + inner), 4 + |inner|;
            |was| >= |before| + 4
            && Overwrite(was, |before|, Le16(n)) == before + Encode(Attr(rta_type, inner))
  {
    assert Encode(Attr(rta_type, [])) == Le16(4) + Le16(rta_type);
    assert Encode(Attr(rta_type, inner)) == Le16(4 + |inner|) + Le16(rta_type) + inner;
  }

  lemma EncodeParts(m: seq<u8>, rta: nat, a: Attr)
    requires a.Valid() && rta + Align(4 + |a.payload|) <= |m|
    requires m[rta..rta + 4] == Le16(4 + |a.payload|) + Le16(a.rta_type)
    requires m[rta + 4..rta + 4 + |a.payload|] == a.payload
    requires forall k :: rta + 4 + |a.payload| <= k < rta + Align(4 + |a.payload|) ==> m[k] == 0
    ensures m[rta..rta + Align(4 + |a.payload|)] == Encode(a)
  {
    var mid, to := rta + 4 + |a.payload|, rta + Align(4 + |a.payload|);
    assert m[mid..to] == Zeros(to - mid);
    assert m[rta..to] == m[rta..rta + 4] + m[rta + 4..mid] + m[mid..to];
  }

  /** Bytes written behind head + tail and nothing before them. */
  lemma Appended(was: seq<u8>, now: seq<u8>, from: nat, rta: nat, to: nat, head: seq<u8>, tail: seq<u8>, enc: seq<u8>)
    requires from <= rta <= to <= |now| == |was|
    requires was[from..rta] == head + tail && now[rta..to] == enc
    requires now[..rta] == was[..rta]
    ensures now[from..to] == head + (tail + enc)
  {
    assert now[from..rta] == now[..rta][from..] == was[..rta][from..] == was[from..rta];
    assert now[from..to] == now[from..rta] + now[rta..to];
  }

  class SetReq {
    var nlmsg_len: nat
    var nlmsg_type: u16
    var nlmsg_flags: u16
    var ifi_index: nat
    var ifi_flags: u32
    var ifi_change: u32
    const mem: array<u8>

    /** memset(&req, 0, sizeof(req)). */
    constructor ()
      ensures fresh(mem) && Holds([], []) && nlmsg_type == nlmsg_flags == 0
      ensures ifi_index == 0 && ifi_flags == ifi_change == 0
    {
      nlmsg_len, nlmsg_type, nlmsg_flags := HEADER_SIZE, 0, 0;
      ifi_index, ifi_flags, ifi_change := 0, 0, 0;
      mem := new u8[REQUEST_SIZE](_ => 0);
    }

    /** The attributes appended so far are head + tail, and nothing is written behind them. */
    ghost predicate Holds(head: seq<u8>, tail: seq<u8>)
      reads this, mem
    {
      && mem.Length == REQUEST_SIZE && |head| % 4 == 0 && |tail| % 4 == 0
      && nlmsg_len == HEADER_SIZE + |head| + |tail| <= REQUEST_SIZE
      && mem[HEADER_SIZE..nlmsg_len] == head + tail
      && forall k :: nlmsg_len <= k < REQUEST_SIZE ==> mem[k] == 0
    }

    /** rta_len and rta_type. */
    method PutHeader(rta: nat, len: u16, rta_type: u16)
      requires rta + 4 <= mem.Length
      modifies mem
      ensures mem[rta..rta + 4] == Le16(len) + Le16(rta_type)
      ensures forall k :: 0 <= k < mem.Length && !(rta <= k < rta + 4) ==> mem[k] == old(mem[k])
    {
      mem[rta] := len % 256;
      mem[rta + 1] := len / 256;
      mem[rta + 2] := rta_type % 256;
      mem[rta + 3] := rta_type / 256;
    }

    /** Writes one attribute at an offset of zeroed bytes. */
    method PutAttr(rta: nat, a: Attr)
      requires a.Valid() && rta + Align(4 + |a.payload|) <= mem.Length
      requires forall k :: rta <= k < mem.Length ==> mem[k] == 0
      modifies mem
      ensures mem[..rta] == old(mem[..rta]) && mem[rta..rta + Align(4 + |a.payload|)] == Encode(a)
      ensures forall k :: rta + Align(4 + |a.payload|) <= k < mem.Length ==> mem[k] == 0
    {
      var len := 4 + |a.payload|;
      PutHeader(rta, len, a.rta_type);
      ghost var header := mem[rta..rta + 4];
      forall k | 0 <= k < |a.payload| {
        mem[rta + 4 + k] := a.payload[k];
      }
      assert mem[rta..rta + 4] == header;
      assert mem[rta + 4..rta + len] == a.payload;
      EncodeParts(mem[..], rta, a);
    }

    /** addattr_l: on overflow it only prints, so the room is the caller's business. */
    method AddattrL(a: Attr, ghost head: seq<u8>, ghost tail: seq<u8>)
      requires a.Valid() && Holds(head, tail) && nlmsg_len + Align(4 + |a.payload|) <= REQUEST_SIZE
      modifies this`nlmsg_len, mem
      ensures Holds(head, tail + Encode(a)) && nlmsg_len == old(nlmsg_len) + Align(4 + |a.payload|)
    {
      ghost var was, enc := mem[..], Encode(a);
      assert was[HEADER_SIZE..nlmsg_len] == mem[HEADER_SIZE..nlmsg_len] == head + tail;
      var rta := Align(nlmsg_len);
      PutAttr(rta, a);
      ghost var now := mem[..];
      nlmsg_len := rta + Align(4 + |a.payload|);
      assert now[..rta] == mem[..rta] == was[..rta] && now[rta..nlmsg_len] == mem[rta..nlmsg_len];
      Appended(was, now, HEADER_SIZE, rta, nlmsg_len, head, tail, enc);
      assert mem[HEADER_SIZE..nlmsg_len] == now[HEADER_SIZE..nlmsg_len];
    }

    /** addattr32: refuses when the message would pass maxlen. */
    method Addattr32(maxlen: nat, rta_type: u16, data: u32, ghost head: seq<u8>, ghost tail: seq<u8>)
      returns (ret: int)
      requires Holds(head, tail) && maxlen <= REQUEST_SIZE
      modifies this`nlmsg_len, mem
      ensures ret == if old(nlmsg_len) + 8 > maxlen then -1 else 0
      ensures ret == 0 ==> Holds(head, tail + Encode(Attr(rta_type, Le32(data)))) && nlmsg_len == old(nlmsg_len) + 8
      ensures ret != 0 ==> Holds(head, tail) && nlmsg_len == old(nlmsg_len)
    {
      if Align(nlmsg_len) + 8 > maxlen {
        return -1;
      }
      AddattrL(Attr(rta_type, Le32(data)), head, tail);
      return 0;
    }

    /** rta->rta_len = NLMSG_TAIL - rta, for the attribute at offset at. */
    method PatchLength(at: nat, ghost before: seq<u8>, ghost a: Attr, ghost inner: seq<u8>)
      requires a == Attr(a.rta_type, []) && Holds(before, Encode(a) + inner)
      requires at == HEADER_SIZE + |before|
      modifies mem
      ensures Holds(before, Encode(Attr(a.rta_type, inner)))
    {
      ghost var was := mem[HEADER_SIZE..nlmsg_len];
      assert was == before + (Encode(a) + inner);
      StoreLength(at, nlmsg_len - at);
      Patched(before, a.rta_type, inner);
    }

    /** Stores rta_len of the attribute at an offset. */
    method StoreLength(at: nat, len: u16)
      requires HEADER_SIZE <= at && at + 2 <= nlmsg_len <= mem.Length
      modifies mem
      ensures mem[HEADER_SIZE..nlmsg_len] == Overwrite(old(mem[HEADER_SIZE..nlmsg_len]), at - HEADER_SIZE, Le16(len))
      ensures forall k :: nlmsg_len <= k < mem.Length ==> mem[k] == old(mem[k])
    {
      mem[at] := len % 256;
      mem[at + 1] := len / 256;
    }

    /** One attribute for an optional structure that is present. */
    method AddOptional(rta_type: u16, payload: Option<seq<u8>>, ghost head: seq<u8>, ghost tail: seq<u8>,
        ghost done: seq<Attr>)
      requires payload.Some? ==> |payload.value| <= 32
      requires AllValid(done) && Holds(head, tail + EncodeAll(done)) && nlmsg_len + 36 <= REQUEST_SIZE
      modifies this`nlmsg_len, mem
      ensures AllValid(done + Optional(rta_type, payload))
      ensures Holds(head, tail + EncodeAll(done + Optional(rta_type, payload)))
      ensures nlmsg_len <= old(nlmsg_len) + 36
    {
      OneMoreAttr(tail, done, Optional(rta_type, payload));
      if payload.Some? {
        AddattrL(Attr(rta_type, payload.value), head, tail + EncodeAll(done));
      }
    }

    /** One 32-bit attribute if the condition holds. */
    method AddWord(cond: bool, rta_type: u16, data: u32, ghost head: seq<u8>, ghost tail: seq<u8>,
        ghost done: seq<Attr>)
      requires AllValid(done) && Holds(head, tail + EncodeAll(done)) && nlmsg_len + 8 <= 1024
      modifies this`nlmsg_len, mem
      ensures AllValid(done + When(cond, Attr(rta_type, Le32(data))))
      ensures Holds(head, tail + EncodeAll(done + When(cond, Attr(rta_type, Le32(data)))))
      ensures nlmsg_len <= old(nlmsg_len) + 8
    {
      OneMoreAttr(tail, done, When(cond, Attr(rta_type, Le32(data))));
      if cond {
        var ret := Addattr32(1024, rta_type, data, head, tail + EncodeAll(done));
      }
    }

    /** The restart attributes. */
    method AddRestart(info: ReqInfo, ghost head: seq<u8>, ghost tail: seq<u8>)
      requires Holds(head, tail) && nlmsg_len <= 512
      modifies this`nlmsg_len, mem
      ensures AllValid(Restart(info)) && Holds(head, tail + EncodeAll(Restart(info)))
      ensures nlmsg_len <= old(nlmsg_len) + 16
    {
      var ms := info.restart_ms > 0 || info.disable_autorestart != 0;
      ghost var r1 := When(ms, Attr(IFLA_CAN_RESTART_MS, Le32(info.restart_ms)));
      assert tail + EncodeAll([]) == tail && [] + r1 == r1;
      AddWord(ms, IFLA_CAN_RESTART_MS, info.restart_ms, head, tail, []);
      AddWord(info.restart != 0, IFLA_CAN_RESTART, 1, head, tail, r1);
    }

    /** The data section: every requested attribute, in order. */
    method AddRequested(info: ReqInfo, ghost head: seq<u8>, ghost tail: seq<u8>)
      requires Holds(head, tail) && nlmsg_len <= 512
      modifies this`nlmsg_len, mem
      ensures AllValid(Requested(info)) && Holds(head, tail + EncodeAll(Requested(info)))
    {
      ghost var r2 := Restart(info);
      ghost var r3 := r2 + Optional(IFLA_CAN_BITTIMING, info.bittiming);
      ghost var r4 := r3 + Optional(IFLA_CAN_DATA_BITTIMING, info.dbittiming);
      AddRestart(info, head, tail);
      AddOptional(IFLA_CAN_BITTIMING, info.bittiming, head, tail, r2);
      AddOptional(IFLA_CAN_DATA_BITTIMING, info.dbittiming, head, tail, r3);
      AddOptional(IFLA_CAN_CTRLMODE, info.ctrlmode, head, tail, r4);
    }

    /** The headers of the linkinfo and data sections, with the kind between them. */
    method OpenLinkInfo(ghost link: seq<u8>, ghost kind: seq<u8>, ghost data: seq<u8>) returns (data_at: nat)
      requires Holds([], [])
      requires link == Encode(Attr(IFLA_LINKINFO, [])) && kind == Encode(Attr(IFLA_INFO_KIND, CAN))
      requires data == Encode(Attr(IFLA_INFO_DATA, []))
      modifies this`nlmsg_len, mem
      ensures Holds(link + kind, data) && nlmsg_len == HEADER_SIZE + 16 && data_at == HEADER_SIZE + 12
    {
      AddattrL(Attr(IFLA_LINKINFO, []), [], []);
      Regroup([], [] + link, link, []);
      AddattrL(Attr(IFLA_INFO_KIND, CAN), link, []);
      Regroup(link, [] + kind, link + kind, []);
      data_at := Align(nlmsg_len);
      AddattrL(Attr(IFLA_INFO_DATA, []), link + kind, []);
      assert [] + data == data;
    }

    /** Marks the end of the data section, then of the linkinfo section. */
    method CloseLinkInfo(linkinfo: nat, data_at: nat, ghost kind: seq<u8>, ghost inner: seq<u8>)
      requires kind == Encode(Attr(IFLA_INFO_KIND, CAN)) && |inner| <= 100
      requires Holds(Encode(Attr(IFLA_LINKINFO, [])) + kind, Encode(Attr(IFLA_INFO_DATA, [])) + inner)
      requires linkinfo == HEADER_SIZE && data_at == HEADER_SIZE + 12
      modifies mem
      ensures Holds([], Encode(Attr(IFLA_LINKINFO, kind + Encode(Attr(IFLA_INFO_DATA, inner)))))
      ensures nlmsg_len % 4 == 0 && nlmsg_len <= 148
    {
      ghost var link, whole := Encode(Attr(IFLA_LINKINFO, [])), Encode(Attr(IFLA_INFO_DATA, inner));
      PatchLength(data_at, link + kind, Attr(IFLA_INFO_DATA, []), inner);
      ThreeParts(link, kind, whole);
      Regroup(link + kind, whole, [], link + (kind + whole));
      PatchLength(linkinfo, [], Attr(IFLA_LINKINFO, []), kind + whole);
    }

    /** The same, in terms of the attributes appended to the data section. */
    method CloseSections(linkinfo: nat, data_at: nat, ghost kind: seq<u8>, ghost attrs: seq<Attr>)
      requires kind == Encode(Attr(IFLA_INFO_KIND, CAN)) && Fits(attrs)
      requires Holds(Encode(Attr(IFLA_LINKINFO, [])) + kind, Encode(Attr(IFLA_INFO_DATA, [])) + EncodeAll(attrs))
      requires linkinfo == HEADER_SIZE && data_at == HEADER_SIZE + 12
      modifies mem
      ensures Holds([], Encode(LinkInfo(attrs))) && nlmsg_len % 4 == 0 && nlmsg_len <= 148
    {
      ghost var inner := EncodeAll(attrs);
      LinkInfoBytes(attrs);
      CloseLinkInfo(linkinfo, data_at, kind, inner);
    }

    /** The linkinfo section. */
    method AddLinkInfo(info: ReqInfo)
      requires Holds([], [])
      modifies this`nlmsg_len, mem
      ensures Fits(Requested(info)) && Holds([], Encode(LinkInfo(Requested(info))))
      ensures nlmsg_len % 4 == 0 && nlmsg_len <= 148
    {
      ghost var link, kind, data := Encode(Attr(IFLA_LINKINFO, [])), Encode(Attr(IFLA_INFO_KIND, CAN)),
          Encode(Attr(IFLA_INFO_DATA, []));
      RequestedFits(info);
      var linkinfo := Align(nlmsg_len);
      var data_at := OpenLinkInfo(link, kind, data);
      AddRequested(info, link + kind, data);
      CloseSections(linkinfo, data_at, kind, Requested(info));
    }

    /** Where the appended bytes are split makes no difference. */
    lemma Regroup(head: seq<u8>, tail: seq<u8>, head': seq<u8>, tail': seq<u8>)
      requires Holds(head, tail) && head + tail == head' + tail' && |head'| % 4 == |tail'| % 4 == 0
      ensures Holds(head', tail')
    {
      assert |head + tail| == |head' + tail'|;
    }

    /** Asks for the interface to go up or down, or neither; false for any other state. */
    method SetIfState(if_state: u8) returns (ok: bool)
      requires ifi_flags == ifi_change == 0
      modifies this`ifi_flags, this`ifi_change
      ensures ok == (if_state <= IF_DOWN)
      ensures ok ==>
                ifi_change == (if if_state == 0 then 0 else IFF_UP)
                && ifi_flags == if if_state == IF_UP then IFF_UP else 0
    {
      if if_state != 0 {
        if if_state == IF_DOWN {
          ifi_change := IFF_UP;
          ifi_flags := 0;
        } else if if_state == IF_UP {
          ifi_change := IFF_UP;
          ifi_flags := IFF_UP;
        } else {
          return false;
        }
      }
      return true;
    }

    /** do_set_nl_link up to the send: false for an unknown interface or state. */
    method Build(if_state: u8, ifindex: nat, info: Option<ReqInfo>) returns (ok: bool)
      requires Holds([], []) && ifi_flags == ifi_change == 0
      modifies this, mem
      ensures ok == (ifindex != 0 && if_state <= 2)
      // RTM_NEWLINK, NLM_F_REQUEST | NLM_F_ACK, and IFF_UP changed and set as asked for
      ensures ok ==> nlmsg_type == 16 && nlmsg_flags == 5 && ifi_index == ifindex
      ensures ok ==> ifi_change == (if if_state == 0 then 0 else 1) && ifi_flags == if if_state == 1 then 1 else 0
      ensures ok ==> nlmsg_len % 4 == 0 && nlmsg_len <= 148
      ensures ok && info.None? ==> Holds([], [])
      ensures ok && info.Some? ==> Fits(Requested(info.value)) && Holds([], Encode(LinkInfo(Requested(info.value))))
    {
      nlmsg_flags := NLM_F_REQUEST_ACK;
      nlmsg_type := RTM_NEWLINK;
      ifi_index := ifindex;
      if ifi_index == 0 {
        return false;
      }
      ok := SetIfState(if_state);
      if ok && info.Some? {
        AddLinkInfo(info.value);
      }
    }
  }

  /** Appending attributes one list at a time. */
  lemma AppendBytes(tail: seq<u8>, done: seq<Attr>, more: seq<Attr>)
    requires AllValid(done) && AllValid(more)
    ensures AllValid(done + more)
    ensures tail + EncodeAll(done) + EncodeAll(more) == tail + EncodeAll(done + more)
  {
    EncodeAllAppend(done, more);
    assert tail + EncodeAll(done) + EncodeAll(more) == tail + (EncodeAll(done) + EncodeAll(more));
  }

  lemma ThreeParts(link: seq<u8>, kind: seq<u8>, whole: seq<u8>)
    ensures [] + (link + (kind + whole)) == link + kind + whole
  {
  }

  /** At most one more attribute. */
  lemma OneMoreAttr(tail: seq<u8>, done: seq<Attr>, more: seq<Attr>)
    requires AllValid(done) && AllValid(more) && |more| <= 1
    ensures AllValid(done + more)
    ensures tail + EncodeAll(done + more)
            == if more == [] then tail + EncodeAll(done) else tail + EncodeAll(done) + Encode(more[0])
  {
    EncodeAtMostOne(more);
    AppendBytes(tail, done, more);
    assert more == [] ==> done + more == done;
  }

  /** What the kernel's attribute walk finds in a request built in place. */
  lemma RequestDecodes(req: SetReq, info: ReqInfo)
    requires Fits(Requested(info)) && req.Holds([], Encode(LinkInfo(Requested(info))))
    ensures var outer := Walk(req.mem[HEADER_SIZE..req.nlmsg_len]);
            outer.Some? && |outer.value| == 1 && outer.value[0].rta_type == IFLA_LINKINFO
            && var inner := Walk(outer.value[0].payload);
               inner.Some? && |inner.value| == 2
               && inner.value[0] == Attr(IFLA_INFO_KIND, CAN)
               && inner.value[1].rta_type == IFLA_INFO_DATA
               && Walk(inner.value[1].payload) == Some(Requested(info))
  {
    LinkInfoDecodes(Requested(info));
    assert [] + Encode(LinkInfo(Requested(info))) == Encode(LinkInfo(Requested(info)));
  }
}
