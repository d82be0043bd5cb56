/** What a built request says, by attribute numbers and bytes: which field of the caller's
    structure travels under which attribute, in which order, and how an attribute is laid out. */
module NetlinkMeaning {
  import opened Common
  import opened Netlink

  function Pair(low: int, high: int): int {
    low + 0x100 * high
  }

  /** The four bytes of a number, the low one first. */
  predicate Spells(bytes: seq<u8>, n: u32) {
    |bytes| == 4 && Pair(bytes[0], bytes[1]) + 0x1_0000 * Pair(bytes[2], bytes[3]) == n
  }

  lemma LowByte(a: u8, high: int, a': u8, high': int)
    requires a + 0x100 * high == a' + 0x100 * high'
    ensures a == a' && high == high'
  {
  }

  lemma SameNumber(s: seq<u8>, t: seq<u8>, n: u32)
    requires Spells(s, n) && Spells(t, n)
    ensures s == t
  {
    LowByte(s[0], Pair(s[1], Pair(s[2], s[3])), t[0], Pair(t[1], Pair(t[2], t[3])));
    LowByte(s[1], Pair(s[2], s[3]), t[1], Pair(t[2], t[3]));
    LowByte(s[2], s[3], t[2], t[3]);
  }

  lemma SpelledOnce(bytes: seq<u8>, n: u32)
    ensures Spells(bytes, n) <==> bytes == Le32(n)
  {
    BytesOf(n);
    if Spells(bytes, n) {
      SameNumber(bytes, Le32(n), n);
    }
  }

  lemma BytesOf(n: u32)
    ensures n == n % 0x100 + 0x100 * (n / 0x100 % 0x100)
                 + 0x1_0000 * (n / 0x1_0000 % 0x100) + 0x100_0000 * (n / 0x100_0000)
  {
    assert n / 0x1_0000 == n / 0x100 / 0x100;
    assert n / 0x100_0000 == n / 0x1_0000 / 0x100;
  }

  /** The attributes that a caller's structure asks for: the restart delay under 6 where there
      is one or it is switched off, a restart under 7 with the number 1, the nominal bit timing
      under 1, the one of the CAN FD data phase under 9, and the control mode under 5. */
  predicate AskedFor(info: ReqInfo, a: Attr) {
    || (a.rta_type == 6 && (info.restart_ms > 0 || info.disable_autorestart != 0) && Spells(a.payload, info.restart_ms))
    || (a.rta_type == 7 && info.restart != 0 && Spells(a.payload, 1))
    || (a.rta_type == 1 && info.bittiming.Some? && a.payload == info.bittiming.value)
    || (a.rta_type == 9 && info.dbittiming.Some? && a.payload == info.dbittiming.value)
    || (a.rta_type == 5 && info.ctrlmode.Some? && a.payload == info.ctrlmode.value)
  }

  function Place(rta_type: u16): nat {
    match rta_type
    case 6 => 0
    case 7 => 1
    case 1 => 2
    case 9 => 3
    case _ => 4
  }

  predicate InOrder(attrs: seq<Attr>) {
    forall i, j | 0 <= i < j < |attrs| :: Place(attrs[i].rta_type) < Place(attrs[j].rta_type)
  }

  lemma WhenMeans(cond: bool, a: Attr, x: Attr)
    ensures x in When(cond, a) <==> cond && x == a
  {
  }

  lemma OptionalMeans(rta_type: u16, payload: Option<seq<u8>>, x: Attr)
    ensures x in Optional(rta_type, payload) <==> x.rta_type == rta_type && payload == Some(x.payload)
  {
  }

  /** The list holds exactly those attributes, none twice, in the order 6, 7, 1, 9, 5. */
  lemma RequestedMeans(info: ReqInfo, x: Attr)
    ensures x in Requested(info) <==> AskedFor(info, x)
  {
    WhenMeans(info.restart_ms > 0 || info.disable_autorestart != 0, Attr(6, Le32(info.restart_ms)), x);
    WhenMeans(info.restart != 0, Attr(7, Le32(1)), x);
    OptionalMeans(1, info.bittiming, x);
    OptionalMeans(9, info.dbittiming, x);
    OptionalMeans(5, info.ctrlmode, x);
    SpelledOnce(x.payload, info.restart_ms);
    SpelledOnce(x.payload, 1);
  }

  predicate Between(attrs: seq<Attr>, low: nat, high: nat) {
    InOrder(attrs) && forall i | 0 <= i < |attrs| :: low <= Place(attrs[i].rta_type) < high
  }

  lemma Joined(a: seq<Attr>, b: seq<Attr>, low: nat, mid: nat, high: nat)
    requires low <= mid <= high && Between(a, low, mid) && Between(b, mid, high)
    ensures Between(a + b, low, high)
  {
  }

  lemma RequestedInOrder(info: ReqInfo)
    ensures InOrder(Requested(info))
  {
    var r1 := When(info.restart_ms > 0 || info.disable_autorestart != 0, Attr(6, Le32(info.restart_ms)));
    var r2 := When(info.restart != 0, Attr(7, Le32(1)));
    var r3, r4 := Optional(1, info.bittiming), Optional(9, info.dbittiming);
    var r5 := Optional(5, info.ctrlmode);
    Joined(r1, r2, 0, 1, 2);
    Joined(r1 + r2, r3, 0, 2, 3);
    Joined(r1 + r2 + r3, r4, 0, 3, 4);
    Joined(r1 + r2 + r3 + r4, r5, 0, 4, 5);
  }

  /** What the kernel finds in a built buffer: one attribute 18; in it, 1 with the bytes of
      "can" and 2; and in that exactly the attributes asked for, in order. */
  lemma RequestMeans(req: SetReq, info: ReqInfo) returns (attrs: seq<Attr>)
    requires Fits(Requested(info)) && req.Holds([], Encode(LinkInfo(Requested(info))))
    ensures var outer := Walk(req.mem[32..req.nlmsg_len]);
            outer.Some? && |outer.value| == 1 && outer.value[0].rta_type == 18
            && var inner := Walk(outer.value[0].payload);
               inner.Some? && |inner.value| == 2
               && inner.value[0] == Attr(1, [0x63, 0x61, 0x6E]) && inner.value[1].rta_type == 2
               && Walk(inner.value[1].payload) == Some(attrs)
    ensures InOrder(attrs) && forall x :: x in attrs <==> AskedFor(info, x)
  {
    attrs := Requested(info);
    RequestDecodes(req, info);
    RequestedInOrder(info);
    forall x ensures x in attrs <==> AskedFor(info, x) {
      RequestedMeans(info, x);
    }
  }

  /** An attribute is its length and its type, in two bytes each with the low one first, its
      payload, and zeros up to a multiple of four. */
  lemma AttributeBytes(a: Attr)
    requires a.Valid()
    ensures var e, n := Encode(a), 4 + |a.payload|;
            && n <= |e| < n + 4 && |e| % 4 == 0
            && Pair(e[0], e[1]) == n && Pair(e[2], e[3]) == a.rta_type && e[4..n] == a.payload
            && forall k | n <= k < |e| :: e[k] == 0
  {
    EncodeHeader(a, []);
    assert Encode(a) + [] == Encode(a);
  }
}
