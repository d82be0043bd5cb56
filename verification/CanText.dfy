/** The compact text form of CAN frames: values, specification functions and the
    laws that tie the printer to the parser.  The in-place parser and printer of
    can_lib.c are in CanCodec.dfy and are proved against the functions here. */
module CanText {

  import opened Common

  // Identifier words are numbers; a single-bit flag is given by its weight, a mask of
  // low bits by the modulus one above it.
  const CAN_EFF_FLAG: u32 := 0x8000_0000
  const CAN_RTR_FLAG: u32 := 0x4000_0000
  const CAN_ERR_FLAG: u32 := 0x2000_0000
  const CAN_SFF_MASK: u32 := 0x0000_07FF
  const CAN_EFF_MASK: u32 := 0x1FFF_FFFF
  const CAN_ERR_MASK: u32 := 0x1FFF_FFFF

  /** id & CAN_ERR_FLAG, and so on. */
  predicate HasErr(id: u32) { id / 0x2000_0000 % 2 == 1 }
  predicate HasRtr(id: u32) { id / 0x4000_0000 % 2 == 1 }
  predicate HasEff(id: u32) { id / 0x8000_0000 == 1 }

  /** id | CAN_RTR_FLAG and id | CAN_EFF_FLAG. */
  function SetRtr(id: u32): u32 { if HasRtr(id) then id else id + CAN_RTR_FLAG }
  function SetEff(id: u32): u32 { if HasEff(id) then id else id + CAN_EFF_FLAG }

  /** id & mask, for a mask of low bits only. */
  function LowBits(id: u32, mask: u32): u32 { id % (mask + 1) }

  const CAN_MAX_DLC := 8
  const CAN_MAX_DLEN := 8
  const CANFD_MAX_DLEN := 64
  const CAN_MTU := 16
  const CANFD_MTU := 72

  /** The value of a struct canfd_frame; the data array always has 64 bytes. */
  datatype Frame = Frame(id: u32, len: u8, flags: u8, data: seq<u8>)
  type CanFrame = f: Frame | |f.data| == 64 witness Frame(0, 0, 0, seq(64, _ => 0))

  /** Zero-fills a payload to the 64 bytes of the frame's data array. */
  function Pad(payload: seq<u8>): (r: seq<u8>)
    requires |payload| <= 64
    ensures |r| == 64
    ensures r[..|payload|] == payload
    ensures forall k :: |payload| <= k < 64 ==> r[k] == 0
  {
    payload + seq(64 - |payload|, _ => 0)
  }

  // ----- hexadecimal digits

  /** hex_asc_upper[n]. */
  function HexUpper(n: nat): (c: char)
    requires n < 16
  {
    if n < 10 then ('0' as int + n) as char else ('A' as int + n - 10) as char
  }

  /** The value of a hexadecimal digit, 16 for any other character. */
  function Asc2Nibble(c: char): nat {
    if '0' <= c <= '9' then c as int - '0' as int
    else if 'A' <= c <= 'F' then c as int - 'A' as int + 10
    else if 'a' <= c <= 'f' then c as int - 'a' as int + 10
    else 16
  }

  predicate IsHex(c: char) {
    Asc2Nibble(c) <= 0x0F
  }

  predicate AllHex(s: string) {
    forall i | 0 <= i < |s| :: IsHex(s[i])
  }

  function HexByte(b: u8): (s: string) {
    [HexUpper(b / 16), HexUpper(b % 16)]
  }

  lemma HexDigits()
    ensures forall n: nat | n < 16 :: Asc2Nibble(HexUpper(n)) == n
  {
  }

  // ----- identifiers

  function Pow16(n: nat): (r: nat)
    ensures r > 0
  {
    if n == 0 then 1 else 16 * Pow16(n - 1)
  }

  /** The number spelled by hexadecimal digits, most significant digit first. */
  function IdValue(digits: string): nat
    requires AllHex(digits)
  {
    if digits == "" then 0
    else
      var last := |digits| - 1;
      16 * IdValue(digits[..last]) + Asc2Nibble(digits[last])
  }

  /** The n low hexadecimal digits of id, most significant digit first. */
  function IdDigits(id: nat, n: nat): (s: string)
    ensures |s| == n
  {
    if n == 0 then "" else IdDigits(id / 16, n - 1) + [HexUpper(id % 16)]
  }

  lemma {:induction false} IdDigitsValue(id: nat, n: nat)
    requires id < Pow16(n)
    ensures AllHex(IdDigits(id, n)) && IdValue(IdDigits(id, n)) == id
  {
    if n == 0 {
    } else {
      IdDigitsValue(id / 16, n - 1);
      HexDigits();
      assert IdDigits(id, n)[..n - 1] == IdDigits(id / 16, n - 1);
    }
  }

  lemma {:induction false} IdValueRange(digits: string)
    requires AllHex(digits)
    ensures IdValue(digits) < Pow16(|digits|)
  {
    if digits == "" {
    } else {
      IdValueRange(digits[..|digits| - 1]);
    }
  }

  lemma Pow16Values()
    ensures Pow16(3) == 0x1000 && Pow16(8) == 0x1_0000_0000
  {
    assert Pow16(5) == 0x10_0000;
  }

  /** At most eight digits fit a 32-bit word. */
  function IdWord(digits: string): u32
    requires |digits| <= 8 && AllHex(digits)
  {
    IdValueRange(digits);
    Pow16Bound(|digits|);
    IdValue(digits)
  }

  lemma Pow16Bound(n: nat)
    requires n <= 8
    ensures Pow16(n) <= 0x1_0000_0000
  {
    Pow16Values();
    if n < 8 {
      assert n <= 7;
      Pow16Mono(n, 8);
    }
  }

  lemma {:induction false} Pow16Mono(m: nat, n: nat)
    requires m <= n
    ensures Pow16(m) <= Pow16(n)
    decreases n - m
  {
    if m == n {
    } else {
      Pow16Mono(m + 1, n);
    }
  }

  // ----- payload text

  /** Two digits a byte, with a '.' between bytes when sep is set. */
  function DataText(payload: seq<u8>, sep: bool): string {
    if payload == [] then ""
    else if |payload| == 1 then HexByte(payload[0])
    else HexByte(payload[0]) + (if sep then "." else "") + DataText(payload[1..], sep)
  }

  function SkipDot(s: string): string {
    if s != "" && s[0] == '.' then s[1..] else s
  }

  /** What the byte loop of parse_canframe collects from s when at most room bytes fit:
      None when a byte is not two hexadecimal digits. */
  function ScanData(s: string, room: nat): (r: Option<seq<u8>>)
    ensures r.Some? ==> |r.value| <= room
    decreases room
  {
    if room == 0 then Some([])
    else
      var t := SkipDot(s);
      if t == "" then Some([])
      else if |t| < 2 || !IsHex(t[0]) || !IsHex(t[1]) then None
      else
        var rest := ScanData(t[2..], room - 1);
        if rest.None? then None
        else Some([Asc2Nibble(t[0]) * 16 + Asc2Nibble(t[1])] + rest.value)
  }

  /** The scan of one printed byte followed by any text. */
  lemma ScanByte(b: u8, s: string, room: nat)
    requires room > 0
    ensures ScanData(HexByte(b) + s, room)
            == var rest := ScanData(s, room - 1); if rest.None? then None else Some([b] + rest.value)
  {
    HexDigits();
    var t := HexByte(b) + s;
    assert t[0] == HexUpper(b / 16) && t[1] == HexUpper(b % 16) && t[2..] == s;
    assert SkipDot(t) == t;
  }

  lemma DataTextNoDot(payload: seq<u8>, sep: bool)
    ensures SkipDot(DataText(payload, sep)) == DataText(payload, sep)
    ensures payload != [] ==> DataText(payload, sep) != "" && IsHex(DataText(payload, sep)[0])
  {
    HexDigits();
  }

  lemma DataTextStep(payload: seq<u8>, sep: bool)
    requires |payload| > 1
    ensures DataText(payload, sep) == HexByte(payload[0]) + ((if sep then "." else "") + DataText(payload[1..], sep))
  {
  }

  /** A leading '.' makes no difference to the scan. */
  lemma ScanSkip(s: string, room: nat)
    requires SkipDot(SkipDot(s)) == SkipDot(s)
    ensures ScanData(s, room) == ScanData(SkipDot(s), room)
  {
  }

  lemma ScanDot(dot: string, text: string, room: nat)
    requires (dot == "" || dot == ".") && SkipDot(text) == text
    ensures ScanData(dot + text, room) == ScanData(text, room)
  {
    assert dot != "" ==> (dot + text)[0] == '.' && (dot + text)[1..] == text;
    assert dot == "" ==> dot + text == text;
    ScanSkip(dot + text, room);
  }

  lemma ScanMore(b: u8, dot: string, tail: string, rest: seq<u8>, room: nat)
    requires room > 0 && (dot == "" || dot == ".") && SkipDot(tail) == tail
    requires ScanData(tail, room - 1) == Some(rest)
    ensures ScanData(HexByte(b) + (dot + tail), room) == Some([b] + rest)
  {
    ScanByte(b, dot + tail, room);
    ScanDot(dot, tail, room - 1);
  }

  lemma ScanSingle(b: u8, room: nat)
    requires room > 0
    ensures ScanData(HexByte(b), room) == Some([b])
  {
    ScanMore(b, "", "", [], room);
    assert HexByte(b) == HexByte(b) + ("" + "");
    assert [b] + [] == [b];
  }

  lemma ScanFirst(payload: seq<u8>, sep: bool, room: nat)
    requires 1 < |payload| <= room && ScanData(DataText(payload[1..], sep), room - 1) == Some(payload[1..])
    ensures ScanData(DataText(payload, sep), room) == Some(payload)
  {
    DataTextNoDot(payload[1..], sep);
    DataTextStep(payload, sep);
    ScanMore(payload[0], if sep then "." else "", DataText(payload[1..], sep), payload[1..], room);
    assert [payload[0]] + payload[1..] == payload;
  }

  lemma {:induction false} ScanDataText(payload: seq<u8>, sep: bool, room: nat)
    requires |payload| <= room
    ensures ScanData(DataText(payload, sep), room) == Some(payload)
    decreases |payload|
  {
    if |payload| == 0 {
    } else if |payload| == 1 {
      ScanSingle(payload[0], room);
      assert payload == [payload[0]];
    } else {
      ScanDataText(payload[1..], sep, room - 1);
      ScanFirst(payload, sep, room);
    }
  }

  // ----- the printer

  function ClampedLen(f: CanFrame, maxdlen: int): int {
    if f.len > maxdlen then maxdlen else f.len
  }

  function IdText(id: u32): string {
    if HasErr(id) then IdDigits(LowBits(id, CAN_ERR_MASK + CAN_ERR_FLAG), 8)
    else if HasEff(id) then IdDigits(LowBits(id, CAN_EFF_MASK), 8)
    else IdDigits(LowBits(id, CAN_SFF_MASK), 3)
  }

  function Payload(f: CanFrame, maxdlen: int): seq<u8>
    requires ClampedLen(f, maxdlen) <= 64
  {
    if ClampedLen(f, maxdlen) <= 0 then [] else f.data[..ClampedLen(f, maxdlen)]
  }

  /** The text after the first '#'. */
  function BodyText(f: CanFrame, sep: bool, maxdlen: int): string
    requires ClampedLen(f, maxdlen) <= 64
  {
    if maxdlen == CAN_MAX_DLEN && HasRtr(f.id) then
      "R" + if 1 <= f.len <= CAN_MAX_DLC then [HexUpper(f.len)] else ""
    else if maxdlen == CANFD_MAX_DLEN then
      "#" + [HexUpper(f.flags % 16)]
      + (if sep && Payload(f, maxdlen) != [] then "." else "") + DataText(Payload(f, maxdlen), sep)
    else
      DataText(Payload(f, maxdlen), sep)
  }

  /** The compact form of a frame. */
  function CompactText(f: CanFrame, sep: bool, maxdlen: int): string
    requires ClampedLen(f, maxdlen) <= 64
  {
    IdText(f.id) + "#" + BodyText(f, sep, maxdlen)
  }

  // ----- the parser

  datatype Parsed = Parsed(mtu: nat, frame: CanFrame)

  function RtrLen(s: string): u8 {
    if s != "" && Asc2Nibble(s[0]) <= CAN_MAX_DLC then Asc2Nibble(s[0]) else 0
  }

  function PayloadFrame(mtu: nat, id: u32, flags: u8, s: string, maxdlen: nat): Option<Parsed>
    requires maxdlen <= 64
  {
    var data := ScanData(s, maxdlen);
    if data.None? then None
    else Some(Parsed(mtu, Frame(id, |data.value|, flags, Pad(data.value))))
  }

  predicate IsRemote(s: string) {
    s != "" && (s[0] == 'R' || s[0] == 'r')
  }

  function ParseBody(id: u32, s: string): Option<Parsed> {
    if IsRemote(s) then
      Some(Parsed(CAN_MTU, Frame(SetRtr(id), RtrLen(s[1..]), 0, Pad([]))))
    else if s != "" && s[0] == '#' then
      if |s| < 2 || !IsHex(s[1]) then None
      else PayloadFrame(CANFD_MTU, id, Asc2Nibble(s[1]), s[2..], CANFD_MAX_DLEN)
    else
      PayloadFrame(CAN_MTU, id, 0, s, CAN_MAX_DLEN)
  }

  /** An 8-digit identifier that is not an error frame is an extended one. */
  function ExtendedId(v: u32): u32 {
    if HasErr(v) then v else SetEff(v)
  }

  /** Some frame for exactly the strings that parse_canframe accepts. */
  function ParseText(cs: string): Option<Parsed> {
    if |cs| < 4 then None
    else if cs[3] == '#' then
      if AllHex(cs[..3]) then ParseBody(IdWord(cs[..3]), cs[4..]) else None
    else if |cs| > 8 && cs[8] == '#' then
      if AllHex(cs[..8]) then ParseBody(ExtendedId(IdWord(cs[..8])), cs[9..]) else None
    else None
  }

  // ----- parsing what was printed

  function Mtu(maxdlen: int): nat {
    if maxdlen == CANFD_MAX_DLEN then CANFD_MTU else CAN_MTU
  }

  function CanonId(id: u32): u32 {
    if HasErr(id) then LowBits(id, CAN_ERR_MASK + CAN_ERR_FLAG)
    else if HasEff(id) then SetEff(LowBits(id, CAN_EFF_MASK))
    else LowBits(id, CAN_SFF_MASK)
  }

  /** The part of a frame that the compact form of the given width carries. */
  function Canon(f: CanFrame, maxdlen: int): CanFrame
    requires maxdlen == CAN_MAX_DLEN || maxdlen == CANFD_MAX_DLEN
  {
    var id := CanonId(f.id);
    if maxdlen == CAN_MAX_DLEN && HasRtr(f.id) then
      Frame(SetRtr(id), if f.len <= CAN_MAX_DLC then f.len else 0, 0, Pad([]))
    else
      Frame(id, ClampedLen(f, maxdlen), if maxdlen == CANFD_MAX_DLEN then f.flags % 16 else 0,
            Pad(Payload(f, maxdlen)))
  }

  lemma ParseShortId(digits: string, body: string)
    requires |digits| == 3 && AllHex(digits)
    ensures ParseText(digits + "#" + body) == ParseBody(IdWord(digits), body)
  {
    var cs := digits + "#" + body;
    assert cs[..3] == digits && cs[4..] == body && cs[3] == '#';
  }

  lemma ParseLongId(digits: string, body: string)
    requires |digits| == 8 && AllHex(digits)
    ensures ParseText(digits + "#" + body) == ParseBody(ExtendedId(IdWord(digits)), body)
  {
    var cs := digits + "#" + body;
    assert cs[..8] == digits && cs[9..] == body && cs[8] == '#';
    assert cs[3] == digits[3] && IsHex(digits[3]);
  }

  /** The digits printed for an error or extended identifier decode to its canonical form. */
  lemma LongIdDecodes(id: u32)
    ensures var v := LowBits(id, CAN_ERR_MASK + CAN_ERR_FLAG); HasErr(id) ==> ExtendedId(v) == v
    ensures var v := LowBits(id, CAN_EFF_MASK); ExtendedId(v) == SetEff(v)
  {
  }

  lemma ParseLongText(v: u32, body: string)
    ensures ParseText(IdDigits(v, 8) + "#" + body) == ParseBody(ExtendedId(v), body)
  {
    Pow16Values();
    IdDigitsValue(v, 8);
    ParseLongId(IdDigits(v, 8), body);
  }

  lemma ParseShortText(v: u32, body: string)
    requires v <= 0xFFF
    ensures ParseText(IdDigits(v, 3) + "#" + body) == ParseBody(v, body)
  {
    Pow16Values();
    IdDigitsValue(v, 3);
    ParseShortId(IdDigits(v, 3), body);
  }

  lemma ParseIdText(id: u32, body: string)
    ensures ParseText(IdText(id) + "#" + body) == ParseBody(CanonId(id), body)
  {
    LongIdDecodes(id);
    if HasErr(id) {
      ParseLongText(LowBits(id, CAN_ERR_MASK + CAN_ERR_FLAG), body);
    } else if HasEff(id) {
      ParseLongText(LowBits(id, CAN_EFF_MASK), body);
    } else {
      ParseShortText(LowBits(id, CAN_SFF_MASK), body);
    }
  }

  lemma ParseRemoteText(id: u32, len: u8)
    ensures var s := "R" + if 1 <= len <= CAN_MAX_DLC then [HexUpper(len)] else "";
            ParseBody(id, s) == Some(Parsed(CAN_MTU,
                Frame(SetRtr(id), if len <= CAN_MAX_DLC then len else 0, 0, Pad([]))))
  {
    HexDigits();
  }

  lemma ScanAfterDot(dot: string, payload: seq<u8>, sep: bool, room: nat)
    requires dot == "" || dot == "."
    requires |payload| <= room
    ensures ScanData(dot + DataText(payload, sep), room) == Some(payload)
  {
    ScanDataText(payload, sep, room);
    DataTextNoDot(payload, sep);
    ScanDot(dot, DataText(payload, sep), room);
  }

  lemma PayloadFrameOf(mtu: nat, id: u32, flags: u8, s: string, maxdlen: nat, payload: seq<u8>)
    requires maxdlen <= 64 && ScanData(s, maxdlen) == Some(payload)
    ensures PayloadFrame(mtu, id, flags, s, maxdlen) == Some(Parsed(mtu, Frame(id, |payload|, flags, Pad(payload))))
  {
  }

  lemma FdBody(id: u32, flags: u8, s: string)
    requires flags < 16
    ensures ParseBody(id, "#" + [HexUpper(flags)] + s) == PayloadFrame(CANFD_MTU, id, flags, s, CANFD_MAX_DLEN)
  {
    HexDigits();
    var t := "#" + [HexUpper(flags)] + s;
    assert t[0] == '#' && t[1] == HexUpper(flags) && t[2..] == s;
  }

  lemma ParseFdText(id: u32, flags: u8, dot: string, payload: seq<u8>, sep: bool)
    requires flags < 16 && |payload| <= 64 && (dot == "" || dot == ".")
    ensures ParseBody(id, "#" + [HexUpper(flags)] + dot + DataText(payload, sep))
            == Some(Parsed(CANFD_MTU, Frame(id, |payload|, flags, Pad(payload))))
  {
    var text := dot + DataText(payload, sep);
    FdBody(id, flags, text);
    assert "#" + [HexUpper(flags)] + dot + DataText(payload, sep) == "#" + [HexUpper(flags)] + text;
    ScanAfterDot(dot, payload, sep, CANFD_MAX_DLEN);
    PayloadFrameOf(CANFD_MTU, id, flags, text, CANFD_MAX_DLEN, payload);
  }

  lemma ParseClassicText(id: u32, payload: seq<u8>, sep: bool)
    requires |payload| <= 8
    ensures ParseBody(id, DataText(payload, sep))
            == Some(Parsed(CAN_MTU, Frame(id, |payload|, 0, Pad(payload))))
  {
    ScanDataText(payload, sep, CAN_MAX_DLEN);
    DataTextNoDot(payload, sep);
  }

  lemma ParseBodyText(f: CanFrame, sep: bool, maxdlen: int)
    requires maxdlen == CAN_MAX_DLEN || maxdlen == CANFD_MAX_DLEN
    ensures ParseBody(CanonId(f.id), BodyText(f, sep, maxdlen)) == Some(Parsed(Mtu(maxdlen), Canon(f, maxdlen)))
  {
    ParseRemoteText(CanonId(f.id), f.len);
    var dot := if sep && Payload(f, CANFD_MAX_DLEN) != [] then "." else "";
    ParseFdText(CanonId(f.id), f.flags % 16, dot, Payload(f, CANFD_MAX_DLEN), sep);
    ParseClassicText(CanonId(f.id), Payload(f, CAN_MAX_DLEN), sep);
  }

  /** Parsing the compact form of ANY frame, well-formed or not, gives the part of the
      frame that the form carries, and the matching MTU. */
  lemma ParseCompactText(f: CanFrame, sep: bool, maxdlen: int)
    requires maxdlen == CAN_MAX_DLEN || maxdlen == CANFD_MAX_DLEN
    ensures ParseText(CompactText(f, sep, maxdlen)) == Some(Parsed(Mtu(maxdlen), Canon(f, maxdlen)))
  {
    ParseIdText(f.id, BodyText(f, sep, maxdlen));
    ParseBodyText(f, sep, maxdlen);
  }

  // ----- exactly when the round trip is the identity

  /** RTR aside, the identifier is a standard, an extended or an error identifier. */
  predicate WellFormedId(id: u32) {
    if HasErr(id) then !HasEff(id)
    else HasEff(id) || id % 0x4000_0000 <= CAN_SFF_MASK
  }

  predicate ZeroFrom(data: seq<u8>, k: nat) {
    forall i | k <= i < |data| :: data[i] == 0
  }

  /** The frames a width of text can carry without loss. */
  predicate WellFormed(f: CanFrame, maxdlen: int) {
    && WellFormedId(f.id)
    && f.len <= maxdlen
    && (if maxdlen == CANFD_MAX_DLEN then f.flags <= 15 && !HasRtr(f.id) else f.flags == 0)
    && ZeroFrom(f.data, if HasRtr(f.id) then 0 else f.len)
  }

  lemma CanonIdFixed(id: u32)
    ensures !HasRtr(CanonId(id))
    ensures WellFormedId(id) <==> (if HasRtr(id) then SetRtr(CanonId(id)) else CanonId(id)) == id
  {
    FlagWeights(id);
    FlagWeights(CanonId(id));
  }

  /** A word is the sum of its three flags and its low 29 bits. */
  lemma FlagWeights(id: u32)
    ensures id == (if HasEff(id) then CAN_EFF_FLAG else 0) + (if HasRtr(id) then CAN_RTR_FLAG else 0)
                  + (if HasErr(id) then CAN_ERR_FLAG else 0) + LowBits(id, CAN_ERR_MASK)
  {
  }

  lemma PadFixed(data: seq<u8>, n: nat)
    requires |data| == 64 && n <= 64
    ensures Pad(data[..n]) == data <==> ZeroFrom(data, n)
  {
    var p := Pad(data[..n]);
    if ZeroFrom(data, n) {
      forall k | 0 <= k < 64 ensures p[k] == data[k] {
        if k < n {
          assert p[k] == p[..n][k];
        }
      }
      assert p == data;
    }
    if p == data {
      forall k | n <= k < 64 ensures data[k] == 0 {
        assert p[k] == 0;
      }
    }
  }

  lemma CanonFixed(f: CanFrame, maxdlen: int)
    requires maxdlen == CAN_MAX_DLEN || maxdlen == CANFD_MAX_DLEN
    ensures Canon(f, maxdlen) == f <==> WellFormed(f, maxdlen)
  {
    var rtr := HasRtr(f.id);
    CanonIdFixed(f.id);
    if maxdlen == CAN_MAX_DLEN && rtr {
      PadFixed(f.data, 0);
      assert f.data[..0] == [];
    } else if f.len <= maxdlen {
      PadFixed(f.data, f.len);
      assert Payload(f, maxdlen) == f.data[..f.len];
    }
  }

  /** The frame round trip holds for the well-formed frames and for no others. */
  lemma FrameRoundTrip(f: CanFrame, sep: bool, maxdlen: int)
    requires maxdlen == CAN_MAX_DLEN || maxdlen == CANFD_MAX_DLEN
    ensures ParseText(CompactText(f, sep, maxdlen)) == Some(Parsed(Mtu(maxdlen), f))
            <==> WellFormed(f, maxdlen)
  {
    ParseCompactText(f, sep, maxdlen);
    CanonFixed(f, maxdlen);
  }

  // ----- normalisation: print what was parsed

  function Width(mtu: nat): nat {
    if mtu == CANFD_MTU then CANFD_MAX_DLEN else CAN_MAX_DLEN
  }

  /** Every payload byte of a classic body is zero. */
  predicate ZeroBody(s: string) {
    !(s != "" && s[0] == '#') && ScanData(s, CAN_MAX_DLEN).Some? && ZeroFrom(ScanData(s, CAN_MAX_DLEN).value, 0)
  }

  /** The identifier digits say no more than the format can: three digits fit 11 bits;
      eight digits do not mark the frame both error and extended, and they set the RTR
      bit only where an 'R' follows or there is nothing but zeros to lose. */
  predicate IdDigitsFit(cs: string) {
    if |cs| >= 4 && cs[3] == '#' then AllHex(cs[..3]) && IdWord(cs[..3]) <= CAN_SFF_MASK
    else
      |cs| > 8 && AllHex(cs[..8])
      && var v := IdWord(cs[..8]);
         !(HasErr(v) && HasEff(v)) && (HasRtr(v) ==> IsRemote(cs[9..]) || ZeroBody(cs[9..]))
  }

  lemma ZeroPad(payload: seq<u8>)
    requires |payload| <= 64
    ensures ZeroFrom(Pad(payload), |payload|)
    ensures ZeroFrom(Pad(payload), 0) <==> ZeroFrom(payload, 0)
  {
    var p := Pad(payload);
    assert forall i | 0 <= i < |payload| :: payload[i] == p[..|payload|][i] == p[i];
  }

  lemma ParsedBodyWellFormed(id: u32, s: string)
    requires ParseBody(id, s).Some?
    ensures var p := ParseBody(id, s).value;
            WellFormed(p.frame, Width(p.mtu))
            <==> WellFormedId(id) && (HasRtr(id) ==> IsRemote(s) || ZeroBody(s))
  {
    var p := ParseBody(id, s).value;
    if IsRemote(s) {
      ZeroPad([]);
      assert WellFormedId(SetRtr(id)) == WellFormedId(id);
    } else if s != "" && s[0] == '#' {
      ZeroPad(ScanData(s[2..], CANFD_MAX_DLEN).value);
    } else {
      ZeroPad(ScanData(s, CAN_MAX_DLEN).value);
    }
  }

  lemma ParsedIdWellFormed(v: u32)
    ensures WellFormedId(ExtendedId(v)) <==> !(HasErr(v) && HasEff(v))
    ensures HasRtr(ExtendedId(v)) == HasRtr(v)
    ensures v <= 0xFFF ==> (WellFormedId(v) <==> v <= CAN_SFF_MASK) && !HasRtr(v)
  {
  }

  lemma ParsedWellFormed(cs: string)
    requires ParseText(cs).Some?
    ensures var p := ParseText(cs).value; WellFormed(p.frame, Width(p.mtu)) <==> IdDigitsFit(cs)
  {
    if cs[3] == '#' {
      IdValueRange(cs[..3]);
      Pow16Values();
      ParsedIdWellFormed(IdWord(cs[..3]));
      ParsedBodyWellFormed(IdWord(cs[..3]), cs[4..]);
    } else {
      ParsedIdWellFormed(IdWord(cs[..8]));
      ParsedBodyWellFormed(ExtendedId(IdWord(cs[..8])), cs[9..]);
    }
  }

  /** Printing a parsed frame and parsing again gives the same frame, whatever dots,
      letter case or trailing text the string had, exactly when its identifier digits fit. */
  lemma Normalisation(cs: string, sep: bool)
    requires ParseText(cs).Some?
    ensures var p := ParseText(cs).value;
            ParseText(CompactText(p.frame, sep, Width(p.mtu))) == Some(p) <==> IdDigitsFit(cs)
  {
    var p := ParseText(cs).value;
    ParsedMtu(cs);
    ParsedWellFormed(cs);
    FrameRoundTrip(p.frame, sep, Width(p.mtu));
  }

  lemma ParsedMtu(cs: string)
    requires ParseText(cs).Some?
    ensures ParseText(cs).value.mtu == CAN_MTU || ParseText(cs).value.mtu == CANFD_MTU
    ensures Mtu(Width(ParseText(cs).value.mtu)) == ParseText(cs).value.mtu
  {
  }

  /** Three digits up to 7FF and eight digits up to 3FFFFFFF always normalise. */
  lemma SmallIdsFit(cs: string)
    requires ParseText(cs).Some?
    requires if cs[3] == '#' then IdWord(cs[..3]) <= 0x7FF else IdWord(cs[..8]) <= 0x3FFF_FFFF
    ensures IdDigitsFit(cs)
  {
  }

  /** A standard identifier above 7FF is accepted but does not survive: FFF#. */
  lemma WideStandardIdIsLost()
    ensures ParseText("FFF#").Some? && !IdDigitsFit("FFF#")
  {
    var d := "FFF#"[..3];
    assert d[..2][..1][..0] == "";
    assert IdValue(d[..2][..1]) == 15;
    assert IdValue(d[..2]) == 255;
    assert ScanData("FFF#"[4..], 8) == Some([]);
  }
}
