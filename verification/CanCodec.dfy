/** The parser and the printer of can_lib.c, filling a frame and a character buffer in
    place.  Both are proved against the functions of CanText, about which the round-trip
    laws are proved. */
module CanCodec {
  import opened Common
  import opened CanText

  class CanfdFrame {
    var can_id: u32
    var len: u8
    var flags: u8
    const data: array<u8>

    ghost predicate Valid() {
      data.Length == 64
    }

    ghost function Value(): CanFrame
      reads this, data
      requires Valid()
    {
      Frame(can_id, len, flags, data[..])
    }

    constructor ()
      ensures Valid() && fresh(data) && Value() == Frame(0, 0, 0, Pad([]))
    {
      can_id, len, flags := 0, 0, 0;
      data := new u8[64](_ => 0);
      new;
      assert data[..] == Pad([]);
    }
  }

  /** cs[k] of a NUL-terminated string; there is no '#' past its end. */
  function At(cs: string, k: nat): char {
    if k < |cs| then cs[k] else '\0'
  }

  // ----- parsing

  lemma {:induction false} WeighDigit(v: nat, t: nat, p: nat)
    ensures v * (16 * p) + t * p == (16 * v + t) * p
    ensures t <= 15 ==> t * p <= 15 * p
  {
  }

  /** One more digit, in its place of an n-digit identifier. */
  lemma DigitStep(cs: string, i: nat, n: nat)
    requires i < n <= |cs| && AllHex(cs[..i]) && IsHex(cs[i])
    ensures AllHex(cs[..i + 1])
    ensures IdValue(cs[..i]) * Pow16(n - i) + Asc2Nibble(cs[i]) * Pow16(n - i - 1)
            == IdValue(cs[..i + 1]) * Pow16(n - i - 1)
    ensures Asc2Nibble(cs[i]) * Pow16(n - i - 1) <= Pow16(n - i) - Pow16(n - i - 1)
  {
    assert cs[..i + 1][..i] == cs[..i];
    WeighDigit(IdValue(cs[..i]), Asc2Nibble(cs[i]), Pow16(n - i - 1));
  }

  /** There is room for the digit in the word. */
  lemma DigitFits(id: nat, t: nat, i: nat, n: nat)
    requires i < n <= 8 && id <= Pow16(n) - Pow16(n - i) && t * Pow16(n - i - 1) <= Pow16(n - i) - Pow16(n - i - 1)
    ensures id + t * Pow16(n - i - 1) <= Pow16(n) - Pow16(n - i - 1) < 0x1_0000_0000
  {
    Pow16Bound(n);
  }

  lemma NoDigits(cs: string, n: nat)
    requires n <= |cs|
    ensures AllHex(cs[..0]) && IdValue(cs[..0]) * Pow16(n) == 0
  {
    assert cs[..0] == "";
  }

  /** The digits before the i-th, in their places of an n-digit identifier. */
  ghost predicate Accumulated(cs: string, i: nat, n: nat, id: u32)
    requires i <= n <= 8 && n <= |cs|
  {
    AllHex(cs[..i]) && id == IdValue(cs[..i]) * Pow16(n - i) && id <= Pow16(n) - Pow16(n - i)
  }

  /** can_id |= tmp << (n-1-i)*4. */
  method AddDigit(cs: string, i: nat, n: nat, tmp: nat, cf: CanfdFrame)
    requires i < n <= 8 && n <= |cs| && tmp == Asc2Nibble(cs[i]) <= 0x0F && Accumulated(cs, i, n, cf.can_id)
    modifies cf`can_id
    ensures Accumulated(cs, i + 1, n, cf.can_id)
  {
    DigitStep(cs, i, n);
    DigitFits(cf.can_id, tmp, i, n);
    cf.can_id := cf.can_id + tmp * Pow16(n - i - 1);
  }

  /** The digit loop of parse_canframe, on a zero can_id. */
  method ReadIdDigits(cs: string, n: nat, cf: CanfdFrame) returns (ok: bool)
    requires n <= 8 && n <= |cs|
    requires cf.can_id == 0
    modifies cf`can_id
    ensures ok == AllHex(cs[..n])
    ensures ok ==> cf.can_id == IdWord(cs[..n])
  {
    NoDigits(cs, n);
    for i := 0 to n
      invariant Accumulated(cs, i, n, cf.can_id)
    {
      var tmp := Asc2Nibble(cs[i]);
      if tmp > 0x0F {
        assert !IsHex(cs[..n][i]);
        return false;
      }
      AddDigit(cs, i, n, tmp, cf);
    }
    return true;
  }

  function Prepend(done: seq<u8>, rest: Option<seq<u8>>): Option<seq<u8>> {
    if rest.None? then None else Some(done + rest.value)
  }

  ghost function AfterDot(cs: string, idx: nat): nat {
    if At(cs, idx) == '.' then idx + 1 else idx
  }

  /** A turn of the payload loop that stores a byte. */
  lemma ScanByteAt(all: Option<seq<u8>>, done: seq<u8>, b: u8, cs: string, idx: nat, p: nat, room: nat)
    requires idx <= |cs| && room > 0 && p == AfterDot(cs, idx) && p < |cs|
    requires IsHex(At(cs, p)) && IsHex(At(cs, p + 1))
    requires b == Asc2Nibble(At(cs, p)) * 16 + Asc2Nibble(At(cs, p + 1))
    requires all == Prepend(done, ScanData(cs[idx..], room))
    ensures p + 2 <= |cs|
    ensures all == Prepend(done + [b], ScanData(cs[p + 2..], room - 1))
  {
    assert SkipDot(cs[idx..]) == cs[p..];
    assert cs[p..][2..] == cs[p + 2..];
    var more := ScanData(cs[p + 2..], room - 1);
    if more.Some? {
      assert done + ([b] + more.value) == done + [b] + more.value;
    }
  }

  /** A turn of the payload loop that ends it, at the end of the string or at a bad digit. */
  lemma ScanStopAt(all: Option<seq<u8>>, done: seq<u8>, cs: string, idx: nat, p: nat, room: nat)
    requires idx <= |cs| && room > 0 && p == AfterDot(cs, idx)
    requires p >= |cs| || !IsHex(At(cs, p)) || !IsHex(At(cs, p + 1))
    requires all == Prepend(done, ScanData(cs[idx..], room))
    ensures p <= |cs| && all == if p == |cs| then Some(done) else None
  {
    assert SkipDot(cs[idx..]) == cs[p..];
    assert done + [] == done;
  }

  /** The data array holds the payload read so far and zeros after it. */
  ghost predicate Filled(data: array<u8>, payload: seq<u8>)
    reads data
  {
    |payload| <= 64 && data[..] == Pad(payload)
  }

  /** data[i] = hi << 4; data[i] |= lo. */
  method StoreByte(data: array<u8>, i: nat, hi: nat, lo: nat, ghost done: seq<u8>, ghost b: u8)
    requires hi < 16 && lo < 16 && b == hi * 16 + lo && Filled(data, done) && i == |done| < 64
    modifies data
    ensures Filled(data, done + [b])
  {
    assert forall k :: 0 <= k < 64 ==> data[k] == data[..][k];
    data[i] := hi * 16;
    data[i] := data[i] + lo;
    ghost var p := Pad(done + [b]);
    assert forall k :: 0 <= k < i ==> p[k] == done[k] == data[k];
    assert p[i] == p[..i + 1][i];
  }

  datatype Turn = Stored | EndOfText | BadDigit

  /** The body of the payload loop: skips a separator, then stores one byte or stops. */
  method ReadByte(cs: string, start: nat, data: array<u8>, i: nat,
                  ghost all: Option<seq<u8>>, ghost done: seq<u8>, ghost room: nat)
    returns (turn: Turn, idx: nat, ghost b: u8)
    requires start <= |cs| && room > 0 && all == Prepend(done, ScanData(cs[start..], room))
    requires Filled(data, done) && i == |done| < 64
    modifies data
    ensures turn == BadDigit <==> all.None? && turn != Stored
    ensures turn == EndOfText ==> all == Some(done) && Filled(data, done)
    ensures turn == Stored ==> idx <= |cs| && all == Prepend(done + [b], ScanData(cs[idx..], room - 1))
    ensures turn == Stored ==> Filled(data, done + [b])
  {
    b, idx := 0, start;
    if At(cs, idx) == '.' {
      idx := idx + 1;
    }
    ghost var p := idx;
    if idx >= |cs| {
      ScanStopAt(all, done, cs, start, p, room);
      return EndOfText, idx, b;
    }
    var tmp := Asc2Nibble(At(cs, idx));
    idx := idx + 1;
    if tmp > 0x0F {
      ScanStopAt(all, done, cs, start, p, room);
      return BadDigit, idx, b;
    }
    var low := Asc2Nibble(At(cs, idx));
    idx := idx + 1;
    if low > 0x0F {
      ScanStopAt(all, done, cs, start, p, room);
      return BadDigit, idx, b;
    }
    b := tmp * 16 + low;
    ScanByteAt(all, done, b, cs, start, p, room);
    StoreByte(data, i, tmp, low, done, b);
    turn := Stored;
  }

  /** The payload loop of parse_canframe, on a zeroed data array. */
  method ReadPayload(cs: string, start: nat, maxdlen: nat, cf: CanfdFrame) returns (ok: bool)
    requires cf.Valid() && Filled(cf.data, [])
    requires start <= |cs| && maxdlen <= 64
    modifies cf`len, cf.data
    ensures ok == ScanData(cs[start..], maxdlen).Some?
    ensures ok ==> var p := ScanData(cs[start..], maxdlen).value; cf.len == |p| && Filled(cf.data, p)
  {
    var i, dlen, idx := 0, 0, start;
    ghost var all, done: seq<u8> := ScanData(cs[start..], maxdlen), [];
    assert all.Some? ==> [] + all.value == all.value;
    while i < maxdlen
      invariant 0 <= i == dlen == |done| <= maxdlen && 0 <= idx <= |cs|
      invariant all == Prepend(done, ScanData(cs[idx..], maxdlen - i))
      invariant Filled(cf.data, done)
    {
      var turn, next, b := ReadByte(cs, idx, cf.data, i, all, done, maxdlen - i);
      match turn
      case EndOfText => break;
      case BadDigit => return false;
      case Stored =>
        idx := next;
        done := done + [b];
        dlen := dlen + 1;
        i := i + 1;
    }
    assert i == maxdlen ==> done + [] == done;
    assert all == Some(done);
    cf.len := dlen;
    return true;
  }

  /** The identifier digits up to the '#'; 0 when they are refused. */
  method ReadId(cs: string, cf: CanfdFrame) returns (idx: nat)
    requires |cs| >= 4 && cf.can_id == 0
    modifies cf`can_id
    ensures idx == 0 ==> ParseText(cs).None?
    ensures idx != 0 ==> idx <= |cs| && ParseText(cs) == ParseBody(cf.can_id, cs[idx..])
  {
    if At(cs, 3) == '#' {
      idx := 4;
      var ok := ReadIdDigits(cs, 3, cf);
      if !ok {
        return 0;
      }
    } else if At(cs, 8) == '#' {
      idx := 9;
      var ok := ReadIdDigits(cs, 8, cf);
      if !ok {
        return 0;
      }
      if !HasErr(cf.can_id) {
        cf.can_id := SetEff(cf.can_id);
      }
    } else {
      return 0;
    }
  }

  /** What follows the first '#', into a frame that holds only the identifier. */
  method ReadBody(cs: string, start: nat, cf: CanfdFrame) returns (ret: nat)
    requires cf.Valid() && cf.len == cf.flags == 0 && Filled(cf.data, []) && start <= |cs|
    modifies cf, cf.data
    ensures ret == 0 <==> ParseBody(old(cf.can_id), cs[start..]).None?
    ensures ret != 0 ==> ParseBody(old(cf.can_id), cs[start..]) == Some(Parsed(ret, cf.Value()))
  {
    var idx := start;
    ghost var body := cs[idx..];
    if At(cs, idx) == 'R' || At(cs, idx) == 'r' {
      cf.can_id := SetRtr(cf.can_id);
      idx := idx + 1;
      assert body[1..] == cs[idx..];
      if At(cs, idx) != '\0' && Asc2Nibble(At(cs, idx)) <= CAN_MAX_DLC {
        cf.len := Asc2Nibble(At(cs, idx));
      }
      return CAN_MTU;
    }
    var maxdlen := CAN_MAX_DLEN;
    ret := CAN_MTU;
    if At(cs, idx) == '#' {
      maxdlen := CANFD_MAX_DLEN;
      ret := CANFD_MTU;
      var tmp := Asc2Nibble(At(cs, idx + 1));
      if tmp > 0x0F {
        return 0;
      }
      cf.flags := tmp;
      idx := idx + 2;
      assert body[2..] == cs[idx..];
    }
    var ok := ReadPayload(cs, idx, maxdlen, cf);
    if !ok {
      return 0;
    }
  }

  /** parse_canframe: returns the MTU and fills cf for the accepted strings, 0 for all
      others. */
  method ParseCanframe(cs: string, cf: CanfdFrame) returns (ret: nat)
    requires cf.Valid()
    modifies cf, cf.data
    ensures ret == 0 <==> ParseText(cs).None?
    ensures ret != 0 ==> ParseText(cs) == Some(Parsed(ret, cf.Value()))
  {
    cf.can_id, cf.len, cf.flags := 0, 0, 0;
    forall k | 0 <= k < 64 {
      cf.data[k] := 0;
    }
    assert cf.data[..] == Pad([]);
    if |cs| < 4 {
      return 0;
    }
    var idx := ReadId(cs, cf);
    if idx == 0 {
      return 0;
    }
    ret := ReadBody(cs, idx, cf);
  }

  // ----- printing

  /** buf starts with the text written so far and is otherwise as it was. */
  ghost predicate Written(buf: array<char>, text: string, orig: seq<char>)
    reads buf
  {
    |text| <= |orig| && buf[..] == text + orig[|text|..]
  }

  method PutChar(buf: array<char>, offset: nat, c: char, ghost text: string, ghost orig: seq<char>)
    requires Written(buf, text, orig) && offset == |text| < buf.Length
    modifies buf
    ensures Written(buf, text + [c], orig)
  {
    buf[offset] := c;
  }

  method PutHexByte(buf: array<char>, offset: nat, byte: u8, ghost text: string, ghost orig: seq<char>)
    requires Written(buf, text, orig) && offset == |text| <= buf.Length - 2
    modifies buf
    ensures Written(buf, text + HexByte(byte), orig)
  {
    buf[offset] := HexUpper(byte / 16);
    buf[offset + 1] := HexUpper(byte % 16);
  }

  /** The loop of _put_id, on a buffer that starts at base. */
  method PutDigits(buf: array<char>, base: nat, n: nat, ident: u32)
    requires base + n <= buf.Length
    modifies buf
    ensures buf[base..base + n] == IdDigits(ident, n)
    ensures forall k :: 0 <= k < buf.Length && !(base <= k < base + n) ==> buf[k] == old(buf[k])
  {
    var end_offset: int := n - 1;
    var id: u32 := ident;
    while end_offset >= 0
      invariant -1 <= end_offset < n
      invariant IdDigits(ident, n) == IdDigits(id, end_offset + 1) + buf[base + end_offset + 1..base + n]
      invariant forall k :: 0 <= k < buf.Length && !(base <= k < base + n) ==> buf[k] == old(buf[k])
    {
      ghost var done := buf[base + end_offset + 1..base + n];
      buf[base + end_offset] := HexUpper(id % 16);
      assert buf[base + end_offset..base + n] == [HexUpper(id % 16)] + done;
      MoveDigit(id, end_offset + 1, done);
      id := id / 16;
      end_offset := end_offset - 1;
    }
  }

  lemma MoveDigit(id: nat, n: nat, done: string)
    requires n > 0
    ensures IdDigits(id, n) + done == IdDigits(id / 16, n - 1) + ([HexUpper(id % 16)] + done)
  {
  }

  lemma DigitsInPlace(now: string, text: string, orig: string, digits: string)
    requires |text| + |digits| <= |orig| == |now| && now[|text|..|text| + |digits|] == digits
    requires forall k :: 0 <= k < |now| && !(|text| <= k < |text| + |digits|) ==> now[k] == (text + orig[|text|..])[k]
    ensures now == text + digits + orig[|text + digits|..]
  {
    assert now == now[..|text|] + now[|text|..|text| + |digits|] + now[|text| + |digits|..];
    assert now[..|text|] == text;
  }

  /** Writes the n low digits of an identifier at buf[base..], last digit first. */
  method PutId(buf: array<char>, base: nat, n: nat, ident: u32, ghost text: string, ghost orig: seq<char>)
    requires Written(buf, text, orig) && base == |text| <= buf.Length - n
    modifies buf
    ensures Written(buf, text + IdDigits(ident, n), orig)
  {
    ghost var was, digits := buf[..], IdDigits(ident, n);
    PutDigits(buf, base, n, ident);
    ghost var now := buf[..];
    assert now[base..base + n] == digits;
    DigitsInPlace(now, text, orig, digits);
  }

  /** The text of the first i bytes, each followed by its separator if there is one. */
  ghost function Emitted(payload: seq<u8>, i: nat, sep: bool): string
    requires i <= |payload|
  {
    if i == 0 then ""
    else Emitted(payload, i - 1, sep) + HexByte(payload[i - 1]) + if sep && i < |payload| then "." else ""
  }

  lemma FourStrings(a: string, b: string, c: string, d: string)
    ensures a + b + c + d == a + (b + (c + d))
  {
  }

  lemma FirstByteText(rest: seq<u8>, sep: bool)
    requires rest != []
    ensures DataText(rest, sep)
            == HexByte(rest[0]) + ((if sep && |rest| > 1 then "." else "") + DataText(rest[1..], sep))
  {
    if |rest| == 1 {
      assert HexByte(rest[0]) == HexByte(rest[0]) + ("" + "");
    } else {
      DataTextStep(rest, sep);
    }
  }

  lemma {:induction false} EmittedRest(payload: seq<u8>, i: nat, sep: bool)
    requires i <= |payload|
    ensures Emitted(payload, i, sep) + DataText(payload[i..], sep) == DataText(payload, sep)
  {
    if i == 0 {
      assert payload[0..] == payload;
    } else {
      EmittedRest(payload, i - 1, sep);
      assert payload[i - 1..][1..] == payload[i..];
      FirstByteText(payload[i - 1..], sep);
      FourStrings(Emitted(payload, i - 1, sep), HexByte(payload[i - 1]), if sep && i < |payload| then "." else "",
                  DataText(payload[i..], sep));
    }
  }

  lemma EmittedStep(text: string, payload: seq<u8>, i: nat, sep: bool)
    requires i < |payload|
    ensures text + Emitted(payload, i + 1, sep)
            == (text + Emitted(payload, i, sep) + HexByte(payload[i])) + if sep && i + 1 < |payload| then "." else ""
    ensures |Emitted(payload, i + 1, sep)| <= |DataText(payload, sep)|
  {
    EmittedRest(payload, i + 1, sep);
  }

  lemma EmittedAll(payload: seq<u8>, sep: bool)
    ensures Emitted(payload, |payload|, sep) == DataText(payload, sep)
  {
    EmittedRest(payload, |payload|, sep);
    assert Emitted(payload, |payload|, sep) + "" == DataText(payload, sep);
  }

  /** The payload loop of sprint_canframe. */
  method PutPayload(buf: array<char>, start: nat, data: array<u8>, len: int, sep: bool,
                    ghost payload: seq<u8>, ghost text: string, ghost orig: seq<char>)
    returns (offset: nat)
    requires len <= data.Length && payload == if len <= 0 then [] else data[..len]
    requires Written(buf, text, orig) && start == |text|
    requires start + |DataText(payload, sep)| < buf.Length
    modifies buf
    ensures offset == |text + DataText(payload, sep)| && Written(buf, text + DataText(payload, sep), orig)
  {
    offset := start;
    var i := 0;
    assert text + "" == text;
    while i < len
      invariant 0 <= i <= |payload| && (len > 0 ==> |payload| == len)
      invariant forall k :: 0 <= k < |payload| ==> data[k] == payload[k]
      invariant offset == |text + Emitted(payload, i, sep)|
      invariant Written(buf, text + Emitted(payload, i, sep), orig)
    {
      EmittedStep(text, payload, i, sep);
      ghost var shown := text + Emitted(payload, i, sep);
      PutHexByte(buf, offset, data[i], shown, orig);
      offset := offset + 2;
      if sep && i + 1 < len {
        PutChar(buf, offset, '.', shown + HexByte(payload[i]), orig);
        offset := offset + 1;
      } else {
        assert shown + HexByte(payload[i]) + "" == shown + HexByte(payload[i]);
      }
      i := i + 1;
    }
    EmittedAll(payload, sep);
  }

  /** Writes the identifier digits. */
  method PutIdText(buf: array<char>, id: u32, ghost orig: seq<char>) returns (offset: nat)
    requires |IdText(id)| < buf.Length && buf[..] == orig
    modifies buf
    ensures offset == |IdText(id)| && Written(buf, IdText(id), orig)
  {
    assert Written(buf, "", orig);
    if HasErr(id) {
      PutId(buf, 0, 8, LowBits(id, CAN_ERR_MASK + CAN_ERR_FLAG), "", orig);
      offset := 8;
    } else if HasEff(id) {
      PutId(buf, 0, 8, LowBits(id, CAN_EFF_MASK), "", orig);
      offset := 8;
    } else {
      PutId(buf, 0, 3, LowBits(id, CAN_SFF_MASK), "", orig);
      offset := 3;
    }
    assert "" + IdText(id) == IdText(id);
  }

  /** Writes 'R' and the length code if it is not zero. */
  method PutRemote(buf: array<char>, start: nat, len: u8, ghost text: string, ghost orig: seq<char>)
    returns (offset: nat)
    requires Written(buf, text, orig) && start == |text| <= buf.Length - 2
    modifies buf
    ensures var shown := text + ("R" + if 1 <= len <= CAN_MAX_DLC then [HexUpper(len)] else "");
            offset == |shown| && Written(buf, shown, orig)
  {
    PutChar(buf, start, 'R', text, orig);
    offset := start + 1;
    assert text + "R" == text + ("R" + "");
    if len != 0 && len <= CAN_MAX_DLC {
      PutChar(buf, offset, HexUpper(len % 16), text + "R", orig);
      offset := offset + 1;
      assert text + "R" + [HexUpper(len)] == text + ("R" + [HexUpper(len)]);
    }
  }

  /** Writes the CAN FD escape, the flags and the separator before the payload. */
  method PutFdEscape(buf: array<char>, start: nat, flags: u8, dot: bool, ghost text: string, ghost orig: seq<char>)
    returns (offset: nat)
    requires Written(buf, text, orig) && start == |text| <= buf.Length - 3
    modifies buf
    ensures var shown := text + ("#" + [HexUpper(flags % 16)] + if dot then "." else "");
            offset == |shown| && Written(buf, shown, orig)
  {
    PutChar(buf, start, '#', text, orig);
    PutChar(buf, start + 1, HexUpper(flags % 16), text + "#", orig);
    offset := start + 2;
    ghost var shown := text + "#" + [HexUpper(flags % 16)];
    assert shown == text + ("#" + [HexUpper(flags % 16)] + "");
    if dot {
      PutChar(buf, offset, '.', shown, orig);
      offset := offset + 1;
      assert shown + "." == text + ("#" + [HexUpper(flags % 16)] + ".");
    }
  }

  lemma BodyParts(text: string, f: CanFrame, sep: bool, maxdlen: int)
    requires ClampedLen(f, maxdlen) <= 64 && !(maxdlen == CAN_MAX_DLEN && HasRtr(f.id))
    ensures var payload := Payload(f, maxdlen);
            var escape := "#" + [HexUpper(f.flags % 16)] + if sep && payload != [] then "." else "";
            text + BodyText(f, sep, maxdlen)
            == (if maxdlen == CANFD_MAX_DLEN then text + escape else text) + DataText(payload, sep)
  {
  }

  /** Writes the escape of CAN FD, and the payload. */
  method PutData(buf: array<char>, start: nat, cf: CanfdFrame, sep: bool, maxdlen: int,
                 ghost f: CanFrame, ghost text: string, ghost orig: seq<char>)
    returns (offset: nat)
    requires cf.Valid() && f == cf.Value() && ClampedLen(f, maxdlen) <= 64
    requires !(maxdlen == CAN_MAX_DLEN && HasRtr(f.id))
    requires Written(buf, text, orig) && start == |text|
    requires |text + BodyText(f, sep, maxdlen)| < buf.Length
    modifies buf
    ensures var shown := text + BodyText(f, sep, maxdlen); offset == |shown| && Written(buf, shown, orig)
  {
    var len := if cf.len > maxdlen then maxdlen else cf.len;
    ghost var payload, head := Payload(f, maxdlen), text;
    BodyParts(text, f, sep, maxdlen);
    offset := start;
    if maxdlen == CANFD_MAX_DLEN {
      offset := PutFdEscape(buf, offset, cf.flags, sep && len != 0, text, orig);
      head := text + ("#" + [HexUpper(f.flags % 16)] + if sep && payload != [] then "." else "");
    }
    offset := PutPayload(buf, offset, cf.data, len, sep, payload, head, orig);
  }

  /** Writes everything after the first '#'. */
  method PutBody(buf: array<char>, start: nat, cf: CanfdFrame, sep: bool, maxdlen: int,
                 ghost f: CanFrame, ghost text: string, ghost orig: seq<char>)
    returns (offset: nat)
    requires cf.Valid() && f == cf.Value() && ClampedLen(f, maxdlen) <= 64
    requires Written(buf, text, orig) && start == |text|
    requires |text + BodyText(f, sep, maxdlen)| < buf.Length
    modifies buf
    ensures var shown := text + BodyText(f, sep, maxdlen); offset == |shown| && Written(buf, shown, orig)
  {
    if maxdlen == CAN_MAX_DLEN && HasRtr(cf.can_id) {
      offset := PutRemote(buf, start, cf.len, text, orig);
    } else {
      offset := PutData(buf, start, cf, sep, maxdlen, f, text, orig);
    }
  }

  /** Writes the compact form and its terminator at the start of buf, nothing past it. */
  method SprintCanframe(buf: array<char>, cf: CanfdFrame, sep: bool, maxdlen: int)
    requires cf.Valid() && ClampedLen(cf.Value(), maxdlen) <= 64
    requires |CompactText(cf.Value(), sep, maxdlen)| < buf.Length
    modifies buf
    ensures Written(buf, CompactText(old(cf.Value()), sep, maxdlen) + "\0", old(buf[..]))
  {
    ghost var f, orig := cf.Value(), buf[..];
    var offset := PutIdText(buf, cf.can_id, orig);
    PutChar(buf, offset, '#', IdText(f.id), orig);
    assert cf.Value() == f;
    offset := PutBody(buf, offset + 1, cf, sep, maxdlen, f, IdText(f.id) + "#", orig);
    PutChar(buf, offset, '\0', CompactText(f, sep, maxdlen), orig);
  }
}
