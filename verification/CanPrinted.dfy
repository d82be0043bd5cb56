/** What the two printers write, character by character, and the documented examples of both
    directions. */
module CanPrinted {
  import opened Arith
  import opened Common
  import opened CanText
  import opened CanMeaning

  // ----- the compact form

  predicate UpperHex(c: char) {
    '0' <= c <= '9' || 'A' <= c <= 'F'
  }

  lemma {:induction false} IdDigitsUpper(id: nat, n: nat, k: nat)
    requires k < n
    ensures UpperHex(IdDigits(id, n)[k])
  {
    if k == n - 1 {
    } else {
      IdDigitsUpper(id / 16, n - 1, k);
    }
  }

  /** The identifier is printed in upper-case digits: eight for an error identifier (bit 29,
      which is printed too) and an extended one (bit 31), three for a standard one. */
  lemma PrintedId(id: u32)
    ensures var err, ext := id / 0x2000_0000 % 2 == 1, id >= 0x8000_0000;
            && |IdText(id)| == (if err || ext then 8 else 3)
            && (forall k | 0 <= k < |IdText(id)| :: UpperHex(IdText(id)[k]))
            && AllHex(IdText(id))
            && IdValue(IdText(id)) == if err then id % 0x4000_0000 else if ext then id % 0x2000_0000 else id % 0x800
  {
    var err, ext := id / 0x2000_0000 % 2 == 1, id >= 0x8000_0000;
    var v := if err then id % 0x4000_0000 else if ext then id % 0x2000_0000 else id % 0x800;
    var n := if err || ext then 8 else 3;
    Pow16Values();
    IdDigitsValue(v, n);
    assert IdText(id) == IdDigits(v, n);
    forall k | 0 <= k < n ensures UpperHex(IdDigits(v, n)[k]) {
      IdDigitsUpper(v, n, k);
    }
  }

  /** Columns of one byte. */
  function Step(sep: bool): nat {
    if sep then 3 else 2
  }

  lemma {:induction false} DataLength(payload: seq<u8>, sep: bool)
    ensures |DataText(payload, sep)| == if payload == [] then 0 else Step(sep) * |payload| - (Step(sep) - 2)
    decreases |payload|
  {
    if |payload| <= 1 {
    } else {
      DataLength(payload[1..], sep);
      DataTextStep(payload, sep);
    }
  }

  predicate ByteAt(text: string, at: nat, b: u8, dotted: bool) {
    && at + 2 <= |text| && text[at] == HEX[b / 16] && text[at + 1] == HEX[b % 16]
    && (dotted ==> at + 2 < |text| && text[at + 2] == '.')
  }

  lemma FirstPrinted(payload: seq<u8>, sep: bool)
    requires payload != []
    ensures ByteAt(DataText(payload, sep), 0, payload[0], sep && |payload| > 1)
  {
    PrintedDigit(payload[0] / 16);
    PrintedDigit(payload[0] % 16);
    if |payload| > 1 {
      DataTextStep(payload, sep);
    }
  }

  lemma ShiftedByte(front: string, back: string, at: nat, b: u8, dotted: bool)
    requires ByteAt(back, at, b, dotted)
    ensures ByteAt(front + back, |front| + at, b, dotted)
  {
  }

  /** Byte i stands at column 3i with separators and 2i without, its high digit first, and a
      '.' between it and the next. */
  lemma {:induction false} PrintedByte(payload: seq<u8>, sep: bool, i: nat)
    requires i < |payload|
    ensures ByteAt(DataText(payload, sep), Step(sep) * i, payload[i], sep && i + 1 < |payload|)
    decreases i
  {
    if i == 0 {
      FirstPrinted(payload, sep);
    } else {
      var front := HexByte(payload[0]) + if sep then "." else "";
      PrintedByte(payload[1..], sep, i - 1);
      ShiftedByte(front, DataText(payload[1..], sep), Step(sep) * (i - 1), payload[i], sep && i + 1 < |payload|);
      FrontOfData(payload, sep);
      assert Step(sep) * i == |front| + Step(sep) * (i - 1);
    }
  }

  lemma FrontOfData(payload: seq<u8>, sep: bool)
    requires |payload| > 1
    ensures DataText(payload, sep) == HexByte(payload[0]) + (if sep then "." else "") + DataText(payload[1..], sep)
  {
    DataTextStep(payload, sep);
  }

  /** The text after the first '#': a remote request with its length code if it is 1 to 8; the
      CAN FD escape, the flags and the payload; or the payload alone. */
  lemma PrintedBody(f: CanFrame, sep: bool, maxdlen: int)
    requires maxdlen == 8 || maxdlen == 64
    ensures var n := if f.len > maxdlen then maxdlen else f.len;
            var payload := f.data[..n];
            BodyText(f, sep, maxdlen)
            == if maxdlen == 8 && f.id / 0x4000_0000 % 2 == 1 then
                 (if 1 <= f.len <= 8 then ['R', HEX[f.len]] else "R")
               else if maxdlen == 64 then
                 ['#', HEX[f.flags % 16]] + (if sep && n > 0 then "." else "") + DataText(payload, sep)
               else DataText(payload, sep)
  {
    PrintedDigit(f.flags % 16);
    if f.len <= 8 {
      PrintedDigit(f.len);
    }
    assert f.data[..0] == [];
  }

  lemma PrintedText(f: CanFrame, sep: bool, maxdlen: int)
    requires maxdlen == 8 || maxdlen == 64
    ensures CompactText(f, sep, maxdlen) == IdText(f.id) + "#" + BodyText(f, sep, maxdlen)
  {
  }

  // ----- documented examples

  /** A frame by its identifier, flags and payload. */
  function Plain(id: u32, flags: u8, payload: seq<u8>): CanFrame
    requires |payload| <= 64
  {
    Frame(id, |payload|, flags, Pad(payload))
  }

  lemma ThreeDigits(a: char, b: char, c: char)
    requires IsHex(a) && IsHex(b) && IsHex(c)
    ensures AllHex([a, b, c]) && IdValue([a, b, c]) == 256 * Asc2Nibble(a) + 16 * Asc2Nibble(b) + Asc2Nibble(c)
  {
    assert [a, b, c][..2] == [a, b] && [a, b][..1] == [a] && [a][..0] == "";
    assert IdValue([a]) == Asc2Nibble(a);
    assert IdValue([a, b]) == 16 * Asc2Nibble(a) + Asc2Nibble(b);
  }

  lemma EightDigits(s: string)
    requires |s| == 8 && AllHex(s)
    ensures IdValue(s) == 0x1000_0000 * Asc2Nibble(s[0]) + 0x100_0000 * Asc2Nibble(s[1]) + 0x10_0000 * Asc2Nibble(s[2])
                          + 0x1_0000 * Asc2Nibble(s[3]) + 0x1000 * Asc2Nibble(s[4]) + 0x100 * Asc2Nibble(s[5])
                          + 0x10 * Asc2Nibble(s[6]) + Asc2Nibble(s[7])
  {
    Digits4(s[..4]);
    var four := s[..4];
    var five, six, seven := s[..5], s[..6], s[..7];
    assert five[..4] == four && six[..5] == five && seven[..6] == six && s[..7] == seven;
    assert IdValue(five) == 16 * IdValue(four) + Asc2Nibble(s[4]);
    assert IdValue(six) == 16 * IdValue(five) + Asc2Nibble(s[5]);
    assert IdValue(seven) == 16 * IdValue(six) + Asc2Nibble(s[6]);
  }

  lemma Digits4(s: string)
    requires |s| == 4 && AllHex(s)
    ensures IdValue(s) == 0x1000 * Asc2Nibble(s[0]) + 0x100 * Asc2Nibble(s[1])
                          + 0x10 * Asc2Nibble(s[2]) + Asc2Nibble(s[3])
  {
    ThreeDigits(s[0], s[1], s[2]);
    assert s[..3] == [s[0], s[1], s[2]];
  }

  lemma Id123(body: string)
    ensures ParseText("123#" + body) == ParseBody(0x123, body)
  {
    ThreeDigits('1', '2', '3');
    assert "123" == ['1', '2', '3'];
    assert "123#" + body == "123" + "#" + body;
    SplitParses("123#" + body, "123", body);
  }

  /** 123#, 123#R, 123#R0, 123#R7 and 7A1#r. */
  lemma RemoteExamples()
    ensures ParseText("123#") == Some(Parsed(16, Plain(0x123, 0, [])))
    ensures ParseText("123#R") == ParseText("123#R0") == Some(Parsed(16, Plain(0x4000_0123, 0, [])))
    ensures ParseText("123#R7") == Some(Parsed(16, Frame(0x4000_0123, 7, 0, Pad([]))))
    ensures ParseText("7A1#r") == Some(Parsed(16, Plain(0x4000_07A1, 0, [])))
  {
    Id123("");
    Id123("R");
    Id123("R0");
    Id123("R7");
    assert "123#" == "123#" + "" && "123#R" == "123#" + "R" && "123#R0" == "123#" + "R0" && "123#R7" == "123#" + "R7";
    ThreeDigits('7', 'A', '1');
    assert "7A1" == ['7', 'A', '1'];
    assert "7A1#r" == "7A1" + "#" + "r";
    SplitParses("7A1#r", "7A1", "r");
    assert "R"[1..] == "" && "R0"[1..] == "0" && "R7"[1..] == "7" && "r"[1..] == "";
    assert ScanData("", 8) == Some([]);
  }

  lemma Long(digits: string)
    requires digits == "12345678" || digits == "32345678"
    ensures |digits| == 8 && AllHex(digits)
    ensures Identifier(digits) == if digits[0] == '1' then 0x9234_5678 else 0x3234_5678
  {
    EightDigits(digits);
  }

  /** 12345678# is an extended identifier. */
  lemma ExtendedExample(digits: string)
    requires digits == "12345678"
    ensures ParseText(digits + "#") == Some(Parsed(16, Plain(0x9234_5678, 0, [])))
  {
    Long(digits);
    assert digits + "#" == digits + "#" + "";
    SplitParses(digits + "#", digits, "");
    assert ScanData("", 8) == Some([]);
  }

  /** 32345678#112233 is an error frame. */
  lemma ErrorExample(digits: string, body: string)
    requires digits == "32345678" && body == "112233"
    ensures ParseText(digits + "#" + body) == Some(Parsed(16, Plain(0x3234_5678, 0, [0x11, 0x22, 0x33])))
  {
    Long(digits);
    SplitParses(digits + "#" + body, digits, body);
    ThreeBytes(false, 8);
  }

  /** 11, 22 and 33 with and without dots. */
  lemma ThreeBytes(sep: bool, room: nat)
    requires room >= 4
    ensures ScanData(if sep then "11.22.33" else "112233", room) == Some([0x11, 0x22, 0x33])
  {
    var payload := [0x11, 0x22, 0x33];
    assert payload[1..] == [0x22, 0x33] && payload[1..][1..] == [0x33];
    assert DataText([0x33], sep) == "33";
    assert DataText([0x22, 0x33], sep) == if sep then "22.33" else "2233";
    assert DataText(payload, sep) == if sep then "11.22.33" else "112233";
    ScanDataText(payload, sep, room);
  }

  /** 123##1112233 has the flag CANFD_BRS, and so on for the other flags. */
  lemma FdExample(flag: char, payload: string)
    requires IsHex(flag) && payload == "112233"
    ensures ParseText("123##" + [flag] + payload)
            == Some(Parsed(72, Plain(0x123, Asc2Nibble(flag), [0x11, 0x22, 0x33])))
  {
    var body := "#" + [flag] + payload;
    Id123(body);
    assert "123##" + [flag] + payload == "123#" + body;
    assert body[2..] == payload;
    ThreeBytes(false, 64);
  }
}
