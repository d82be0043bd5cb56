/** What the compact text form means, in terms of characters and numbers alone: the digits,
    the grammar that is accepted, the layout that is printed, and the documented examples. */
module CanMeaning {
  import opened Arith
  import opened Common
  import opened CanText

  const HEX := "0123456789ABCDEF"

  function ToUpper(c: char): char {
    if 'a' <= c <= 'z' then (c as int - 'a' as int + 'A' as int) as char else c
  }

  function Upper(s: string): (r: string)
    ensures |r| == |s| && forall i :: 0 <= i < |s| ==> r[i] == ToUpper(s[i])
  {
    seq(|s|, i requires 0 <= i < |s| => ToUpper(s[i]))
  }

  // ----- digits

  /** The hexadecimal characters and their values. */
  lemma DigitValues(c: char)
    ensures IsHex(c) <==> c in "0123456789ABCDEFabcdef"
    ensures IsHex(c) ==> Asc2Nibble(c) < 16 && HEX[Asc2Nibble(c)] == ToUpper(c)
    ensures !IsHex(c) ==> Asc2Nibble(c) == 16
  {
    HexCharacters(c);
  }

  lemma HexCharacters(c: char)
    ensures c in "0123456789ABCDEFabcdef" <==> '0' <= c <= '9' || 'A' <= c <= 'F' || 'a' <= c <= 'f'
  {
    var all := "0123456789ABCDEFabcdef";
    if '0' <= c <= '9' {
      assert all[c as int - '0' as int] == c;
    } else if 'A' <= c <= 'F' {
      assert all[c as int - 'A' as int + 10] == c;
    } else if 'a' <= c <= 'f' {
      assert all[c as int - 'a' as int + 16] == c;
    }
  }

  lemma PrintedDigit(n: nat)
    requires n < 16
    ensures HexUpper(n) == HEX[n]
  {
  }

  /** The k-th digit stands for its power of sixteen. */
  lemma {:induction false} DigitWeight(digits: string, k: nat)
    requires AllHex(digits) && k < |digits|
    ensures IdValue(digits) / Pow16(|digits| - 1 - k) % 16 == Asc2Nibble(digits[k])
  {
    var n := |digits| - 1;
    var init := digits[..n];
    if k == n {
      assert Pow16(0) == 1;
    } else {
      DigitWeight(init, k);
      ShiftDigit(IdValue(init), Asc2Nibble(digits[n]), Pow16(n - 1 - k));
      assert init[k] == digits[k];
    }
  }

  lemma ShiftDigit(v: nat, t: nat, p: nat)
    requires t < 16 && p > 0
    ensures (16 * v + t) / (16 * p) == v / p
  {
    var q, r := v / p, v % p;
    assert 16 * v + t == (16 * p) * q + (16 * r + t);
    DivModUnique(16 * v + t, 16 * p, q, 16 * r + t);
  }

  // ----- letter case

  lemma UpperDigit(c: char)
    ensures Asc2Nibble(ToUpper(c)) == Asc2Nibble(c)
  {
  }

  lemma UpperParts(s: string, i: nat)
    requires i <= |s|
    ensures Upper(s)[..i] == Upper(s[..i]) && Upper(s)[i..] == Upper(s[i..])
  {
  }

  lemma {:induction false} UpperId(digits: string)
    ensures AllHex(Upper(digits)) <==> AllHex(digits)
    ensures AllHex(digits) ==> IdValue(Upper(digits)) == IdValue(digits)
  {
    forall i | 0 <= i < |digits| ensures IsHex(Upper(digits)[i]) <==> IsHex(digits[i]) {
      UpperDigit(digits[i]);
    }
    if digits == "" {
    } else {
      var n := |digits| - 1;
      UpperDigit(digits[n]);
      UpperId(digits[..n]);
      UpperParts(digits, n);
    }
  }

  lemma UpperSkip(s: string)
    ensures SkipDot(Upper(s)) == Upper(SkipDot(s))
  {
    if s != "" && s[0] == '.' {
      UpperParts(s, 1);
    }
  }

  lemma {:induction false} UpperScan(s: string, room: nat)
    ensures ScanData(Upper(s), room) == ScanData(s, room)
    decreases room
  {
    if room == 0 {
    } else {
      var t := SkipDot(s);
      UpperSkip(s);
      if |t| >= 2 {
        UpperDigit(t[0]);
        UpperDigit(t[1]);
        UpperParts(t, 2);
        UpperScan(t[2..], room - 1);
      }
    }
  }

  lemma UpperBody(id: u32, s: string)
    ensures ParseBody(id, Upper(s)) == ParseBody(id, s)
  {
    if IsRemote(s) {
      UpperParts(s, 1);
      if |s| > 1 {
        UpperDigit(s[1]);
      }
    } else if s != "" && s[0] == '#' {
      if |s| >= 2 {
        UpperDigit(s[1]);
        UpperParts(s, 2);
        UpperScan(s[2..], CANFD_MAX_DLEN);
      }
    } else {
      UpperScan(s, CAN_MAX_DLEN);
    }
  }

  /** Letter case makes no difference to the parser. */
  lemma CaseIsFree(cs: string)
    ensures ParseText(Upper(cs)) == ParseText(cs)
  {
    if |cs| < 4 {
    } else if cs[3] == '#' {
      UpperParts(cs, 3);
      UpperParts(cs, 4);
      UpperId(cs[..3]);
      if AllHex(cs[..3]) {
        UpperBody(IdWord(cs[..3]), cs[4..]);
      }
    } else if |cs| > 8 && cs[8] == '#' {
      UpperParts(cs, 8);
      UpperParts(cs, 9);
      UpperId(cs[..8]);
      if AllHex(cs[..8]) {
        UpperBody(ExtendedId(IdWord(cs[..8])), cs[9..]);
      }
    }
  }

  // ----- payload text

  /** One byte of the payload text, with a '.' before it or not. */
  datatype Piece = Piece(dot: bool, hi: char, lo: char)

  predicate HexPiece(p: Piece) {
    IsHex(p.hi) && IsHex(p.lo)
  }

  function Text(ps: seq<Piece>): string {
    if ps == [] then "" else (if ps[0].dot then "." else "") + [ps[0].hi, ps[0].lo] + Text(ps[1..])
  }

  predicate HexPieces(ps: seq<Piece>) {
    forall i | 0 <= i < |ps| :: HexPiece(ps[i])
  }

  /** The bytes that the pieces spell: sixteen times the first digit, and the second. */
  function Spelt(ps: seq<Piece>): (r: seq<u8>)
    requires HexPieces(ps)
    ensures |r| == |ps|
    ensures forall i :: 0 <= i < |ps| ==> r[i] == 16 * Asc2Nibble(ps[i].hi) + Asc2Nibble(ps[i].lo)
  {
    seq(|ps|, i requires 0 <= i < |ps| => 16 * Asc2Nibble(ps[i].hi) + Asc2Nibble(ps[i].lo))
  }

  /** The text is such pieces, at most room of them; only when there are fewer must it end
      there, but for one more '.'. */
  predicate PayloadText(s: string, room: nat, ps: seq<Piece>, tail: string) {
    && HexPieces(ps) && s == Text(ps) + tail && |ps| <= room
    && (|ps| == room || tail == "" || tail == ".")
  }

  lemma NoPieces(tail: string, room: nat)
    requires room == 0 || tail == "" || tail == "."
    ensures ScanData(tail, room) == Some([])
  {
    assert tail == "." ==> tail[1..] == "";
  }

  lemma PieceScanned(s: string, p: Piece, rest: string, room: nat)
    requires HexPiece(p) && p.hi != '.' && room > 0
    requires s == (if p.dot then "." else "") + ([p.hi, p.lo] + rest)
    ensures ScanData(s, room)
            == var more := ScanData(rest, room - 1);
               if more.None? then None else Some([16 * Asc2Nibble(p.hi) + Asc2Nibble(p.lo)] + more.value)
  {
    var t := [p.hi, p.lo] + rest;
    assert SkipDot(s) == t;
    assert t[2..] == rest;
  }

  lemma FirstPiece(ps: seq<Piece>, tail: string)
    requires ps != []
    ensures Text(ps) + tail == (if ps[0].dot then "." else "") + ([ps[0].hi, ps[0].lo] + (Text(ps[1..]) + tail))
  {
  }

  lemma FirstSpelt(ps: seq<Piece>)
    requires HexPieces(ps) && ps != []
    ensures Spelt(ps) == [16 * Asc2Nibble(ps[0].hi) + Asc2Nibble(ps[0].lo)] + Spelt(ps[1..])
  {
  }

  lemma HexIsNoDot(c: char)
    requires IsHex(c)
    ensures c != '.'
  {
  }

  lemma RestIsText(s: string, room: nat, ps: seq<Piece>, tail: string)
    requires PayloadText(s, room, ps, tail) && ps != []
    ensures PayloadText(Text(ps[1..]) + tail, room - 1, ps[1..], tail)
  {
  }

  lemma PiecesStep(s: string, room: nat, ps: seq<Piece>, tail: string)
    requires HexPieces(ps) && ps != [] && room > 0 && s == Text(ps) + tail
    requires ScanData(Text(ps[1..]) + tail, room - 1) == Some(Spelt(ps[1..]))
    ensures ScanData(s, room) == Some(Spelt(ps))
  {
    HexIsNoDot(ps[0].hi);
    FirstPiece(ps, tail);
    PieceScanned(s, ps[0], Text(ps[1..]) + tail, room);
    FirstSpelt(ps);
  }

  lemma {:induction false} PiecesAreScanned(s: string, room: nat, ps: seq<Piece>, tail: string)
    requires PayloadText(s, room, ps, tail)
    ensures ScanData(s, room) == Some(Spelt(ps))
    decreases |ps|
  {
    if ps == [] {
      assert s == tail;
      NoPieces(s, room);
    } else {
      RestIsText(s, room, ps, tail);
      PiecesAreScanned(Text(ps[1..]) + tail, room - 1, ps[1..], tail);
      PiecesStep(s, room, ps, tail);
    }
  }

  lemma OneMorePiece(s: string, room: nat, p: Piece, rest: string, ps: seq<Piece>, tail: string)
    requires room > 0 && HexPiece(p) && s == (if p.dot then "." else "") + ([p.hi, p.lo] + rest)
    requires PayloadText(rest, room - 1, ps, tail)
    ensures PayloadText(s, room, [p] + ps, tail)
  {
    FirstPiece([p] + ps, tail);
    assert ([p] + ps)[1..] == ps;
  }

  /** The first piece of a text that is scanned. */
  lemma FirstScanned(s: string, room: nat) returns (p: Piece, rest: string)
    requires room > 0 && ScanData(s, room).Some? && SkipDot(s) != ""
    ensures HexPiece(p) && s == (if p.dot then "." else "") + ([p.hi, p.lo] + rest)
    ensures ScanData(rest, room - 1).Some?
  {
    var t := SkipDot(s);
    p, rest := Piece(s[0] == '.', t[0], t[1]), t[2..];
    assert t == [p.hi, p.lo] + rest;
    assert s == (if p.dot then "." else "") + t;
  }

  lemma {:induction false} ScannedInPieces(s: string, room: nat) returns (ps: seq<Piece>, tail: string)
    requires ScanData(s, room).Some?
    ensures PayloadText(s, room, ps, tail)
    decreases room
  {
    if room == 0 || SkipDot(s) == "" {
      ps, tail := [], s;
      assert s == "" + s;
      assert room > 0 ==> s == "" || s == ".";
    } else {
      var p, rest := FirstScanned(s, room);
      ps, tail := ScannedInPieces(rest, room - 1);
      OneMorePiece(s, room, p, rest, ps, tail);
      ps := [p] + ps;
    }
  }

  /** The payload loop reads exactly the payload texts, and as the bytes they spell. */
  lemma PayloadMeans(s: string, room: nat, payload: seq<u8>)
    ensures ScanData(s, room) == Some(payload)
            <==> exists ps, tail :: PayloadText(s, room, ps, tail) && payload == Spelt(ps)
  {
    if ScanData(s, room) == Some(payload) {
      var ps, tail := ScannedInPieces(s, room);
      PiecesAreScanned(s, room, ps, tail);
    }
    if ps, tail :| PayloadText(s, room, ps, tail) && payload == Spelt(ps) {
      PiecesAreScanned(s, room, ps, tail);
    }
  }

  // ----- the grammar

  /** The identifier word of the digits: three give a standard identifier; eight give an error
      identifier if bit 29 is set, and an extended one, with bit 31, if not. */
  function Identifier(digits: string): u32
    requires (|digits| == 3 || |digits| == 8) && AllHex(digits)
  {
    IdValueRange(digits);
    Pow16Values();
    var v := IdValue(digits);
    if |digits| == 3 || v / 0x2000_0000 % 2 == 1 || v >= 0x8000_0000 then v else v + 0x8000_0000
  }

  /** A string is an identifier and a body, with the first '#' between them. */
  predicate Split(cs: string, digits: string, body: string) {
    (|digits| == 3 || |digits| == 8) && AllHex(digits) && cs == digits + "#" + body
  }

  lemma SplitParses(cs: string, digits: string, body: string)
    requires Split(cs, digits, body)
    ensures ParseText(cs) == ParseBody(Identifier(digits), body)
  {
    if |digits| == 3 {
      ParseShortId(digits, body);
    } else {
      ParseLongId(digits, body);
    }
  }

  lemma AcceptedSplits(cs: string) returns (digits: string, body: string)
    requires ParseText(cs).Some?
    ensures Split(cs, digits, body)
  {
    var n := if cs[3] == '#' then 3 else 8;
    digits, body := cs[..n], cs[n + 1..];
    assert cs == digits + [cs[n]] + body;
  }

  /** A body is a remote request, a CAN FD body, or a classic payload. */
  lemma RemoteBody(id: u32, s: string, p: Parsed)
    requires s != "" && (s[0] == 'R' || s[0] == 'r')
    ensures ParseBody(id, s) == Some(p) <==>
            && p.mtu == 16 && p.frame.id == (if id / 0x4000_0000 % 2 == 1 then id else id + 0x4000_0000)
            && p.frame.len == (if |s| > 1 && '0' <= s[1] <= '8' then s[1] as int - '0' as int else 0)
            && p.frame.flags == 0 && forall k | 0 <= k < 64 :: p.frame.data[k] == 0
  {
    var zero := Pad([]);
    if forall k | 0 <= k < 64 :: p.frame.data[k] == 0 {
      assert p.frame.data == zero;
    }
    assert |s| > 1 ==> s[1..][0] == s[1];
  }

  predicate CarriesPayload(p: Parsed, payload: seq<u8>) {
    p.frame.len == |payload| <= 64 && p.frame.data[..|payload|] == payload
    && forall k | |payload| <= k < 64 :: p.frame.data[k] == 0
  }

  lemma Carried(p: Parsed, payload: seq<u8>)
    requires |payload| <= 64
    ensures CarriesPayload(p, payload) <==> p.frame.len == |payload| && p.frame.data == Pad(payload)
  {
    var q := Pad(payload);
    if CarriesPayload(p, payload) {
      forall k | 0 <= k < 64 ensures p.frame.data[k] == q[k] {
        if k < |payload| {
          assert p.frame.data[k] == p.frame.data[..|payload|][k] == q[..|payload|][k];
        }
      }
      assert p.frame.data == q;
    }
  }

  lemma ClassicBody(id: u32, s: string, p: Parsed)
    requires s == "" || (s[0] != 'R' && s[0] != 'r' && s[0] != '#')
    ensures ParseBody(id, s) == Some(p) <==>
            && p.mtu == 16 && p.frame.id == id && p.frame.flags == 0
            && exists ps, tail :: PayloadText(s, 8, ps, tail) && CarriesPayload(p, Spelt(ps))
  {
    BodyPayload(16, id, 0, s, 8, p);
  }

  lemma FdBodyMeans(id: u32, s: string, p: Parsed)
    requires |s| >= 1 && s[0] == '#'
    ensures ParseBody(id, s) == Some(p) <==>
            && p.mtu == 72 && p.frame.id == id && |s| >= 2 && s[1] in "0123456789ABCDEFabcdef"
            && p.frame.flags == Asc2Nibble(s[1])
            && exists ps, tail :: PayloadText(s[2..], 64, ps, tail) && CarriesPayload(p, Spelt(ps))
  {
    if |s| >= 2 {
      DigitValues(s[1]);
      if IsHex(s[1]) {
        BodyPayload(72, id, Asc2Nibble(s[1]), s[2..], 64, p);
      }
    }
  }

  lemma BodyPayload(mtu: nat, id: u32, flags: u8, s: string, room: nat, p: Parsed)
    requires room <= 64
    ensures PayloadFrame(mtu, id, flags, s, room) == Some(p) <==>
            && p.mtu == mtu && p.frame.id == id && p.frame.flags == flags
            && exists ps, tail :: PayloadText(s, room, ps, tail) && CarriesPayload(p, Spelt(ps))
  {
    var scan := ScanData(s, room);
    if scan.Some? {
      PayloadMeans(s, room, scan.value);
      Carried(p, scan.value);
    }
    forall ps, tail | PayloadText(s, room, ps, tail) ensures scan == Some(Spelt(ps)) {
      PiecesAreScanned(s, room, ps, tail);
    }
  }
}
