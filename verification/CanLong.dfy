/** The column-aligned form of CAN frames (sprint_long_canframe): the printer, in place,
    and the fixed columns it promises. */
module CanLong {
  import opened Common
  import opened CanText
  import opened CanCodec

  /** The CANLIB_VIEW flags. */
  datatype View = View(ascii: bool, binary: bool, swap: bool, indentSff: bool)

  const SWAP_DELIMITER := '`'

  function Spaces(n: nat): (s: string)
    ensures |s| == n
  {
    seq(n, _ => ' ')
  }

  /** Bit j of a byte: 1 << j & b. */
  function Bit(b: u8, j: nat): char {
    if b / Pow2(j) % 2 == 1 then '1' else '0'
  }

  /** Eight binary digits, most significant first. */
  function BinByte(b: u8): (s: string)
    ensures |s| == 8
  {
    seq(8, p requires 0 <= p < 8 => Bit(b, 7 - p))
  }

  function Token(b: u8, view: View): (s: string)
    ensures |s| == TokenWidth(view) - 1
  {
    if view.binary then BinByte(b) else HexByte(b)
  }

  /** Columns of one byte with its delimiter: _10101010 or _AA. */
  function TokenWidth(view: View): nat {
    if view.binary then 9 else 3
  }

  function HeadWidth(id: u32, view: View): nat {
    if HasErr(id) || HasEff(id) || view.indentSff then 15 else 10
  }

  /** Identifier and length columns. */
  function HeadText(id: u32, len: nat, view: View, maxdlen: nat): (s: string)
    requires len <= 64
    ensures |s| == HeadWidth(id, view)
  {
    LongIdText(id, view) + LengthText(len, maxdlen)
  }

  function LengthText(len: nat, maxdlen: nat): (s: string)
    requires len <= 64
    ensures |s| == 5
  {
    if maxdlen == CAN_MAX_DLEN then " [" + [('0' as int + len) as char] + "] "
    else "[" + [('0' as int + len / 10) as char, ('0' as int + len % 10) as char] + "] "
  }

  /** The bytes in the order they are shown. */
  function Shown(payload: seq<u8>, view: View): (r: seq<u8>)
    ensures |r| == |payload|
  {
    if view.swap then seq(|payload|, k requires 0 <= k < |payload| => payload[|payload| - 1 - k]) else payload
  }

  function Delimiter(k: nat, view: View): char {
    if view.swap && k > 0 then SWAP_DELIMITER else ' '
  }

  /** The data region of the first n shown bytes. */
  function Region(shown: seq<u8>, n: nat, view: View): string
    requires n <= |shown|
  {
    if n == 0 then "" else Region(shown, n - 1, view) + [Delimiter(n - 1, view)] + Token(shown[n - 1], view)
  }

  function Printable(b: u8): char {
    if 0x1F < b < 0x7F then b as char else '.'
  }

  function Ascii(shown: seq<u8>): (s: string)
    ensures |s| == |shown|
  {
    seq(|shown|, k requires 0 <= k < |shown| => Printable(shown[k]))
  }

  function Quote(view: View): char {
    if view.swap then SWAP_DELIMITER else '\''
  }

  /** The text right-justified in the given width. */
  function PadLeft(w: nat, s: string): string {
    if |s| < w then Spaces(w - |s|) + s else s
  }

  /** What follows the data region. */
  function TailText(id: u32, shown: seq<u8>, view: View): string
    requires |shown| <= 64
  {
    if |shown| > CAN_MAX_DLEN then ""
    else if HasErr(id) then PadLeft(TokenWidth(view) * (8 - |shown|) + 13, "ERRORFRAME")
    else if view.ascii then
      PadLeft(TokenWidth(view) * (8 - |shown|) + 4, [Quote(view)]) + Ascii(shown) + [Quote(view)]
    else ""
  }

  /** The long form of a frame. */
  function LongText(f: CanFrame, view: View, maxdlen: nat): string
    requires maxdlen <= 64
  {
    var payload := Payload(f, maxdlen);
    var head := HeadText(f.id, |payload|, view, maxdlen);
    if maxdlen == CAN_MAX_DLEN && HasRtr(f.id) then head + " remote request"
    else head + Region(Shown(payload, view), |payload|, view) + TailText(f.id, Shown(payload, view), view)
  }

  // ----- the columns

  /** Where the tokens lie, counted in tokens of w columns. */
  lemma TokenColumns(w: nat, k: nat, n: nat)
    requires w >= 1 && k < n
    ensures w * k + 1 <= w * (k + 1) <= w * n && w * (n - 1) + w == w * n
  {
  }

  lemma LastPart(before: string, d: char, token: string)
    ensures (before + [d] + token)[|before| + 1..|before| + 1 + |token|] == token
  {
  }

  lemma EarlierPart(before: string, more: string, i: nat, j: nat)
    requires i <= j <= |before|
    ensures (before + more)[i..j] == before[i..j]
  {
  }

  lemma Regrouped(a: string, b: string, d: char, t: string)
    ensures a + b + [d] + t == a + (b + [d] + t)
    ensures b + [d] + t == b + ([d] + t)
  {
  }

  /** The data region takes exactly dlen * len columns, in every view. */
  lemma {:induction false} RegionWidth(shown: seq<u8>, n: nat, view: View)
    requires n <= |shown|
    ensures |Region(shown, n, view)| == TokenWidth(view) * n
  {
    if n == 0 {
    } else {
      RegionWidth(shown, n - 1, view);
    }
  }

  lemma {:induction false} RegionToken(shown: seq<u8>, n: nat, k: nat, view: View)
    requires k < n <= |shown|
    ensures |Region(shown, n, view)| == TokenWidth(view) * n
    ensures TokenWidth(view) * k + 1 <= TokenWidth(view) * (k + 1) <= TokenWidth(view) * n
    ensures Region(shown, n, view)[TokenWidth(view) * k + 1..TokenWidth(view) * (k + 1)] == Token(shown[k], view)
  {
    var w, before, d, token := TokenWidth(view), Region(shown, n - 1, view), Delimiter(n - 1, view),
        Token(shown[n - 1], view);
    RegionWidth(shown, n, view);
    RegionWidth(shown, n - 1, view);
    TokenColumns(w, k, n);
    if k < n - 1 {
      RegionToken(shown, n - 1, k, view);
      Regrouped("", before, d, token);
      EarlierPart(before, [d] + token, w * k + 1, w * (k + 1));
    } else {
      LastPart(before, d, token);
    }
  }

  /** The swapped view holds the byte tokens of the plain view in reverse order. */
  lemma SwappedTokens(payload: seq<u8>, k: nat, view: View)
    requires k < |payload|
    ensures var n, w := |payload|, TokenWidth(view);
            var plain := Region(Shown(payload, view.(swap := false)), n, view.(swap := false));
            var swapped := Region(Shown(payload, view.(swap := true)), n, view.(swap := true));
            |plain| == |swapped| == w * n
            && w * k + 1 <= w * (k + 1) <= w * n
            && w * (n - 1 - k) + 1 <= w * (n - k) <= w * n
            && swapped[w * k + 1..w * (k + 1)] == plain[w * (n - 1 - k) + 1..w * (n - k)]
  {
    var n, p, q := |payload|, view.(swap := false), view.(swap := true);
    assert n - 1 - k + 1 == n - k;
    RegionToken(Shown(payload, q), n, k, q);
    RegionToken(Shown(payload, p), n, n - 1 - k, p);
    assert Shown(payload, q)[k] == Shown(payload, p)[n - 1 - k];
  }

  /** The column where the ASCII quote opens and where ERRORFRAME starts: it depends on the
      identifier format and the view, not on the payload. */
  function TailColumn(id: u32, view: View): nat {
    HeadWidth(id, view) + 8 * TokenWidth(view) + 3
  }

  lemma TailStart(id: u32, shown: seq<u8>, view: View)
    requires |shown| <= CAN_MAX_DLEN
    ensures var pad := Spaces(TokenWidth(view) * (8 - |shown|) + 3);
            (HasErr(id) ==> TailText(id, shown, view) == pad + "ERRORFRAME")
            && (!HasErr(id) && view.ascii ==>
                  TailText(id, shown, view) == pad + ([Quote(view)] + Ascii(shown) + [Quote(view)]))
  {
    var pad := Spaces(TokenWidth(view) * (8 - |shown|) + 3);
    assert pad + [Quote(view)] + Ascii(shown) + [Quote(view)] == pad + ([Quote(view)] + Ascii(shown) + [Quote(view)]);
  }

  lemma FourParts(head: string, region: string, pad: string, right: string)
    ensures head + region + (pad + right) == (head + region + pad) + right
    ensures (head + region + (pad + right))[|head| + |region| + |pad|..] == right
  {
  }

  lemma PadWidth(w: nat, n: nat)
    requires n <= 8
    ensures w * n + (w * (8 - n) + 3) == 8 * w + 3
  {
  }

  lemma LongParts(f: CanFrame, view: View, maxdlen: nat, right: string)
    requires maxdlen <= 64 && |Payload(f, maxdlen)| <= CAN_MAX_DLEN
    requires !(maxdlen == CAN_MAX_DLEN && HasRtr(f.id))
    requires var shown := Shown(Payload(f, maxdlen), view);
             TailText(f.id, shown, view) == Spaces(TokenWidth(view) * (8 - |shown|) + 3) + right
    ensures var text, col := LongText(f, view, maxdlen), TailColumn(f.id, view);
            |text| == col + |right| && text[col..] == right
  {
    var shown := Shown(Payload(f, maxdlen), view);
    var n, w := |shown|, TokenWidth(view);
    RegionWidth(shown, n, view);
    PadWidth(w, n);
    FourParts(HeadText(f.id, n, view, maxdlen), Region(shown, n, view), Spaces(w * (8 - n) + 3), right);
  }

  /** Whatever the payload, the ASCII column opens at one place, and an error frame's line
      ends at one place. */
  lemma FixedColumns(f: CanFrame, view: View, maxdlen: nat)
    requires maxdlen <= 64 && |Payload(f, maxdlen)| <= CAN_MAX_DLEN
    requires !(maxdlen == CAN_MAX_DLEN && HasRtr(f.id))
    ensures var text, col, shown := LongText(f, view, maxdlen), TailColumn(f.id, view),
            Shown(Payload(f, maxdlen), view);
            (HasErr(f.id) ==> |text| == col + 10 && text[col..] == "ERRORFRAME")
            && (!HasErr(f.id) && view.ascii ==>
                  |text| == col + |shown| + 2 && text[col..] == [Quote(view)] + Ascii(shown) + [Quote(view)])
  {
    var shown := Shown(Payload(f, maxdlen), view);
    TailStart(f.id, shown, view);
    if HasErr(f.id) {
      LongParts(f, view, maxdlen, "ERRORFRAME");
    } else if view.ascii {
      LongParts(f, view, maxdlen, [Quote(view)] + Ascii(shown) + [Quote(view)]);
    }
  }

  /** The data region sits right behind the head. */
  lemma DataRegion(f: CanFrame, view: View, maxdlen: nat)
    requires maxdlen <= 64 && !(maxdlen == CAN_MAX_DLEN && HasRtr(f.id))
    ensures var text, shown := LongText(f, view, maxdlen), Shown(Payload(f, maxdlen), view);
            var from := HeadWidth(f.id, view);
            var to := from + TokenWidth(view) * |shown|;
            to <= |text| && text[from..to] == Region(shown, |shown|, view)
  {
    var shown := Shown(Payload(f, maxdlen), view);
    RegionWidth(shown, |shown|, view);
  }

  // ----- the printer

  lemma LengthChars(len: nat, maxdlen: nat)
    requires len <= 64
    ensures LengthText(len, maxdlen)
            == if maxdlen == CAN_MAX_DLEN then [' ', '[', ('0' as int + len) as char, ']', ' ']
               else ['[', ('0' as int + len / 10) as char, ('0' as int + len % 10) as char, ']', ' ']
  {
  }

  /** The length between brackets, over five blanks. */
  method PutLength(buf: array<char>, offset: nat, len: nat, maxdlen: nat)
    requires offset + 5 <= buf.Length && len <= 64
    requires forall k :: offset <= k < offset + 5 ==> buf[k] == ' '
    modifies buf
    ensures buf[offset..offset + 5] == LengthText(len, maxdlen)
    ensures forall k :: 0 <= k < buf.Length && !(offset <= k < offset + 5) ==> buf[k] == old(buf[k])
  {
    if maxdlen == CAN_MAX_DLEN {
      buf[offset + 1] := '[';
      buf[offset + 2] := ('0' as int + len) as char;
      buf[offset + 3] := ']';
    } else {
      buf[offset] := '[';
      buf[offset + 1] := ('0' as int + len / 10) as char;
      buf[offset + 2] := ('0' as int + len % 10) as char;
      buf[offset + 3] := ']';
    }
    ghost var shown := buf[offset..offset + 5];
    assert shown == [buf[offset], buf[offset + 1], buf[offset + 2], buf[offset + 3], buf[offset + 4]];
    LengthChars(len, maxdlen);
  }

  /** Identifier and length columns, over 15 blanks. */
  method PutHead(buf: array<char>, id: u32, len: nat, view: View, maxdlen: nat) returns (offset: nat)
    requires buf.Length >= 15 && len <= 64
    modifies buf
    ensures offset == HeadWidth(id, view) && buf[..offset] == HeadText(id, len, view, maxdlen)
    ensures forall k :: 15 <= k < buf.Length ==> buf[k] == old(buf[k])
  {
    forall k | 0 <= k < 15 {
      buf[k] := ' ';
    }
    var start := PutLongId(buf, id, view);
    ghost var idText := buf[..start];
    PutLength(buf, start, len, maxdlen);
    offset := start + 5;
    assert buf[..start] == idText;
    assert buf[..offset] == buf[..start] + buf[start..offset];
  }

  /** The identifier with the blanks around it. */
  function LongIdText(id: u32, view: View): (s: string)
    ensures |s| == HeadWidth(id, view) - 5
  {
    if HasErr(id) || HasEff(id) then IdText(id) + "  "
    else (if view.indentSff then Spaces(5) else "") + IdText(id) + "  "
  }

  /** Writes an identifier between blanks. */
  method PutIdAmongBlanks(buf: array<char>, base: nat, n: nat, v: u32)
    requires n + base + 2 <= 15 <= buf.Length && forall k :: 0 <= k < 15 ==> buf[k] == ' '
    modifies buf
    ensures buf[..base + n + 2] == Spaces(base) + IdDigits(v, n) + "  "
    ensures forall k :: base + n + 2 <= k < buf.Length ==> buf[k] == old(buf[k])
  {
    ghost var orig := buf[..];
    assert orig[..base] == Spaces(base);
    PutId(buf, base, n, v, Spaces(base), orig);
    ghost var all := Spaces(base) + IdDigits(v, n);
    assert buf[..] == all + orig[base + n..];
    forall k | base + n <= k < buf.Length ensures buf[k] == orig[k] {
      assert buf[..][k] == orig[base + n..][k - base - n];
    }
    assert buf[..base + n] == all;
    assert buf[..base + n + 2] == buf[..base + n] + [buf[base + n], buf[base + n + 1]];
  }

  method PutLongId(buf: array<char>, id: u32, view: View) returns (offset: nat)
    requires buf.Length >= 15 && forall k :: 0 <= k < 15 ==> buf[k] == ' '
    modifies buf
    ensures offset == HeadWidth(id, view) - 5 && buf[..offset] == LongIdText(id, view)
    ensures forall k :: offset <= k < buf.Length ==> buf[k] == old(buf[k])
  {
    assert Spaces(0) == "";
    if HasErr(id) {
      PutIdAmongBlanks(buf, 0, 8, LowBits(id, CAN_ERR_MASK + CAN_ERR_FLAG));
      offset := 10;
    } else if HasEff(id) {
      PutIdAmongBlanks(buf, 0, 8, LowBits(id, CAN_EFF_MASK));
      offset := 10;
    } else if view.indentSff {
      PutIdAmongBlanks(buf, 5, 3, LowBits(id, CAN_SFF_MASK));
      offset := 10;
    } else {
      PutIdAmongBlanks(buf, 0, 3, LowBits(id, CAN_SFF_MASK));
      offset := 5;
    }
  }

  /** The digits of one byte. */
  method PutToken(buf: array<char>, start: nat, b: u8, view: View, ghost text: string, ghost orig: seq<char>)
    returns (offset: nat)
    requires Written(buf, text, orig) && start == |text| <= buf.Length - TokenWidth(view) + 1
    modifies buf
    ensures offset == start + TokenWidth(view) - 1 && Written(buf, text + Token(b, view), orig)
  {
    if view.binary {
      offset := start;
      var j := 7;
      assert text + BinByte(b)[..0] == text;
      while j >= 0
        invariant -1 <= j <= 7 && offset == start + 7 - j
        invariant Written(buf, text + BinByte(b)[..7 - j], orig)
      {
        PutChar(buf, offset, Bit(b, j), text + BinByte(b)[..7 - j], orig);
        assert text + BinByte(b)[..7 - j] + [Bit(b, j)] == text + BinByte(b)[..8 - j];
        offset := offset + 1;
        j := j - 1;
      }
      assert BinByte(b)[..8] == BinByte(b);
    } else {
      PutHexByte(buf, start, b, text, orig);
      offset := start + 2;
    }
  }

  lemma RegionStep(head: string, shown: seq<u8>, n: nat, view: View)
    requires n < |shown|
    ensures head + Region(shown, n, view) + [Delimiter(n, view)] + Token(shown[n], view)
            == head + Region(shown, n + 1, view)
    ensures |head + Region(shown, n, view)| + TokenWidth(view) <= |head + Region(shown, |shown|, view)|
  {
    RegionWidth(shown, n, view);
    RegionWidth(shown, |shown|, view);
    TokenColumns(TokenWidth(view), n, n + 1);
    TokenColumns(TokenWidth(view), n, |shown|);
    Regrouped(head, Region(shown, n, view), Delimiter(n, view), Token(shown[n], view));
  }

  /** The delimiter and the digits of the n-th shown byte. */
  method PutShown(buf: array<char>, start: nat, b: u8, n: nat, view: View,
                  ghost shown: seq<u8>, ghost head: string, ghost orig: seq<char>)
    returns (offset: nat)
    requires n < |shown| && b == shown[n]
    requires Written(buf, head + Region(shown, n, view), orig) && start == |head + Region(shown, n, view)|
    requires |head + Region(shown, |shown|, view)| <= buf.Length
    modifies buf
    ensures offset == |head + Region(shown, n + 1, view)| && Written(buf, head + Region(shown, n + 1, view), orig)
  {
    RegionStep(head, shown, n, view);
    PutChar(buf, start, Delimiter(n, view), head + Region(shown, n, view), orig);
    offset := PutToken(buf, start + 1, b, view, head + Region(shown, n, view) + [Delimiter(n, view)], orig);
  }

  /** The data region, bytes from last to first. */
  method PutSwapped(buf: array<char>, start: nat, data: array<u8>, len: nat, view: View,
                    ghost shown: seq<u8>, ghost head: string, ghost orig: seq<char>)
    returns (offset: nat)
    requires len <= data.Length && len == |shown| && forall k :: 0 <= k < len ==> data[k] == shown[len - 1 - k]
    requires Written(buf, head, orig) && start == |head|
    requires |head + Region(shown, len, view)| <= buf.Length
    modifies buf
    ensures offset == |head + Region(shown, len, view)| && Written(buf, head + Region(shown, len, view), orig)
  {
    offset := start;
    assert head + "" == head;
    var i := len - 1;
    while i >= 0
      invariant -1 <= i < len
      invariant offset == |head + Region(shown, len - 1 - i, view)|
      invariant Written(buf, head + Region(shown, len - 1 - i, view), orig)
    {
      offset := PutShown(buf, offset, data[i], len - 1 - i, view, shown, head, orig);
      i := i - 1;
    }
  }

  /** The data region, bytes from first to last. */
  method PutPlain(buf: array<char>, start: nat, data: array<u8>, len: nat, view: View,
                  ghost shown: seq<u8>, ghost head: string, ghost orig: seq<char>)
    returns (offset: nat)
    requires len <= data.Length && len == |shown| && forall k :: 0 <= k < len ==> data[k] == shown[k]
    requires Written(buf, head, orig) && start == |head|
    requires |head + Region(shown, len, view)| <= buf.Length
    modifies buf
    ensures offset == |head + Region(shown, len, view)| && Written(buf, head + Region(shown, len, view), orig)
  {
    offset := start;
    assert head + "" == head;
    for i := 0 to len
      invariant offset == |head + Region(shown, i, view)|
      invariant Written(buf, head + Region(shown, i, view), orig)
    {
      offset := PutShown(buf, offset, data[i], i, view, shown, head, orig);
    }
  }

  method PutRegion(buf: array<char>, start: nat, data: array<u8>, len: nat, view: View,
                   ghost shown: seq<u8>, ghost head: string, ghost orig: seq<char>)
    returns (offset: nat)
    requires len <= data.Length && shown == Shown(data[..len], view)
    requires Written(buf, head, orig) && start == |head|
    requires |head + Region(shown, len, view)| <= buf.Length
    modifies buf
    ensures offset == |head + Region(shown, len, view)| && Written(buf, head + Region(shown, len, view), orig)
  {
    if view.swap {
      offset := PutSwapped(buf, start, data, len, view, shown, head, orig);
    } else {
      offset := PutPlain(buf, start, data, len, view, shown, head, orig);
    }
  }

  /** sprintf("%*s"): the string right-justified, without its terminator. */
  method PutPadded(buf: array<char>, start: nat, w: nat, s: string, ghost text: string, ghost orig: seq<char>)
    returns (offset: nat)
    requires Written(buf, text, orig) && start == |text| && |text + PadLeft(w, s)| <= buf.Length
    modifies buf
    ensures offset == |text + PadLeft(w, s)| && Written(buf, text + PadLeft(w, s), orig)
  {
    ghost var all := PadLeft(w, s);
    var pad := if |s| < w then w - |s| else 0;
    assert text + all[..0] == text;
    for k := 0 to pad + |s|
      invariant |all| == pad + |s|
      invariant Written(buf, text + all[..k], orig)
    {
      PutChar(buf, start + k, if k < pad then ' ' else s[k - pad], text + all[..k], orig);
      assert text + all[..k] + [all[k]] == text + all[..k + 1];
    }
    assert all[..|all|] == all;
    offset := start + pad + |s|;
  }

  /** The characters between the quotes. */
  method PutAscii(buf: array<char>, start: nat, data: array<u8>, len: nat, view: View,
                  ghost shown: seq<u8>, ghost text: string, ghost orig: seq<char>)
    returns (offset: nat)
    requires len <= data.Length && shown == Shown(data[..len], view)
    requires Written(buf, text, orig) && start == |text| <= buf.Length - len
    modifies buf
    ensures offset == start + len && Written(buf, text + Ascii(shown), orig)
  {
    ghost var all := Ascii(shown);
    assert text + all[..0] == text;
    for k := 0 to len
      invariant forall i :: 0 <= i < len ==> data[i] == shown[if view.swap then len - 1 - i else i]
      invariant Written(buf, text + all[..k], orig)
    {
      var i := if view.swap then len - 1 - k else k;
      PutChar(buf, start + k, Printable(data[i]), text + all[..k], orig);
      assert text + all[..k] + [all[k]] == text + all[..k + 1];
    }
    assert all[..len] == all;
    offset := start + len;
  }

  /** What follows the data region. */
  method PutTail(buf: array<char>, start: nat, id: u32, data: array<u8>, len: nat, view: View,
                 ghost shown: seq<u8>, ghost text: string, ghost orig: seq<char>)
    returns (offset: nat)
    requires len <= data.Length && len <= 64 && shown == Shown(data[..len], view)
    requires Written(buf, text, orig) && start == |text|
    requires |text + TailText(id, shown, view)| <= buf.Length
    modifies buf
    ensures offset == |text + TailText(id, shown, view)| && Written(buf, text + TailText(id, shown, view), orig)
  {
    offset := start;
    assert text + "" == text;
    if len > CAN_MAX_DLEN {
      return;
    }
    if HasErr(id) {
      offset := PutPadded(buf, offset, TokenWidth(view) * (8 - len) + 13, "ERRORFRAME", text, orig);
    } else if view.ascii {
      var j := TokenWidth(view) * (8 - len) + 4;
      ghost var open := PadLeft(j, [Quote(view)]);
      assert text + TailText(id, shown, view) == text + open + Ascii(shown) + [Quote(view)];
      offset := PutPadded(buf, offset, j, [Quote(view)], text, orig);
      offset := PutAscii(buf, offset, data, len, view, shown, text + open, orig);
      PutChar(buf, offset, Quote(view), text + open + Ascii(shown), orig);
      offset := offset + 1;
    }
  }

  /** The data region and what follows it. */
  method PutDataAndTail(buf: array<char>, start: nat, cf: CanfdFrame, len: nat, view: View,
                        ghost shown: seq<u8>, ghost head: string, ghost orig: seq<char>)
    returns (offset: nat)
    requires cf.Valid() && len <= 64 && shown == Shown(cf.data[..len], view)
    requires Written(buf, head, orig) && start == |head|
    requires |head + Region(shown, len, view) + TailText(cf.can_id, shown, view)| <= buf.Length
    modifies buf
    ensures var text := head + Region(shown, len, view) + TailText(cf.can_id, shown, view);
            offset == |text| && Written(buf, text, orig)
  {
    offset := PutRegion(buf, start, cf.data, len, view, shown, head, orig);
    offset := PutTail(buf, offset, cf.can_id, cf.data, len, view, shown, head + Region(shown, len, view), orig);
  }

  /** Everything after the head. */
  method PutLongBody(buf: array<char>, start: nat, cf: CanfdFrame, len: nat, view: View, maxdlen: nat,
                     ghost f: CanFrame, ghost head: string, ghost orig: seq<char>)
    returns (offset: nat)
    requires cf.Valid() && f == cf.Value() && maxdlen <= 64 && len == |Payload(f, maxdlen)|
    requires head == HeadText(f.id, len, view, maxdlen)
    requires Written(buf, head, orig) && start == |head| && |LongText(f, view, maxdlen)| <= buf.Length
    modifies buf
    ensures offset == |LongText(f, view, maxdlen)| && Written(buf, LongText(f, view, maxdlen), orig)
  {
    if maxdlen == CAN_MAX_DLEN && HasRtr(cf.can_id) {
      offset := PutPadded(buf, start, 0, " remote request", head, orig);
    } else {
      offset := PutDataAndTail(buf, start, cf, len, view, Shown(Payload(f, maxdlen), view), head, orig);
    }
  }

  /** The terminator, on a buffer that from column 15 on was like first before the text. */
  method Terminate(buf: array<char>, offset: nat, ghost text: string, ghost orig: seq<char>, ghost first: seq<char>)
    requires Written(buf, text, orig) && offset == |text| < buf.Length && |orig| == |first|
    requires forall k :: 15 <= k < |orig| ==> orig[k] == first[k]
    modifies buf
    ensures |text| < buf.Length && buf[..|text| + 1] == text + "\0"
    ensures buf.Length == |first| && forall k :: 15 <= k < buf.Length && |text| < k ==> buf[k] == first[k]
  {
    PutChar(buf, offset, '\0', text, orig);
    assert forall k :: |text| < k < buf.Length ==> buf[k] == orig[|text| + 1..][k - |text| - 1];
  }

  /** The long form without its terminator. */
  method PutLong(buf: array<char>, cf: CanfdFrame, view: View, maxdlen: nat, ghost f: CanFrame)
    returns (offset: nat, ghost orig: seq<char>)
    requires cf.Valid() && f == cf.Value() && maxdlen <= 64
    requires buf.Length >= 15 && buf.Length > |LongText(f, view, maxdlen)|
    modifies buf
    ensures offset == |LongText(f, view, maxdlen)| && Written(buf, LongText(f, view, maxdlen), orig)
    ensures |orig| == buf.Length && forall k :: 15 <= k < |orig| ==> orig[k] == old(buf[k])
  {
    var len := if cf.len > maxdlen then maxdlen else cf.len;
    offset := PutHead(buf, cf.can_id, len, view, maxdlen);
    orig := buf[..];
    ghost var head := HeadText(f.id, len, view, maxdlen);
    assert cf.Value() == f && Written(buf, head, orig);
    offset := PutLongBody(buf, offset, cf, len, view, maxdlen, f, head, orig);
  }

  /** Writes the long form and its terminator; nothing past them and the 15 blanks. */
  method SprintLongCanframe(buf: array<char>, cf: CanfdFrame, view: View, maxdlen: nat)
    requires cf.Valid() && maxdlen <= 64
    requires buf.Length >= 15 && buf.Length > |LongText(cf.Value(), view, maxdlen)|
    modifies buf
    ensures var text := LongText(old(cf.Value()), view, maxdlen);
            buf[..|text| + 1] == text + "\0"
            && forall k :: 15 <= k < buf.Length && |text| < k ==> buf[k] == old(buf[k])
  {
    ghost var f, first := cf.Value(), buf[..];
    var offset, orig := PutLong(buf, cf, view, maxdlen, f);
    Terminate(buf, offset, LongText(f, view, maxdlen), orig, first);
  }
}
