/** What the long form shows, column by column: its head, its bytes, the delimiters between
    them, and what stands behind them. */
module CanLongMeaning {
  import opened Arith
  import opened Common
  import opened CanText
  import opened CanLong
  import opened CanMeaning
  import opened CanPrinted

  lemma PrintedLongId(id: u32, view: View)
    ensures var standard := id / 0x2000_0000 % 2 == 0 && id < 0x8000_0000;
            LongIdText(id, view) == Spaces(if standard && view.indentSff then 5 else 0) + IdText(id) + "  "
  {
    assert Spaces(0) + IdText(id) == IdText(id);
    assert "" + IdText(id) == IdText(id);
  }

  lemma Digit(d: nat)
    requires d < 10
    ensures HEX[d] == ('0' as int + d) as char
  {
  }

  lemma PrintedLength(len: nat, maxdlen: nat)
    requires len <= 64 && (maxdlen == 8 ==> len <= 8)
    ensures LengthText(len, maxdlen)
            == if maxdlen == 8 then [' ', '[', HEX[len], ']', ' '] else ['[', HEX[len / 10], HEX[len % 10], ']', ' ']
  {
    LengthChars(len, maxdlen);
    if maxdlen == 8 {
      Digit(len);
    } else {
      Digit(len % 10);
      Digit(len / 10);
    }
  }

  /** The identifier at the left, or five columns in for an indented standard one, and two
      blanks; then the length between brackets, in one digit or two. */
  lemma PrintedHead(id: u32, len: nat, view: View, maxdlen: nat)
    requires len <= 64 && (maxdlen == 8 ==> len <= 8)
    ensures var standard := id / 0x2000_0000 % 2 == 0 && id < 0x8000_0000;
            HeadText(id, len, view, maxdlen)
            == (Spaces(if standard && view.indentSff then 5 else 0) + IdText(id) + "  ")
               + if maxdlen == 8 then [' ', '[', HEX[len], ']', ' '] else ['[', HEX[len / 10], HEX[len % 10], ']', ' ']
  {
    PrintedLongId(id, view);
    PrintedLength(len, maxdlen);
  }

  lemma Blanks(n: nat)
    ensures |Spaces(n)| == n && forall k :: 0 <= k < n ==> Spaces(n)[k] == ' '
  {
  }

  function Weight(c: char, w: nat): nat {
    if c == '1' then w else 0
  }

  lemma Halve(b: nat, w: nat)
    requires w > 0
    ensures b / w == 2 * (b / (2 * w)) + b / w % 2
  {
    var q, r := b / (2 * w), b % (2 * w);
    assert b == w * (2 * q) + r;
    if r < w {
      DivModUnique(b, w, 2 * q, r);
    } else {
      assert b == w * (2 * q + 1) + (r - w);
      DivModUnique(b, w, 2 * q + 1, r - w);
    }
  }

  lemma FourBits(b: u8, w: nat)
    requires w > 0
    ensures b / w == 16 * (b / (16 * w)) + 8 * (b / (8 * w) % 2) + 4 * (b / (4 * w) % 2)
                     + 2 * (b / (2 * w) % 2) + b / w % 2
  {
    Halve(b, w);
    Halve(b, 2 * w);
    Halve(b, 4 * w);
    Halve(b, 8 * w);
  }

  lemma Halves(b: u8)
    ensures b == 128 * (b / 128 % 2) + 64 * (b / 64 % 2) + 32 * (b / 32 % 2) + 16 * (b / 16 % 2)
                 + 8 * (b / 8 % 2) + 4 * (b / 4 % 2) + 2 * (b / 2 % 2) + b % 2
  {
    FourBits(b, 1);
    FourBits(b, 16);
    assert b / 256 == 0;
  }

  lemma BitAt(b: u8, p: nat, w: nat)
    requires p < 8 && w == Pow2(7 - p)
    ensures BinByte(b)[p] == if b / w % 2 == 1 then '1' else '0'
    ensures Weight(BinByte(b)[p], w) == w * (b / w % 2)
  {
    assert b / w % 2 == 0 || b / w % 2 == 1;
  }

  lemma Powers()
    ensures Pow2(0) == 1 && Pow2(1) == 2 && Pow2(2) == 4 && Pow2(3) == 8
    ensures Pow2(4) == 16 && Pow2(5) == 32 && Pow2(6) == 64 && Pow2(7) == 128
  {
  }

  /** The eight binary digits spell the byte. */
  lemma BitsSpell(b: u8)
    ensures var s := BinByte(b);
            && |s| == 8 && (forall k | 0 <= k < 8 :: s[k] == '0' || s[k] == '1')
            && b == Weight(s[0], 128) + Weight(s[1], 64) + Weight(s[2], 32) + Weight(s[3], 16)
                    + Weight(s[4], 8) + Weight(s[5], 4) + Weight(s[6], 2) + Weight(s[7], 1)
  {
    Powers();
    Halves(b);
    BitAt(b, 0, 128);
    BitAt(b, 1, 64);
    BitAt(b, 2, 32);
    BitAt(b, 3, 16);
    BitAt(b, 4, 8);
    BitAt(b, 5, 4);
    BitAt(b, 6, 2);
    BitAt(b, 7, 1);
  }

  /** A byte is shown in nine columns in the binary view and in three otherwise, its digits
      behind a delimiter: a backquote from the second byte on in the swapped view, and a blank
      in all other places. */
  lemma ShownByte(shown: seq<u8>, k: nat, view: View)
    requires k < |shown|
    ensures var w, region := (if view.binary then 9 else 3), Region(shown, |shown|, view);
            && |region| == w * |shown| && w * k < w * (k + 1) <= |region|
            && region[w * k] == (if view.swap && k > 0 then '`' else ' ')
            && region[w * k + 1..w * (k + 1)]
               == if view.binary then BinByte(shown[k]) else [HEX[shown[k] / 16], HEX[shown[k] % 16]]
  {
    RegionToken(shown, |shown|, k, view);
    DelimiterAt(shown, |shown|, k, view);
    PrintedDigit(shown[k] / 16);
    PrintedDigit(shown[k] % 16);
  }

  lemma {:induction false} DelimiterAt(shown: seq<u8>, n: nat, k: nat, view: View)
    requires k < n <= |shown|
    ensures |Region(shown, n, view)| == TokenWidth(view) * n && TokenWidth(view) * k < TokenWidth(view) * n
    ensures Region(shown, n, view)[TokenWidth(view) * k] == if view.swap && k > 0 then '`' else ' '
  {
    RegionWidth(shown, n, view);
    RegionWidth(shown, n - 1, view);
    TokenColumns(TokenWidth(view), k, n);
    if k == n - 1 {
    } else {
      DelimiterAt(shown, n - 1, k, view);
    }
  }

  /** The swapped view shows the last byte first. */
  lemma ShownOrder(payload: seq<u8>, view: View, k: nat)
    requires k < |payload|
    ensures Shown(payload, view)[k] == if view.swap then payload[|payload| - 1 - k] else payload[k]
  {
  }

  /** In the ASCII text a byte stands for its character from 0x20 to 0x7E, and for a '.'
      otherwise. */
  lemma ShownCharacter(shown: seq<u8>, k: nat)
    requires k < |shown|
    ensures |Ascii(shown)| == |shown|
    ensures Ascii(shown)[k] == if 0x20 <= shown[k] <= 0x7E then shown[k] as char else '.'
  {
  }

  /** The line of a frame of up to eight bytes: head, data and blanks up to a fixed column;
      from there ERRORFRAME, or the ASCII text between quotes (backquotes in the swapped
      view). */
  lemma PrintedEnd(f: CanFrame, view: View, maxdlen: nat)
    requires maxdlen <= 64 && |Payload(f, maxdlen)| <= 8 && !(maxdlen == 8 && f.id / 0x4000_0000 % 2 == 1)
    ensures var err, ext := f.id / 0x2000_0000 % 2 == 1, f.id >= 0x8000_0000;
            var col := (if err || ext || view.indentSff then 15 else 10) + 8 * (if view.binary then 9 else 3) + 3;
            var text, shown := LongText(f, view, maxdlen), Shown(Payload(f, maxdlen), view);
            var quote := if view.swap then "`" else "'";
            && (err || view.ascii ==> |text| >= col)
            && (err ==> text[col..] == "ERRORFRAME")
            && (!err && view.ascii ==> text[col..] == quote + Ascii(shown) + quote)
  {
    FixedColumns(f, view, maxdlen);
  }

  /** Without them it ends behind the data; a remote request has no data. */
  lemma PrintedLine(f: CanFrame, view: View, maxdlen: nat)
    requires maxdlen <= 64
    ensures var err, rtr, n := f.id / 0x2000_0000 % 2 == 1, f.id / 0x4000_0000 % 2 == 1, |Payload(f, maxdlen)|;
            var head, shown := HeadText(f.id, n, view, maxdlen), Shown(Payload(f, maxdlen), view);
            && n == (if f.len > maxdlen then maxdlen else f.len)
            && (maxdlen == 8 && rtr ==> LongText(f, view, maxdlen) == head + " remote request")
            && (!(maxdlen == 8 && rtr) && (n > 8 || (!err && !view.ascii)) ==>
                  LongText(f, view, maxdlen) == head + Region(shown, n, view))
  {
    var shown := Shown(Payload(f, maxdlen), view);
    var head, region := HeadText(f.id, |shown|, view, maxdlen), Region(shown, |shown|, view);
    assert head + region + "" == head + region;
  }
}
