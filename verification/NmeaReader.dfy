/** The byte loop of get_gps_data, on its two 300-byte buffers, and what it returns.  It is
    proved against the tokeniser and the selection of NmeaTokens. */
module NmeaReader {
  import opened Common
  import opened NmeaMeaning
  import opened NmeaTokens

  const BUFFER_SIZE := 300
  const OBD2_LIB_SUCCESS := 0
  const E_GPS_USB_INIT := 0xA001_0001
  const E_GPS_NO_REQ_NMEA := 0xA001_000A
  const E_GPS_NMEA_TIMEOUT := 0xA001_000B
  const E_BUFFER_READ_OVERFLOW := 0xE101_0008
  const E_LIB_MEM_ALLOC_ERROR := 0xF321_0003

  // ----- C strings in buffers

  predicate NulFree(s: string) {
    forall i | 0 <= i < |s| :: s[i] != '\0'
  }

  /** The buffer holds the string and is zero behind it. */
  ghost predicate Holds(a: array<char>, s: string)
    reads a
  {
    && NulFree(s) && |s| < a.Length
    && (forall k :: 0 <= k < |s| ==> a[k] == s[k])
    && (forall k :: |s| <= k < a.Length ==> a[k] == '\0')
  }

  /** As Holds, except for the byte behind the string, where the next read will land. */
  ghost predicate Filling(a: array<char>, s: string)
    reads a
  {
    && NulFree(s) && |s| < a.Length
    && (forall k :: 0 <= k < |s| ==> a[k] == s[k])
    && (forall k :: |s| < k < a.Length ==> a[k] == '\0')
  }

  method Clear(a: array<char>)
    requires a.Length > 0
    modifies a
    ensures Holds(a, "")
  {
    forall k | 0 <= k < a.Length {
      a[k] := '\0';
    }
  }

  method StrLen(a: array<char>, ghost s: string) returns (n: nat)
    requires Holds(a, s)
    ensures n == |s|
  {
    n := 0;
    while a[n] != '\0'
      invariant n <= |s|
      decreases |s| - n
    {
      n := n + 1;
    }
  }

  /** strncmp(p, a, strlen(p)) == 0. */
  method HasPrefix(p: string, a: array<char>, ghost s: string) returns (r: bool)
    requires NulFree(p) && Holds(a, s)
    ensures r == (p <= s)
  {
    for k := 0 to |p|
      invariant k <= |s| && forall i :: 0 <= i < k ==> p[i] == s[i]
    {
      if p[k] != a[k] {
        return false;
      }
    }
    return true;
  }

  method StrCat(dst: array<char>, src: array<char>, ghost d: string, ghost s: string)
    requires dst != src && Holds(dst, d) && Holds(src, s) && |d| + |s| < dst.Length
    modifies dst
    ensures Holds(dst, d + s)
  {
    var n := StrLen(dst, d);
    var k := 0;
    while src[k] != '\0'
      invariant k <= |s| && Holds(dst, d + s[..k])
      decreases |s| - k
    {
      dst[n + k] := src[k];
      k := k + 1;
    }
    assert s[..k] == s;
  }

  // ----- one byte

  function Text(scan: Scan): string {
    if scan.pending.Some? then scan.pending.value else ""
  }

  /** The loop variables after the bytes that gave the scan. */
  ghost predicate State(nmea: string, buf: array<char>, gps_buf: array<char>,
                        start_read: bool, j: nat, i: nat, scan: Scan)
    reads buf, gps_buf
  {
    && buf != gps_buf && buf.Length == gps_buf.Length == BUFFER_SIZE
    && start_read == scan.pending.Some?
    && j == |Text(scan)| && Filling(buf, Text(scan))
    && Holds(gps_buf, Selected(nmea, scan.done))
    && i == GroupCount(nmea, scan.done)
  }

  /** How many sentences the open GSV group holds. */
  function GroupCount(nmea: string, ts: seq<Sentence>): nat {
    if IsGsv(nmea) then Run(Matcher(nmea), ts, |ts|) % 4 else 0
  }

  /** Every sentence, with its end byte and a NUL, fits buf; a GSV group fits gps_buf. */
  predicate Fits(nmea: string, scan: Scan) {
    |Text(scan)| <= BUFFER_SIZE - 2 && (IsGsv(nmea) ==> |Selected(nmea, scan.done)| < BUFFER_SIZE)
  }

  /** What one more sentence does to the selection. */
  lemma SelectedSnoc(nmea: string, ts: seq<Sentence>, t: Sentence)
    ensures var i, m := GroupCount(nmea, ts), nmea <= t.WithEnd();
            Selected(nmea, ts + [t]) ==
            (if !m then Selected(nmea, ts)
             else if !IsGsv(nmea) then t.text
             else if i == 3 then Selected(nmea, ts)
             else if i == 0 then t.WithEnd()
             else Selected(nmea, ts) + t.WithEnd())
            && GroupCount(nmea, ts + [t]) == if m && IsGsv(nmea) && i < 3 then i + 1 else 0
  {
    var p := Matcher(nmea);
    SelectPrefix(p, IsGsv(nmea), ts, t, |ts|);
    assert (ts + [t])[|ts|] == t;
    assert p(t) == (nmea <= t.WithEnd());
    NextCount(Run(p, ts, |ts|));
  }

  lemma NextCount(r: nat)
    ensures (r + 1) % 4 == if r % 4 == 3 then 0 else r % 4 + 1
  {
  }

  /** The end of a sentence: buf holds it with its end byte. */
  method EndSentence(nmea: string, gpgsv: bool, buf: array<char>, gps_buf: array<char>, j: nat, count: nat,
                     ghost ts: seq<Sentence>, ghost t: Sentence)
    returns (i: nat)
    requires NulFree(nmea) && gpgsv == IsGsv(nmea)
    requires buf != gps_buf && buf.Length == gps_buf.Length == BUFFER_SIZE
    requires Holds(buf, t.WithEnd()) && NulFree(t.text) && j == |t.text|
    requires Holds(gps_buf, Selected(nmea, ts)) && count == GroupCount(nmea, ts)
    requires IsGsv(nmea) ==> |Selected(nmea, ts + [t])| < BUFFER_SIZE
    modifies buf, gps_buf
    ensures Holds(buf, "") && Holds(gps_buf, Selected(nmea, ts + [t])) && i == GroupCount(nmea, ts + [t])
  {
    SelectedSnoc(nmea, ts, t);
    i := count;
    var match_ := HasPrefix(nmea, buf, t.WithEnd());
    if match_ {
      if gpgsv {
        i := AddToGroup(buf, gps_buf, i, Selected(nmea, ts), t.WithEnd());
      } else {
        buf[j] := '\0';
        assert Holds(buf, t.text);
        Clear(gps_buf);
        assert "" + t.text == t.text;
        StrCat(gps_buf, buf, "", t.text);
      }
    } else {
      i := 0;
    }
    Clear(buf);
  }

  /** A GSV sentence: begins a group, is added to it, or closes it. */
  method AddToGroup(buf: array<char>, gps_buf: array<char>, count: nat, ghost group: string, ghost sentence: string)
    returns (i: nat)
    requires buf != gps_buf && gps_buf.Length == BUFFER_SIZE && Holds(buf, sentence) && Holds(gps_buf, group)
    requires count == 0 ==> |sentence| < BUFFER_SIZE
    requires 0 < count < 3 ==> |group| + |sentence| < BUFFER_SIZE
    modifies gps_buf
    ensures i == if count < 3 then count + 1 else 0
    ensures Holds(gps_buf, if count == 0 then sentence else if count < 3 then group + sentence else group)
  {
    i := count;
    ghost var before := group;
    if i == 0 {
      Clear(gps_buf);
      before := "";
      assert before + sentence == sentence;
    }
    if i < 3 {
      StrCat(gps_buf, buf, before, sentence);
      i := i + 1;
    } else {
      i := 0;
    }
  }

  /** The body of the loop for a byte that was read into buf[j]. */
  method OnByte(nmea: string, gpgsv: bool, buf: array<char>, gps_buf: array<char>,
                reading: bool, at: nat, count: nat, c: char, ghost scan: Scan)
    returns (start_read: bool, j: nat, i: nat)
    requires NulFree(nmea) && gpgsv == IsGsv(nmea)
    requires State(nmea, buf, gps_buf, reading, at, count, scan)
    requires Fits(nmea, scan) && Fits(nmea, Feed(scan, c))
    modifies buf, gps_buf
    ensures State(nmea, buf, gps_buf, start_read, j, i, Feed(scan, c))
  {
    start_read, j, i := reading, at, count;
    buf[j] := c;
    if start_read {
      if c != '\n' && c != '\0' && c != '$' {
        if c == '\r' {
        } else {
          j := j + 1;
        }
      } else {
        start_read := false;
        ghost var t := Sentence(Text(scan), c);
        i := EndSentence(nmea, gpgsv, buf, gps_buf, j, i, scan.done, t);
        j := 0;
      }
    } else {
      if c == '$' {
        start_read := true;
        j := 0;
      } else {
        j := 0;
      }
    }
  }

  // ----- the whole call

  /** What one turn of the loop gets once select() says the port is readable: a byte, or
      nothing from read().  A select() timeout ends the stream. */
  datatype Event = Byte(c: char) | NoByte

  function Bytes(events: seq<Event>): string {
    if events == [] then ""
    else
      var last := |events| - 1;
      Bytes(events[..last]) + if events[last].Byte? then [events[last].c] else ""
  }

  /** Every prefix of the stream fits the buffers. */
  predicate StreamFits(nmea: string, s: string) {
    forall n | 0 <= n <= |s| :: Fits(nmea, Tokenize(s[..n]))
  }

  function TrimEnd(s: string): string {
    if s != "" && (s[|s| - 1] == '\n' || s[|s| - 1] == '\r') then s[..|s| - 1] else s
  }

  /** strlen(gps_buf) < length, compared as 32-bit unsigned numbers. */
  predicate Room(n: nat, length: int) {
    n < length % 0x1_0000_0000
  }

  lemma FitsSoFar(nmea: string, all: string, s: string, c: char)
    requires StreamFits(nmea, all) && s + [c] <= all
    ensures Fits(nmea, Tokenize(s)) && Fits(nmea, Feed(Tokenize(s), c))
    ensures Tokenize(s + [c]) == Feed(Tokenize(s), c)
  {
    TokenizeSnoc(s, c);
    assert all[..|s|] == s && all[..|s| + 1] == s + [c];
  }

  /** The read loop: until select() times out. */
  method ReadLoop(nmea: string, gpgsv: bool, buf: array<char>, gps_buf: array<char>, events: seq<Event>)
    requires NulFree(nmea) && gpgsv == IsGsv(nmea)
    requires buf != gps_buf && buf.Length == gps_buf.Length == BUFFER_SIZE
    requires Holds(buf, "") && Holds(gps_buf, "")
    requires StreamFits(nmea, Bytes(events))
    modifies buf, gps_buf
    ensures Holds(gps_buf, Selected(nmea, Tokenize(Bytes(events)).done))
  {
    var start_read, j, i := false, 0, 0;
    for n := 0 to |events|
      invariant State(nmea, buf, gps_buf, start_read, j, i, Tokenize(Bytes(events[..n])))
    {
      start_read, j, i := ReadTurn(nmea, gpgsv, buf, gps_buf, start_read, j, i, events, n);
    }
    assert events[..|events|] == events;
  }

  /** One turn of the loop. */
  method ReadTurn(nmea: string, gpgsv: bool, buf: array<char>, gps_buf: array<char>,
                  reading: bool, at: nat, count: nat, events: seq<Event>, n: nat)
    returns (start_read: bool, j: nat, i: nat)
    requires NulFree(nmea) && gpgsv == IsGsv(nmea)
    requires n < |events| && StreamFits(nmea, Bytes(events))
    requires State(nmea, buf, gps_buf, reading, at, count, Tokenize(Bytes(events[..n])))
    modifies buf, gps_buf
    ensures State(nmea, buf, gps_buf, start_read, j, i, Tokenize(Bytes(events[..n + 1])))
  {
    ghost var s := Bytes(events[..n]);
    BytesStep(events, n);
    start_read, j, i := reading, at, count;
    if events[n].Byte? {
      FitsSoFar(nmea, Bytes(events), s, events[n].c);
      start_read, j, i := OnByte(nmea, gpgsv, buf, gps_buf, reading, at, count, events[n].c, Tokenize(s));
    }
  }

  lemma BytesStep(events: seq<Event>, n: nat)
    requires n < |events|
    ensures Bytes(events[..n + 1]) == if events[n].Byte? then Bytes(events[..n]) + [events[n].c] else Bytes(events[..n])
    ensures Bytes(events[..n + 1]) <= Bytes(events)
  {
    BytesPrefix(events, n + 1);
    assert events[..n + 1][..n] == events[..n];
    assert Bytes(events[..n]) + "" == Bytes(events[..n]);
  }

  /** The C function: waits for sentences until the port is silent for a second, then copies
      out what the request selected. */
  method GetGpsData(nmea: string, modem: int, gps_fd: int, events: seq<Event>, length: int)
    returns (ret: int, g_nbytes: Option<nat>, recv_data: Option<string>)
    requires NulFree(nmea) && StreamFits(nmea, Bytes(events))
    ensures modem != OBD2_LIB_SUCCESS ==> ret == modem && g_nbytes == None && recv_data == None
    ensures modem == OBD2_LIB_SUCCESS && gps_fd < 0 ==>
              ret == E_GPS_USB_INIT && g_nbytes == None && recv_data == None
    ensures modem == OBD2_LIB_SUCCESS && gps_fd >= 0 && nmea == "" ==>
              ret == E_LIB_MEM_ALLOC_ERROR && g_nbytes == None && recv_data == None
    ensures modem == OBD2_LIB_SUCCESS && gps_fd >= 0 && nmea != "" ==>
              var o := Selected(nmea, Tokenize(Bytes(events)).done);
              var t := TrimEnd(o);
              g_nbytes == Some(|t|)
              && (Room(|t|, length) ==>
                    recv_data == Some(t) && ret == if o == "" then E_GPS_NMEA_TIMEOUT else OBD2_LIB_SUCCESS)
              && (!Room(|t|, length) ==> recv_data == None && ret == E_BUFFER_READ_OVERFLOW)
    // in terms of the characters of the stream
    ensures modem == 0 && gps_fd >= 0 && nmea != "" ==>
              exists t :: Answers(nmea, Bytes(events), t) && g_nbytes == Some(|t|)
                && if |t| < length % 0x1_0000_0000 then
                     recv_data == Some(t) && ret == if t == "" then E_GPS_NMEA_TIMEOUT else OBD2_LIB_SUCCESS
                   else recv_data == None && ret == E_BUFFER_READ_OVERFLOW
  {
    ret, g_nbytes, recv_data := modem, None, None;
    if ret != OBD2_LIB_SUCCESS {
      return;
    }
    if gps_fd < 0 {
      return E_GPS_USB_INIT, None, None;
    }
    if |nmea| == 0 {
      return E_LIB_MEM_ALLOC_ERROR, None, None;
    }
    var gps_buf, buf := new char[BUFFER_SIZE], new char[BUFFER_SIZE];
    Clear(buf);
    Clear(gps_buf);
    ReadLoop(nmea, "GPGSV" <= nmea, buf, gps_buf, events);

    ghost var scan := Tokenize(Bytes(events));
    SelectedStart(nmea, Bytes(events), |scan.done|);
    var n;
    ret, n, recv_data := CopyOut(gps_buf, length, Selected(nmea, scan.done));
    g_nbytes := Some(n);
    SelectionAnswers(nmea, Bytes(events));
  }

  lemma TextKeepsEnd(nmea: string, s: string, k: nat)
    requires k < |Tokenize(s).done|
    ensures TrimEnd(Tokenize(s).done[k].text) == Tokenize(s).done[k].text
  {
    SentenceTexts(s);
    var text := Tokenize(s).done[k].text;
    assert Plain(text);
    assert text != "" ==> !IsEnd(text[|text| - 1]) && text[|text| - 1] != '\r';
  }

  /** What is selected, trimmed, is the answer to the request; it is empty only if nothing was
      selected. */
  lemma SelectionAnswers(nmea: string, s: string)
    ensures var o := Selected(nmea, Tokenize(s).done);
            Answers(nmea, s, TrimEnd(o)) && (TrimEnd(o) == "" <==> o == "")
  {
    var ts := Tokenize(s).done;
    var o := Selected(nmea, ts);
    SelectedStart(nmea, s, |ts|);
    if NoneWanted(nmea, ts) || "GPGSV" <= nmea {
      if "GPGSV" <= nmea {
        GsvMeans(nmea, s);
      } else {
        PlainMeans(nmea, s);
      }
    } else {
      PlainMeans(nmea, s);
      var k: nat :| LastWanted(nmea, ts, k) && o == ts[k].text;
      TextKeepsEnd(nmea, s, k);
    }
  }

  /** The end of the call: trims the final line end and copies the text if there is room. */
  method CopyOut(gps_buf: array<char>, length: int, ghost o: string)
    returns (ret: int, g_nbytes: nat, recv_data: Option<string>)
    requires Holds(gps_buf, o) && NoLineEndFirst(o)
    modifies gps_buf
    ensures g_nbytes == |TrimEnd(o)|
    ensures Room(|TrimEnd(o)|, length) ==>
              recv_data == Some(TrimEnd(o)) && ret == if o == "" then E_GPS_NMEA_TIMEOUT else OBD2_LIB_SUCCESS
    ensures !Room(|TrimEnd(o)|, length) ==> recv_data == None && ret == E_BUFFER_READ_OVERFLOW
  {
    var n := StrLen(gps_buf, o);
    if gps_buf[0] != '\0' && gps_buf[0] != '\n' && gps_buf[0] != '\r' {
      if gps_buf[n - 1] == '\n' || gps_buf[n - 1] == '\r' {
        gps_buf[n - 1] := '\0';
      }
      ret := OBD2_LIB_SUCCESS;
    } else if n <= 0 {
      ret := E_GPS_NMEA_TIMEOUT;
    } else {
      assert false;
      ret := E_GPS_NO_REQ_NMEA;
    }
    assert Holds(gps_buf, TrimEnd(o));
    g_nbytes := StrLen(gps_buf, TrimEnd(o));
    recv_data := None;
    if g_nbytes < length % 0x1_0000_0000 {
      assert gps_buf[..g_nbytes] == TrimEnd(o);
      recv_data := Some(gps_buf[..g_nbytes]);
    } else {
      ret := E_BUFFER_READ_OVERFLOW;
    }
  }

  lemma {:induction false} BytesPrefix(events: seq<Event>, n: nat)
    requires n <= |events|
    ensures Bytes(events[..n]) <= Bytes(events)
    decreases |events| - n
  {
    if n == |events| {
      assert events[..n] == events;
    } else {
      BytesPrefix(events, n + 1);
      assert events[..n + 1][..n] == events[..n];
    }
  }

  lemma {:induction false} SelectStart(nmea: string, ts: seq<Sentence>, n: nat)
    requires n <= |ts| && AllPlain(ts)
    ensures NoLineEndFirst(Select(Matcher(nmea), IsGsv(nmea), ts, n))
  {
    if n == 0 {
    } else {
      SelectStart(nmea, ts, n - 1);
      if IsGsv(nmea) && nmea <= ts[n - 1].WithEnd() {
        GsvStart(nmea, ts[n - 1]);
        AppendStart(Select(Matcher(nmea), true, ts, n - 1), ts[n - 1].WithEnd());
      }
    }
  }

  /** A selected text does not start with a line end: a sentence text has none, and a GSV
      sentence starts with the request.  So get_gps_data never reports E_GPS_NO_REQ_NMEA. */
  lemma SelectedStart(nmea: string, s: string, n: nat)
    requires n <= |Tokenize(s).done|
    ensures NoLineEndFirst(Select(Matcher(nmea), IsGsv(nmea), Tokenize(s).done, n))
  {
    SentenceTexts(s);
    SelectStart(nmea, Tokenize(s).done, n);
  }

  predicate NoLineEndFirst(s: string) {
    s == "" || (s[0] != '\n' && s[0] != '\r')
  }

  lemma GsvStart(nmea: string, t: Sentence)
    requires IsGsv(nmea) && nmea <= t.WithEnd()
    ensures t.WithEnd() != "" && t.WithEnd()[0] == 'G'
  {
    assert nmea[0] == "GPGSV"[0];
  }

  lemma AppendStart(a: string, b: string)
    requires b != "" && b[0] == 'G'
    ensures NoLineEndFirst(b) && (NoLineEndFirst(a) ==> NoLineEndFirst(a + b))
  {
  }

  predicate Plain(s: string) {
    forall i | 0 <= i < |s| :: !IsEnd(s[i]) && s[i] != '\r'
  }

  predicate AllPlain(ts: seq<Sentence>) {
    forall i | 0 <= i < |ts| :: Plain(ts[i].text)
  }

  predicate PlainScan(scan: Scan) {
    AllPlain(scan.done) && Plain(Text(scan))
  }

  lemma FeedPlain(scan: Scan, c: char)
    requires PlainScan(scan)
    ensures PlainScan(Feed(scan, c))
  {
  }

  /** Sentence texts hold no line ends, NULs or '$'. */
  lemma {:induction false} SentenceTexts(s: string)
    ensures PlainScan(Tokenize(s))
  {
    if s == "" {
    } else {
      var init, last := s[..|s| - 1], s[|s| - 1];
      SentenceTexts(init);
      TokenizeSnoc(init, last);
      FeedPlain(Tokenize(init), last);
      assert s == init + [last];
    }
  }
}
