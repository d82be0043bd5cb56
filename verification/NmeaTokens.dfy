/** NMEA sentences in a byte stream: a declarative tokeniser and the sentence, or the group
    of GSV sentences, that a request selects.  The byte loop of get_gps_data is in
    NmeaReader.dfy and refines this module. */
module NmeaTokens {

  import opened Common

  /** A sentence without its '$', and the byte that ended it. */
  datatype Sentence = Sentence(text: string, end: char) {
    /** The C string of the sentence with its end byte. */
    function WithEnd(): string {
      if end == '\0' then text else text + [end]
    }
  }

  /** The finished sentences of a stream and the text of the unfinished one. */
  datatype Scan = Scan(done: seq<Sentence>, pending: Option<string>)

  predicate IsStart(c: char) {
    c == '$'
  }

  predicate IsEnd(c: char) {
    c == '\n' || c == '\0' || c == '$'
  }

  function DropCr(s: string): string {
    if s == "" then ""
    else (if s[0] == '\r' then "" else [s[0]]) + DropCr(s[1..])
  }

  /** The position of the first byte satisfying p, or the length. */
  function FirstAt(s: string, p: char -> bool): (k: nat)
    ensures k <= |s|
    ensures forall i :: 0 <= i < k ==> !p(s[i])
    ensures k < |s| ==> p(s[k])
  {
    if s == "" || p(s[0]) then 0 else 1 + FirstAt(s[1..], p)
  }

  function Behind(t: Sentence, scan: Scan): Scan {
    Scan([t] + scan.done, scan.pending)
  }

  /** Cuts sentences that do not overlap: from a '$' to the first newline, NUL or '$' after
      it, carriage returns dropped.  Bytes between sentences are ignored, and a '$' that ends
      a sentence does not start another. */
  function Tokenize(s: string): Scan
    decreases |s|
  {
    var start := FirstAt(s, IsStart);
    if start == |s| then Scan([], None)
    else
      var rest := s[start + 1..];
      var end := FirstAt(rest, IsEnd);
      if end == |rest| then Scan([], Some(DropCr(rest)))
      else
        Behind(Sentence(DropCr(rest[..end]), rest[end]), Tokenize(rest[end + 1..]))
  }

  // ----- one more byte

  lemma {:induction false} DropCrSnoc(s: string, c: char)
    ensures DropCr(s + [c]) == if c == '\r' then DropCr(s) else DropCr(s) + [c]
  {
    if s != "" {
      DropCrSnoc(s[1..], c);
      assert (s + [c])[1..] == s[1..] + [c];
    } else {
      assert (s + [c])[1..] == "";
    }
  }

  /** What one byte does to a scan. */
  function Feed(scan: Scan, c: char): Scan {
    match scan.pending
    case None => if c == '$' then scan.(pending := Some("")) else scan
    case Some(text) =>
      if IsEnd(c) then Scan(scan.done + [Sentence(text, c)], None)
      else if c == '\r' then scan
      else scan.(pending := Some(text + [c]))
  }

  predicate Free(s: string, p: char -> bool) {
    forall i | 0 <= i < |s| :: !p(s[i])
  }

  lemma TokenizeNone(s: string)
    requires Free(s, IsStart)
    ensures Tokenize(s) == Scan([], None)
  {
  }

  lemma TokenizeOpen(junk: string, text: string)
    requires Free(junk, IsStart) && Free(text, IsEnd)
    ensures Tokenize(junk + "$" + text) == Scan([], Some(DropCr(text)))
  {
    var s := junk + "$" + text;
    assert FirstAt(s, IsStart) == |junk| by {
      assert s[|junk|] == '$' && forall i | 0 <= i < |junk| :: s[i] == junk[i];
    }
    assert s[|junk| + 1..] == text;
  }

  lemma TokenizeClosed(junk: string, text: string, e: char, more: string)
    requires Free(junk, IsStart) && Free(text, IsEnd) && IsEnd(e)
    ensures Tokenize(junk + "$" + text + [e] + more)
            == Behind(Sentence(DropCr(text), e), Tokenize(more))
  {
    var s, rest := junk + "$" + text + [e] + more, text + [e] + more;
    assert FirstAt(s, IsStart) == |junk| by {
      assert s[|junk|] == '$' && forall i | 0 <= i < |junk| :: s[i] == junk[i];
    }
    assert s[|junk| + 1..] == rest;
    assert FirstAt(rest, IsEnd) == |text| by {
      assert rest[|text|] == e && forall i | 0 <= i < |text| :: rest[i] == text[i];
    }
    assert rest[..|text|] == text && rest[|text| + 1..] == more;
  }

  /** The ways a stream can begin: no sentence, one that is not finished, or a finished one. */
  datatype Shape =
    | Outside
    | Open(junk: string, text: string)
    | Closed(junk: string, text: string, end: char, more: string)

  ghost predicate Shaped(s: string, shape: Shape) {
    match shape
    case Outside => Free(s, IsStart)
    case Open(junk, text) => Free(junk, IsStart) && Free(text, IsEnd) && s == junk + "$" + text
    case Closed(junk, text, end, more) =>
      Free(junk, IsStart) && Free(text, IsEnd) && IsEnd(end) && s == junk + "$" + text + [end] + more
  }

  lemma CutAt(s: string, p: char -> bool) returns (front: string, at: char, back: string)
    requires FirstAt(s, p) < |s|
    ensures s == front + [at] + back && Free(front, p) && p(at)
  {
    var k := FirstAt(s, p);
    front, at, back := s[..k], s[k], s[k + 1..];
  }

  lemma UncutIsFree(s: string, p: char -> bool)
    requires FirstAt(s, p) == |s|
    ensures Free(s, p)
  {
  }

  lemma JoinCuts(s: string, junk: string, rest: string, text: string, end: char, more: string)
    requires s == junk + ['$'] + rest && rest == text + [end] + more
    ensures s == junk + "$" + text + [end] + more
  {
  }

  lemma ShapeInside(s: string, junk: string, rest: string) returns (shape: Shape)
    requires Free(junk, IsStart) && s == junk + ['$'] + rest
    ensures Shaped(s, shape)
  {
    if FirstAt(rest, IsEnd) == |rest| {
      UncutIsFree(rest, IsEnd);
      shape := Open(junk, rest);
    } else {
      var text, end, more := CutAt(rest, IsEnd);
      JoinCuts(s, junk, rest, text, end, more);
      shape := Closed(junk, text, end, more);
    }
  }

  lemma ShapeOf(s: string) returns (shape: Shape)
    ensures Shaped(s, shape)
  {
    if FirstAt(s, IsStart) == |s| {
      UncutIsFree(s, IsStart);
      shape := Outside;
    } else {
      var junk, start, rest := CutAt(s, IsStart);
      shape := ShapeInside(s, junk, rest);
    }
  }

  /** Tokenising can be done a byte at a time. */
  lemma {:induction false} TokenizeSnoc(s: string, c: char)
    ensures Tokenize(s + [c]) == Feed(Tokenize(s), c)
    decreases |s|
  {
    var shape := ShapeOf(s);
    match shape
    case Outside =>
      SnocOutside(s, c);
    case Open(junk, text) =>
      SnocOpen(junk, text, c);
    case Closed(junk, text, end, more) =>
      TokenizeSnoc(more, c);
      SnocClosed(junk, text, end, more, c);
  }

  lemma SnocOutside(s: string, c: char)
    requires Free(s, IsStart)
    ensures Tokenize(s + [c]) == Feed(Tokenize(s), c)
  {
    TokenizeNone(s);
    if c == '$' {
      TokenizeOpen(s, "");
      assert s + "$" + "" == s + [c];
    } else {
      TokenizeNone(s + [c]);
    }
  }

  lemma SnocOpen(junk: string, text: string, c: char)
    requires Free(junk, IsStart) && Free(text, IsEnd)
    ensures var s := junk + "$" + text; Tokenize(s + [c]) == Feed(Tokenize(s), c)
  {
    TokenizeOpen(junk, text);
    DropCrSnoc(text, c);
    if IsEnd(c) {
      TokenizeClosed(junk, text, c, "");
      TokenizeNone("");
      assert junk + "$" + text + [c] + "" == junk + "$" + text + [c];
    } else {
      TokenizeOpen(junk, text + [c]);
      assert junk + "$" + (text + [c]) == junk + "$" + text + [c];
    }
  }

  lemma FeedBehind(t: Sentence, scan: Scan, c: char)
    ensures Feed(Behind(t, scan), c) == Behind(t, Feed(scan, c))
  {
    if scan.pending.Some? && IsEnd(c) {
      var last := [Sentence(scan.pending.value, c)];
      assert [t] + scan.done + last == [t] + (scan.done + last);
    }
  }

  lemma AppendByte(left: string, more: string, c: char)
    ensures left + more + [c] == left + (more + [c])
  {
  }

  lemma SnocClosed(junk: string, text: string, e: char, more: string, c: char)
    requires Free(junk, IsStart) && Free(text, IsEnd) && IsEnd(e)
    requires Tokenize(more + [c]) == Feed(Tokenize(more), c)
    ensures var s := junk + "$" + text + [e] + more; Tokenize(s + [c]) == Feed(Tokenize(s), c)
  {
    var t, left := Sentence(DropCr(text), e), junk + "$" + text + [e];
    TokenizeClosed(junk, text, e, more);
    TokenizeClosed(junk, text, e, more + [c]);
    FeedBehind(t, Tokenize(more), c);
    AppendByte(left, more, c);
  }

  // ----- the selection

  predicate IsGsv(nmea: string) {
    "GPGSV" <= nmea
  }

  /** The sentences whose C string starts with the request. */
  function Matcher(nmea: string): Sentence -> bool {
    (t: Sentence) => nmea <= t.WithEnd()
  }

  /** The number of consecutive matching sentences that end the first n. */
  function Run(p: Sentence -> bool, ts: seq<Sentence>, n: nat): (r: nat)
    requires n <= |ts|
    ensures r <= n
  {
    if n == 0 || !p(ts[n - 1]) then 0 else 1 + Run(p, ts, n - 1)
  }

  /** What a request has collected after the first n sentences. */
  function Select(p: Sentence -> bool, grouped: bool, ts: seq<Sentence>, n: nat): string
    requires n <= |ts|
  {
    if n == 0 then ""
    else
      var before, last := Select(p, grouped, ts, n - 1), ts[n - 1];
      if !p(last) then before
      else if !grouped then last.text
      else
        var r := Run(p, ts, n);
        if r % 4 == 0 then before
        else if r % 4 == 1 then last.WithEnd()
        else before + last.WithEnd()
  }

  /** What the request selects from a list of sentences. */
  function Selected(nmea: string, ts: seq<Sentence>): string {
    Select(Matcher(nmea), IsGsv(nmea), ts, |ts|)
  }

  /** Later sentences make no difference to what was selected before them. */
  lemma {:induction false} SelectPrefix(p: Sentence -> bool, grouped: bool, ts: seq<Sentence>, t: Sentence, n: nat)
    requires n <= |ts|
    ensures Run(p, ts + [t], n) == Run(p, ts, n)
    ensures Select(p, grouped, ts + [t], n) == Select(p, grouped, ts, n)
  {
    if n == 0 {
    } else {
      SelectPrefix(p, grouped, ts, t, n - 1);
    }
  }

  /** The k-th sentence is the last matching one of the first n. */
  predicate LastMatch(p: Sentence -> bool, ts: seq<Sentence>, n: nat, k: nat)
    requires n <= |ts|
  {
    k < n && p(ts[k]) && forall i | k < i < n :: !p(ts[i])
  }

  /** Without grouping, the text of the last matching sentence is selected. */
  lemma {:induction false} SelectsLast(p: Sentence -> bool, ts: seq<Sentence>, n: nat, k: nat)
    requires n <= |ts| && LastMatch(p, ts, n, k)
    ensures Select(p, false, ts, n) == ts[k].text
  {
    if k == n - 1 {
    } else {
      SelectsLast(p, ts, n - 1, k);
    }
  }

  predicate HasMatch(p: Sentence -> bool, ts: seq<Sentence>, n: nat)
    requires n <= |ts|
  {
    exists i | 0 <= i < n :: p(ts[i])
  }

  /** Where nothing matches, nothing is selected. */
  lemma {:induction false} SelectsNothing(p: Sentence -> bool, grouped: bool, ts: seq<Sentence>, n: nat)
    requires n <= |ts| && !HasMatch(p, ts, n)
    ensures Select(p, grouped, ts, n) == ""
  {
    if n == 0 {
    } else {
      SelectsNothing(p, grouped, ts, n - 1);
    }
  }

  /** The sentences ts[g..e] with their end bytes, in order. */
  function Joined(ts: seq<Sentence>, g: nat, e: nat): string
    requires e <= |ts|
  {
    if e <= g then "" else Joined(ts, g, e - 1) + ts[e - 1].WithEnd()
  }

  lemma JoinedOne(ts: seq<Sentence>, g: nat)
    requires g < |ts|
    ensures Joined(ts, g, g + 1) == ts[g].WithEnd()
  {
    assert Joined(ts, g, g) == "";
    assert "" + ts[g].WithEnd() == ts[g].WithEnd();
  }

  /** ts[g..e] is the newest group among the first n sentences: a stretch of one to three
      sentences inside one uninterrupted run of matching sentences that began at s; groups
      are three long and the sentence after a full group belongs to none; nothing after the
      group matches except that one sentence. */
  predicate NewestGroup(p: Sentence -> bool, ts: seq<Sentence>, n: nat, s: nat, g: nat, e: nat)
    requires n <= |ts|
  {
    && s <= g < e <= n && e - g <= 3
    && (s == 0 || !p(ts[s - 1]))
    && (forall i | s <= i < e :: p(ts[i]))
    && (g - s) % 4 == 0
    && (forall i | e <= i < n && p(ts[i]) :: i == e && e - g == 3)
  }

  lemma {:induction false} RunIsRun(p: Sentence -> bool, ts: seq<Sentence>, n: nat)
    requires n <= |ts|
    ensures var s := n - Run(p, ts, n);
            (forall i | s <= i < n :: p(ts[i])) && (s == 0 || !p(ts[s - 1]))
  {
    if n == 0 || !p(ts[n - 1]) {
    } else {
      RunIsRun(p, ts, n - 1);
    }
  }

  /** Where the newest group lies when the last sentence matches. */
  lemma GroupEnd(p: Sentence -> bool, ts: seq<Sentence>, n: nat, s: nat, g: nat, e: nat)
    requires 0 < n <= |ts| && NewestGroup(p, ts, n, s, g, e) && p(ts[n - 1])
    ensures s == n - Run(p, ts, n)
    ensures if Run(p, ts, n) % 4 == 0 then e == n - 1 && e - g == 3 else e == n && e - g == Run(p, ts, n) % 4
  {
    RunIsRun(p, ts, n);
    var q := n - Run(p, ts, n);
    assert e >= n - 1;
    assert q > 0 ==> !p(ts[q - 1]);
    assert s > 0 ==> !p(ts[s - 1]);
  }

  /** How the n-th sentence changes the newest group. */
  lemma GroupStep(p: Sentence -> bool, ts: seq<Sentence>, n: nat, s: nat, g: nat, e: nat)
    requires 0 < n <= |ts| && NewestGroup(p, ts, n - 1, s, g, e)
    requires p(ts[n - 1]) ==> n >= 2 && p(ts[n - 2])
    ensures var r := Run(p, ts, n);
            if r % 4 == 0 then NewestGroup(p, ts, n, s, g, e)
            else r % 4 != 1 ==> e == n - 1 && NewestGroup(p, ts, n, s, g, n)
  {
    if p(ts[n - 1]) {
      GroupEnd(p, ts, n - 1, s, g, e);
      assert Run(p, ts, n) == Run(p, ts, n - 1) + 1;
    }
  }

  lemma GroupBegins(p: Sentence -> bool, ts: seq<Sentence>, n: nat)
    requires n <= |ts| && Run(p, ts, n) % 4 == 1
    ensures NewestGroup(p, ts, n, n - Run(p, ts, n), n - 1, n)
  {
    RunIsRun(p, ts, n);
  }

  lemma SelectsOne(p: Sentence -> bool, ts: seq<Sentence>, n: nat)
    requires n <= |ts| && Run(p, ts, n) % 4 == 1
    ensures n > 0 && Select(p, true, ts, n) == Joined(ts, n - 1, n)
  {
    JoinedOne(ts, n - 1);
  }

  lemma SelectStep(p: Sentence -> bool, ts: seq<Sentence>, n: nat, g: nat, e: nat)
    requires 0 < n <= |ts| && Run(p, ts, n) % 4 != 1
    requires g < e <= |ts| && Select(p, true, ts, n - 1) == Joined(ts, g, e)
    ensures Run(p, ts, n) % 4 == 0 ==> Select(p, true, ts, n) == Joined(ts, g, e)
    ensures Run(p, ts, n) % 4 != 0 && e == n - 1 ==> Select(p, true, ts, n) == Joined(ts, g, n)
  {
  }

  /** Outside the start of a group, an earlier sentence matches. */
  lemma MatchBefore(p: Sentence -> bool, ts: seq<Sentence>, n: nat)
    requires n <= |ts| && HasMatch(p, ts, n) && Run(p, ts, n) % 4 != 1
    ensures n > 0 && HasMatch(p, ts, n - 1)
    ensures p(ts[n - 1]) ==> n >= 2 && p(ts[n - 2])
  {
    if p(ts[n - 1]) {
      assert Run(p, ts, n - 1) == Run(p, ts, n) - 1 > 0;
      assert p(ts[n - 2]);
    }
  }

  /** The newest group is selected: the sentences of ts[g..e], in order, each with its end
      byte. */
  ghost predicate SelectsGroup(p: Sentence -> bool, ts: seq<Sentence>, n: nat)
    requires n <= |ts|
  {
    exists s: nat, g: nat, e: nat :: NewestGroup(p, ts, n, s, g, e) && Select(p, true, ts, n) == Joined(ts, g, e)
  }

  /** At the start of a group, it is the newest one. */
  lemma FirstOfGroup(p: Sentence -> bool, ts: seq<Sentence>, n: nat)
    requires n <= |ts| && Run(p, ts, n) % 4 == 1
    ensures SelectsGroup(p, ts, n)
  {
    GroupBegins(p, ts, n);
    SelectsOne(p, ts, n);
  }

  /** Outside the start of a group, the newest group stays or takes one more sentence. */
  lemma NextGroup(p: Sentence -> bool, ts: seq<Sentence>, n: nat)
    requires 0 < n <= |ts| && Run(p, ts, n) % 4 != 1 && (p(ts[n - 1]) ==> n >= 2 && p(ts[n - 2]))
    requires SelectsGroup(p, ts, n - 1)
    ensures SelectsGroup(p, ts, n)
  {
    var s: nat, g: nat, e: nat :| NewestGroup(p, ts, n - 1, s, g, e) && Select(p, true, ts, n - 1) == Joined(ts, g, e);
    GroupStep(p, ts, n, s, g, e);
    SelectStep(p, ts, n, g, e);
    var e' := if Run(p, ts, n) % 4 == 0 then e else n;
    assert NewestGroup(p, ts, n, s, g, e');
  }

  /** A GSV request selects the newest group. */
  lemma {:induction false} SelectsNewestGroup(p: Sentence -> bool, ts: seq<Sentence>, n: nat)
    requires n <= |ts| && HasMatch(p, ts, n)
    ensures SelectsGroup(p, ts, n)
  {
    if Run(p, ts, n) % 4 == 1 {
      FirstOfGroup(p, ts, n);
    } else {
      MatchBefore(p, ts, n);
      SelectsNewestGroup(p, ts, n - 1);
      NextGroup(p, ts, n);
    }
  }

  lemma {:induction false} LastMatchExists(p: Sentence -> bool, ts: seq<Sentence>, n: nat) returns (k: nat)
    requires n <= |ts| && HasMatch(p, ts, n)
    ensures LastMatch(p, ts, n, k)
  {
    if p(ts[n - 1]) {
      k := n - 1;
    } else {
      k := LastMatchExists(p, ts, n - 1);
    }
  }

  /** A request for anything but GSV gets the text of the last sentence of the stream that
      starts with it, and nothing when there is none. */
  lemma PlainRequest(nmea: string, s: string)
    requires !IsGsv(nmea)
    ensures var p, ts := Matcher(nmea), Tokenize(s).done;
            if HasMatch(p, ts, |ts|) then
              exists k: nat :: LastMatch(p, ts, |ts|, k) && Selected(nmea, ts) == ts[k].text
            else Selected(nmea, ts) == ""
  {
    var p, ts := Matcher(nmea), Tokenize(s).done;
    if HasMatch(p, ts, |ts|) {
      var k := LastMatchExists(p, ts, |ts|);
      SelectsLast(p, ts, |ts|, k);
    } else {
      SelectsNothing(p, false, ts, |ts|);
    }
  }

  /** A GSV request gets the newest group of the stream, and nothing when nothing matches. */
  lemma GsvRequest(nmea: string, s: string)
    requires IsGsv(nmea)
    ensures var p, ts := Matcher(nmea), Tokenize(s).done;
            if HasMatch(p, ts, |ts|) then
              exists r: nat, g: nat, e: nat ::
                NewestGroup(p, ts, |ts|, r, g, e) && Selected(nmea, ts) == Joined(ts, g, e)
            else Selected(nmea, ts) == ""
  {
    var p, ts := Matcher(nmea), Tokenize(s).done;
    if HasMatch(p, ts, |ts|) {
      SelectsNewestGroup(p, ts, |ts|);
    } else {
      SelectsNothing(p, true, ts, |ts|);
    }
  }
}
