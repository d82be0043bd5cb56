/** Which requests are grouped, what the sentences of a stream are, and what a request gets, in
    terms of characters. */
module NmeaMeaning {
  import opened Common
  import opened NmeaTokens

  // ----- the sentences of a stream

  predicate NoDollar(s: string) {
    forall i | 0 <= i < |s| :: s[i] != '$'
  }

  predicate NoEnd(s: string) {
    forall i | 0 <= i < |s| :: s[i] != '\n' && s[i] != '\0' && s[i] != '$'
  }

  /** Bytes that belong to no sentence, a '$', a text, and the byte that ends it. */
  datatype Part = Part(junk: string, text: string, end: char) {
    predicate Valid() {
      NoDollar(junk) && NoEnd(text) && (end == '\n' || end == '\0' || end == '$')
    }
    function Bytes(): string {
      junk + "$" + text + [end]
    }
  }

  predicate AllParts(parts: seq<Part>) {
    forall i | 0 <= i < |parts| :: parts[i].Valid()
  }

  function StreamOf(parts: seq<Part>, rest: string): string {
    if parts == [] then rest else parts[0].Bytes() + StreamOf(parts[1..], rest)
  }

  /** A text without its carriage returns: nothing else is lost. */
  lemma WithoutCr(s: string, c: char)
    ensures DropCr("") == "" && DropCr(s + [c]) == if c == '\r' then DropCr(s) else DropCr(s) + [c]
  {
    DropCrSnoc(s, c);
  }

  function Sentences(parts: seq<Part>): (ts: seq<Sentence>)
    ensures |ts| == |parts|
    ensures forall i :: 0 <= i < |parts| ==> ts[i] == Sentence(DropCr(parts[i].text), parts[i].end)
  {
    seq(|parts|, i requires 0 <= i < |parts| => Sentence(DropCr(parts[i].text), parts[i].end))
  }

  /** What follows the last finished sentence. */
  ghost predicate Unfinished(rest: string) {
    NoDollar(rest) || exists junk, text :: NoDollar(junk) && NoEnd(text) && rest == junk + "$" + text
  }

  lemma UnfinishedHasNone(rest: string)
    requires Unfinished(rest)
    ensures Tokenize(rest).done == []
  {
    if NoDollar(rest) {
      TokenizeNone(rest);
    } else {
      var junk, text :| NoDollar(junk) && NoEnd(text) && rest == junk + "$" + text;
      TokenizeOpen(junk, text);
    }
  }

  lemma FirstSentence(part: Part, more: string)
    requires part.Valid()
    ensures Tokenize(part.Bytes() + more).done == [Sentence(DropCr(part.text), part.end)] + Tokenize(more).done
  {
    TokenizeClosed(part.junk, part.text, part.end, more);
  }

  lemma SentencesStep(parts: seq<Part>)
    requires parts != []
    ensures Sentences(parts) == [Sentence(DropCr(parts[0].text), parts[0].end)] + Sentences(parts[1..])
  {
  }

  lemma StreamStep(parts: seq<Part>, rest: string)
    requires parts != [] && parts[0].Valid()
    ensures Tokenize(StreamOf(parts, rest)).done
            == [Sentence(DropCr(parts[0].text), parts[0].end)] + Tokenize(StreamOf(parts[1..], rest)).done
  {
    FirstSentence(parts[0], StreamOf(parts[1..], rest));
  }

  /** Of every stream made so, the sentences are those of its parts, in order. */
  lemma {:induction false} StreamSentences(parts: seq<Part>, rest: string)
    requires AllParts(parts) && Unfinished(rest)
    ensures Tokenize(StreamOf(parts, rest)).done == Sentences(parts)
  {
    if parts == [] {
      UnfinishedHasNone(rest);
    } else {
      StreamSentences(parts[1..], rest);
      StreamStep(parts, rest);
      SentencesStep(parts);
    }
  }

  lemma OneMorePart(part: Part, parts: seq<Part>, rest: string, more: string)
    requires more == StreamOf(parts, rest)
    ensures StreamOf([part] + parts, rest) == part.Bytes() + more
  {
    assert ([part] + parts)[1..] == parts;
  }

  /** And every stream is made so. */
  lemma {:induction false} StreamHasParts(s: string) returns (parts: seq<Part>, rest: string)
    ensures AllParts(parts) && Unfinished(rest) && s == StreamOf(parts, rest)
    decreases |s|
  {
    var shape := ShapeOf(s);
    match shape
    case Outside =>
      parts, rest := [], s;
    case Open(junk, text) =>
      parts, rest := [], s;
      assert NoDollar(junk) && NoEnd(text);
    case Closed(junk, text, end, more) =>
      var part := Part(junk, text, end);
      parts, rest := StreamHasParts(more);
      OneMorePart(part, parts, rest, more);
      parts := [part] + parts;
  }

  // ----- what a request gets

  /** The C string of a sentence: its text, and its end unless that is a NUL. */
  function CString(t: Sentence): string {
    if t.end == '\0' then t.text else t.text + [t.end]
  }

  predicate Wanted(nmea: string, t: Sentence) {
    |nmea| <= |CString(t)| && CString(t)[..|nmea|] == nmea
  }

  lemma MatcherMeans(nmea: string, t: Sentence)
    ensures Matcher(nmea)(t) <==> Wanted(nmea, t)
    ensures t.WithEnd() == CString(t)
  {
  }

  /** The C strings of one to three sentences in a row. */
  function Strings(ts: seq<Sentence>, g: nat, e: nat): string
    requires g < e <= |ts| && e <= g + 3
  {
    if e == g + 1 then CString(ts[g])
    else if e == g + 2 then CString(ts[g]) + CString(ts[g + 1])
    else CString(ts[g]) + CString(ts[g + 1]) + CString(ts[g + 2])
  }

  lemma {:induction false} JoinedStep(ts: seq<Sentence>, g: nat, e: nat)
    requires g < e <= |ts|
    ensures Joined(ts, g, e) == (if e == g + 1 then "" else Joined(ts, g, e - 1)) + CString(ts[e - 1])
  {
  }

  lemma {:induction false} JoinedOne(ts: seq<Sentence>, g: nat)
    requires g < |ts|
    ensures Joined(ts, g, g + 1) == CString(ts[g])
  {
    JoinedStep(ts, g, g + 1);
    assert "" + CString(ts[g]) == CString(ts[g]);
  }

  lemma {:induction false} JoinedTwo(ts: seq<Sentence>, g: nat)
    requires g + 1 < |ts|
    ensures Joined(ts, g, g + 2) == CString(ts[g]) + CString(ts[g + 1])
  {
    JoinedOne(ts, g);
    JoinedStep(ts, g, g + 2);
  }

  lemma {:induction false} JoinedThree(ts: seq<Sentence>, g: nat)
    requires g + 2 < |ts|
    ensures Joined(ts, g, g + 3) == CString(ts[g]) + CString(ts[g + 1]) + CString(ts[g + 2])
  {
    JoinedTwo(ts, g);
    JoinedStep(ts, g, g + 3);
  }

  lemma StringsAre(ts: seq<Sentence>, g: nat, e: nat, joined: string)
    requires g < e <= |ts| && e <= g + 3
    requires e == g + 1 ==> joined == CString(ts[g])
    requires e == g + 2 ==> joined == CString(ts[g]) + CString(ts[g + 1])
    requires e == g + 3 ==> joined == CString(ts[g]) + CString(ts[g + 1]) + CString(ts[g + 2])
    ensures joined == Strings(ts, g, e)
  {
  }

  lemma {:induction false} JoinedMeans(ts: seq<Sentence>, g: nat, e: nat)
    requires g < e <= |ts| && e <= g + 3
    ensures Joined(ts, g, e) == Strings(ts, g, e)
  {
    if e == g + 1 {
      JoinedOne(ts, g);
    } else if e == g + 2 {
      JoinedTwo(ts, g);
    } else {
      JoinedThree(ts, g);
    }
    StringsAre(ts, g, e, Joined(ts, g, e));
  }

  predicate LastWanted(nmea: string, ts: seq<Sentence>, k: nat) {
    k < |ts| && Wanted(nmea, ts[k]) && forall i | k < i < |ts| :: !Wanted(nmea, ts[i])
  }

  predicate NoneWanted(nmea: string, ts: seq<Sentence>) {
    forall i | 0 <= i < |ts| :: !Wanted(nmea, ts[i])
  }

  /** One to three wanted sentences in a row, within one unbroken row of them that began at s
      and of which every fourth is dropped; behind them nothing is wanted but such a fourth. */
  predicate Group(nmea: string, ts: seq<Sentence>, s: nat, g: nat, e: nat) {
    && s <= g < e <= |ts| && e - g <= 3 && (g - s) % 4 == 0
    && (s == 0 || !Wanted(nmea, ts[s - 1]))
    && (forall i | s <= i < e :: Wanted(nmea, ts[i]))
    && (forall i | e <= i < |ts| && Wanted(nmea, ts[i]) :: i == e && e - g == 3)
  }

  lemma SameMatches(nmea: string, ts: seq<Sentence>)
    ensures forall i | 0 <= i < |ts| :: Matcher(nmea)(ts[i]) <==> Wanted(nmea, ts[i])
  {
    forall i | 0 <= i < |ts| ensures Matcher(nmea)(ts[i]) <==> Wanted(nmea, ts[i]) {
      MatcherMeans(nmea, ts[i]);
    }
  }

  /** A request that does not start with GPGSV gets the text of the last wanted sentence. */
  lemma PlainMeans(nmea: string, s: string)
    requires !("GPGSV" <= nmea)
    ensures var ts := Tokenize(s).done;
            if NoneWanted(nmea, ts) then Selected(nmea, ts) == ""
            else exists k: nat :: LastWanted(nmea, ts, k) && Selected(nmea, ts) == ts[k].text
  {
    var p, ts := Matcher(nmea), Tokenize(s).done;
    SameMatches(nmea, ts);
    PlainRequest(nmea, s);
    if HasMatch(p, ts, |ts|) {
      var k: nat :| LastMatch(p, ts, |ts|, k) && Selected(nmea, ts) == ts[k].text;
      assert LastWanted(nmea, ts, k);
    }
  }

  /** One that does, GPGSV itself among them, gets the C strings of the newest group. */
  lemma GsvMeans(nmea: string, s: string)
    requires "GPGSV" <= nmea
    ensures var ts := Tokenize(s).done;
            if NoneWanted(nmea, ts) then Selected(nmea, ts) == ""
            else exists r: nat, g: nat, e: nat ::
                   Group(nmea, ts, r, g, e) && Selected(nmea, ts) == Strings(ts, g, e)
  {
    var p, ts := Matcher(nmea), Tokenize(s).done;
    SameMatches(nmea, ts);
    GsvRequest(nmea, s);
    if HasMatch(p, ts, |ts|) {
      var r: nat, g: nat, e: nat :| NewestGroup(p, ts, |ts|, r, g, e) && Selected(nmea, ts) == Joined(ts, g, e);
      JoinedMeans(ts, g, e);
      assert Group(nmea, ts, r, g, e);
    }
  }

  /** Without one line end behind it. */
  function Trimmed(s: string): string {
    if s != "" && (s[|s| - 1] == '\n' || s[|s| - 1] == '\r') then s[..|s| - 1] else s
  }

  /** The text that a request is answered with. */
  ghost predicate Answers(nmea: string, s: string, t: string) {
    var ts := Tokenize(s).done;
    if NoneWanted(nmea, ts) then t == ""
    else if "GPGSV" <= nmea then
      exists r: nat, g: nat, e: nat :: Group(nmea, ts, r, g, e) && t == Trimmed(Strings(ts, g, e))
    else exists k: nat :: LastWanted(nmea, ts, k) && t == ts[k].text
  }
}
