/** The reply walk of send_mod_request: netlink messages (RFC 3549, section 2.3.2) until the
    acknowledgement (section 2.3.2.2).  All arithmetic is the 32-bit arithmetic of the code. */
module NetlinkAck {

  import opened Common

  const NLMSG_ERROR := 2
  const NLMSGHDR_SIZE := 16
  const NLMSGERR_SIZE := 20
  const TWO31 := 0x8000_0000
  const TWO32 := 0x1_0000_0000

  /** The receive buffer and whatever lies behind it in memory. */
  type Memory = nat -> u8

  function ToInt32(x: int): (r: int)
    ensures -TWO31 <= r < TWO31
  {
    if x % TWO32 < TWO31 then x % TWO32 else x % TWO32 - TWO32
  }

  function U16At(mem: Memory, p: nat): nat {
    mem(p) + 0x100 * mem(p + 1)
  }

  function U32At(mem: Memory, p: nat): (r: nat)
    ensures r < TWO32
  {
    mem(p) + 0x100 * mem(p + 1) + 0x1_0000 * mem(p + 2) + 0x100_0000 * mem(p + 3)
  }

  // ----- one message

  /** int len = h->nlmsg_len. */
  function Len(mem: Memory, p: nat): int {
    ToInt32(U32At(mem, p))
  }

  function Type(mem: Memory, p: nat): nat {
    U16At(mem, p + 4)
  }

  /** ((struct nlmsgerr *)NLMSG_DATA(h))->error. */
  function ErrorCode(mem: Memory, p: nat): int {
    ToInt32(U32At(mem, p + NLMSGHDR_SIZE))
  }

  datatype Place = Place(p: nat, status: int)

  /** (size_t) status >= sizeof(*h): a negative count compares as a huge one. */
  predicate Going(status: int) {
    status < 0 || status >= NLMSGHDR_SIZE
  }

  /** A whole message, not an acknowledgement, at a place of the walk. */
  predicate Plain(mem: Memory, at: Place) {
    Going(at.status) && NLMSGHDR_SIZE <= Len(mem, at.p) <= at.status && Type(mem, at.p) != NLMSG_ERROR
  }

  /** A length field whose subtraction of the header size overflows to a positive number:
      the check `l < 0 || len > status` lets it through. */
  predicate Overflows(mem: Memory, p: nat) {
    TWO31 <= U32At(mem, p) < TWO31 + NLMSGHDR_SIZE
  }

  datatype Outcome = Acked | Refused | NextDatagram | Stray

  /** How the walk ends at a place; None where it goes on to the next message.  After a plain
      message with an overflowing length the next header pointer leaves the buffer: Stray. */
  function Stop(mem: Memory, at: Place): Option<Outcome> {
    if !Going(at.status) then Some(NextDatagram)
    else if Overflows(mem, at.p) then
      if Type(mem, at.p) != NLMSG_ERROR then Some(Stray)
      else Some(if ErrorCode(mem, at.p) == 0 then Acked else Refused)
    else if !(NLMSGHDR_SIZE <= Len(mem, at.p) <= at.status) then Some(Refused)
    else if Type(mem, at.p) != NLMSG_ERROR then None
    else Some(if Len(mem, at.p) >= NLMSGHDR_SIZE + NLMSGERR_SIZE && ErrorCode(mem, at.p) == 0 then Acked else Refused)
  }

  /** The place after k plain messages from the start of a datagram of the given size. */
  function Reach(mem: Memory, size: int, k: nat): Option<Place> {
    if k == 0 then Some(Place(0, size))
    else
      var before := Reach(mem, size, k - 1);
      if before.Some? && Plain(mem, before.value) then
        var n := Align(Len(mem, before.value.p));
        Some(Place(before.value.p + n, before.value.status - n))
      else None
  }

  /** The walk of a datagram ends with the given outcome, after k plain messages. */
  predicate Ends(mem: Memory, size: int, k: nat, outcome: Outcome) {
    Reach(mem, size, k).Some? && Stop(mem, Reach(mem, size, k).value) == Some(outcome)
  }

  datatype Datagram = Datagram(mem: Memory, size: int)

  /** The walk of a datagram ends with the given outcome, after messages that it holds. */
  ghost predicate WalkEnds(d: Datagram, outcome: Outcome) {
    exists k: nat :: Ends(d.mem, d.size, k, outcome) && NLMSGHDR_SIZE * k <= d.size + 3
  }

  /** l - sizeof(*h) on a length that overflows is large and positive, though the length is
      negative; on any other it is the difference. */
  lemma LessHeader(u: nat)
    requires u < TWO32
    ensures var l := ToInt32(ToInt32(u) - NLMSGHDR_SIZE);
            if TWO31 <= u < TWO31 + NLMSGHDR_SIZE then l >= NLMSGERR_SIZE && ToInt32(u) < 0
            else l == ToInt32(u) - NLMSGHDR_SIZE
  {
    var len := if u < TWO31 then u else u - TWO32;
    assert ToInt32(u) == len;
    if TWO31 <= u < TWO31 + NLMSGHDR_SIZE {
      assert (len - NLMSGHDR_SIZE) % TWO32 == len - NLMSGHDR_SIZE + TWO32;
    }
  }

  /** The code's test of a header, in terms of the length: it refuses exactly the lengths
      below the header size and above the remaining count, save for the overflowing ones. */
  lemma HeaderCheck(mem: Memory, at: Place)
    requires at.status >= -3
    ensures var len := Len(mem, at.p);
            (ToInt32(len - NLMSGHDR_SIZE) < 0 || len > at.status)
            <==> !Overflows(mem, at.p) && !(NLMSGHDR_SIZE <= len <= at.status)
    ensures var len := Len(mem, at.p);
            Overflows(mem, at.p) ==> ToInt32(len - NLMSGHDR_SIZE) >= NLMSGERR_SIZE && len < 0
    ensures !Overflows(mem, at.p) && Len(mem, at.p) >= NLMSGHDR_SIZE
            ==> ToInt32(Len(mem, at.p) - NLMSGHDR_SIZE) == Len(mem, at.p) - NLMSGHDR_SIZE
  {
    LessHeader(U32At(mem, at.p));
  }

  /** The body of the loop for one header: how it returns, if it does. */
  method OnMessage(mem: Memory, h: nat, status: int) returns (stop: Option<Outcome>)
    requires -3 <= status && Going(status)
    ensures if stop.Some? then stop == Stop(mem, Place(h, status)) else Plain(mem, Place(h, status))
  {
    HeaderCheck(mem, Place(h, status));
    var len := Len(mem, h);
    var l := ToInt32(len - NLMSGHDR_SIZE);
    if l < 0 || len > status {
      return Some(Refused);
    }
    if Type(mem, h) == NLMSG_ERROR {
      if l < NLMSGERR_SIZE {
      } else {
        if ErrorCode(mem, h) == 0 {
          return Some(Acked);
        }
      }
      return Some(Refused);
    }
    stop := if len < 0 then Some(Stray) else None;
  }

  /** NLMSG_ALIGN(len) bytes on: the count drops by at least 16, to -3 at the least. */
  method Advance(mem: Memory, ghost size: int, ghost k: nat, h: nat, status: int) returns (h': nat, status': int)
    requires Reach(mem, size, k) == Some(Place(h, status)) && Plain(mem, Place(h, status)) && status >= -3
    ensures Reach(mem, size, k + 1) == Some(Place(h', status'))
    ensures -3 <= status' <= status - NLMSGHDR_SIZE
  {
    var len := Len(mem, h);
    status' := status - Align(len);
    h' := h + Align(len);
  }

  /** The inner loop of send_mod_request.  It ends on every datagram: the remaining count,
      which an unaligned tail may take down to -3, drops by at least 16 a message. */
  method AckWalk(mem: Memory, size: int) returns (outcome: Outcome)
    requires -1 <= size < TWO31
    ensures WalkEnds(Datagram(mem, size), outcome)
  {
    var status: int, h: nat := size, 0;
    ghost var k: nat := 0;
    while status < 0 || status >= NLMSGHDR_SIZE
      invariant Reach(mem, size, k) == Some(Place(h, status))
      invariant -3 <= status <= size - NLMSGHDR_SIZE * k
      decreases status + 4
    {
      var stop := OnMessage(mem, h, status);
      if stop.Some? {
        assert Ends(mem, size, k, stop.value);
        return stop.value;
      }
      h, status := Advance(mem, size, k, h, status);
      k := k + 1;
    }
    assert Ends(mem, size, k, NextDatagram);
    return NextDatagram;
  }

  // ----- what the outcome means

  lemma StopsOrGoesOn(mem: Memory, at: Place)
    ensures Stop(mem, at).None? <==> Plain(mem, at)
  {
  }

  lemma NoneAfterNone(mem: Memory, size: int, m: nat)
    requires m > 0
    requires Reach(mem, size, m - 1).None? || !Plain(mem, Reach(mem, size, m - 1).value)
    ensures Reach(mem, size, m).None?
  {
  }

  lemma {:induction false} NoneFrom(mem: Memory, size: int, k: nat, m: nat)
    requires Reach(mem, size, k).None? && k <= m
    ensures Reach(mem, size, m).None?
    decreases m
  {
    if m == k {
    } else {
      NoneFrom(mem, size, k, m - 1);
      NoneAfterNone(mem, size, m);
    }
  }

  lemma NothingBeyond(mem: Memory, size: int, k: nat, o: Outcome, m: nat)
    requires Ends(mem, size, k, o) && k < m
    ensures Reach(mem, size, m).None?
  {
    StopsOrGoesOn(mem, Reach(mem, size, k).value);
    NoneAfterNone(mem, size, k + 1);
    NoneFrom(mem, size, k + 1, m);
  }

  /** The walk has one end only. */
  lemma OneEnd(mem: Memory, size: int, k: nat, o: Outcome, m: nat, o': Outcome)
    requires Ends(mem, size, k, o) && Ends(mem, size, m, o')
    ensures k == m && o == o'
  {
    if k < m {
      NothingBeyond(mem, size, k, o, m);
    } else if m < k {
      NothingBeyond(mem, size, m, o', k);
    }
  }

  /** A place that k messages may lead to: 4-aligned, with what remains of the datagram. */
  predicate Placed(size: int, k: nat, at: Place) {
    at.p % 4 == 0 && at.p + at.status == size && at.status >= -3 && NLMSGHDR_SIZE * k <= at.p
  }

  lemma PlacedStep(size: int, k: nat, at: Place, len: int)
    requires Placed(size, k, at) && NLMSGHDR_SIZE <= len <= at.status
    ensures Placed(size, k + 1, Place(at.p + Align(len), at.status - Align(len)))
  {
  }

  lemma ReachBack(mem: Memory, size: int, k: nat) returns (before: Place)
    requires k > 0 && Reach(mem, size, k).Some?
    ensures Reach(mem, size, k - 1) == Some(before) && NLMSGHDR_SIZE <= Len(mem, before.p) <= before.status
    ensures var n := Align(Len(mem, before.p));
            Reach(mem, size, k) == Some(Place(before.p + n, before.status - n))
  {
    before := Reach(mem, size, k - 1).value;
  }

  lemma {:induction false} ReachedPlace(d: Datagram, k: nat)
    requires -1 <= d.size && Reach(d.mem, d.size, k).Some?
    ensures Placed(d.size, k, Reach(d.mem, d.size, k).value)
  {
    if k == 0 {
    } else {
      var before := ReachBack(d.mem, d.size, k);
      ReachedPlace(d, k - 1);
      PlacedStep(d.size, k - 1, before, Len(d.mem, before.p));
    }
  }

  /** The walk of a datagram comes to a place, after whole messages that are not errors. */
  ghost predicate Reaches(d: Datagram, at: Place) {
    exists k: nat :: Reach(d.mem, d.size, k) == Some(at)
  }

  lemma EndsAtPlace(d: Datagram, o: Outcome)
    requires -1 <= d.size
    ensures WalkEnds(d, o) <==> exists at :: Reaches(d, at) && Stop(d.mem, at) == Some(o)
  {
    if WalkEnds(d, o) {
      var k: nat :| Ends(d.mem, d.size, k, o);
      assert Reaches(d, Reach(d.mem, d.size, k).value);
    }
    if at :| Reaches(d, at) && Stop(d.mem, at) == Some(o) {
      var k: nat :| Reach(d.mem, d.size, k) == Some(at);
      ReachedPlace(d, k);
      assert Ends(d.mem, d.size, k, o);
    }
  }

  /** The walk of a datagram has one outcome. */
  lemma OneOutcome(d: Datagram, o: Outcome, o': Outcome)
    requires WalkEnds(d, o) && WalkEnds(d, o')
    ensures o == o'
  {
    var k: nat :| Ends(d.mem, d.size, k, o);
    var m: nat :| Ends(d.mem, d.size, m, o');
    OneEnd(d.mem, d.size, k, o, m, o');
  }

  /** An error message with error 0, large enough and inside the remaining count. */
  predicate AckAt(mem: Memory, at: Place) {
    Type(mem, at.p) == NLMSG_ERROR && ErrorCode(mem, at.p) == 0
    && NLMSGHDR_SIZE + NLMSGERR_SIZE <= Len(mem, at.p) <= at.status
  }

  /** A header with an overflowing length that the walk would look at. */
  predicate OverflowAt(mem: Memory, at: Place) {
    Going(at.status) && Overflows(mem, at.p)
  }

  /** An error message with error 0 whose length field overflows. */
  predicate FalseAckAt(mem: Memory, at: Place) {
    OverflowAt(mem, at) && Type(mem, at.p) == NLMSG_ERROR && ErrorCode(mem, at.p) == 0
  }

  /** A message that is not an error and whose length field overflows. */
  predicate AstrayAt(mem: Memory, at: Place) {
    OverflowAt(mem, at) && Type(mem, at.p) != NLMSG_ERROR
  }

  lemma StopKinds(mem: Memory, at: Place)
    ensures Stop(mem, at) == Some(Acked) <==> AckAt(mem, at) || FalseAckAt(mem, at)
    ensures Stop(mem, at) == Some(Stray) <==> AstrayAt(mem, at)
    ensures !(AckAt(mem, at) && FalseAckAt(mem, at))
  {
  }

  /** Success is reported for a datagram exactly when its walk comes to an acknowledgement, or
      to an error message with error 0 whose length field overflows. */
  lemma AckedMeans(d: Datagram)
    requires -1 <= d.size
    ensures WalkEnds(d, Acked) <==> exists at :: Reaches(d, at) && (AckAt(d.mem, at) || FalseAckAt(d.mem, at))
  {
    EndsAtPlace(d, Acked);
    forall at ensures Stop(d.mem, at) == Some(Acked) <==> AckAt(d.mem, at) || FalseAckAt(d.mem, at) {
      StopKinds(d.mem, at);
    }
  }

  /** The walk leaves the datagram exactly when it comes to a message that is not an error and
      whose length field overflows. */
  lemma StrayMeans(d: Datagram)
    requires -1 <= d.size
    ensures WalkEnds(d, Stray) <==> exists at :: Reaches(d, at) && AstrayAt(d.mem, at)
  {
    EndsAtPlace(d, Stray);
    forall at ensures Stop(d.mem, at) == Some(Stray) <==> AstrayAt(d.mem, at) {
      StopKinds(d.mem, at);
    }
  }

  /** No header that the datagram can hold, at any 4-aligned offset, has an overflowing length. */
  predicate Tame(d: Datagram) {
    forall p: nat | p <= d.size + 3 && p % 4 == 0 && Going(d.size - p) :: !Overflows(d.mem, p)
  }

  /** The walk of a tame datagram stays inside it and reports success exactly when it comes to
      a whole acknowledgement. */
  lemma TameIsSafe(d: Datagram)
    requires -1 <= d.size && Tame(d)
    ensures !WalkEnds(d, Stray)
    ensures WalkEnds(d, Acked) <==> HoldsAck(d)
  {
    forall at | Reaches(d, at) ensures !OverflowAt(d.mem, at) {
      var k: nat :| Reach(d.mem, d.size, k) == Some(at);
      ReachedPlace(d, k);
    }
    AckedMeans(d);
    StrayMeans(d);
  }

  /** The walk comes to an acknowledgement. */
  ghost predicate HoldsAck(d: Datagram) {
    exists at :: Reaches(d, at) && AckAt(d.mem, at)
  }

  /** The walk leaves the datagram, or reports success without an acknowledgement. */
  ghost predicate Misled(d: Datagram) {
    WalkEnds(d, Stray) || (WalkEnds(d, Acked) && !HoldsAck(d))
  }

  /** The walk stops at one place only. */
  lemma OnePlace(d: Datagram, at: Place, o: Outcome, other: Place, o': Outcome)
    requires Reaches(d, at) && Stop(d.mem, at) == Some(o)
    requires Reaches(d, other) && Stop(d.mem, other) == Some(o')
    ensures at == other
  {
    var k: nat :| Reach(d.mem, d.size, k) == Some(at);
    var m: nat :| Reach(d.mem, d.size, m) == Some(other);
    OneEnd(d.mem, d.size, k, o, m, o');
  }

  lemma FalseAckIsNone(d: Datagram, at: Place)
    requires Reaches(d, at) && FalseAckAt(d.mem, at)
    ensures !HoldsAck(d)
  {
    StopKinds(d.mem, at);
    if other :| Reaches(d, other) && AckAt(d.mem, other) {
      StopKinds(d.mem, other);
      OnePlace(d, at, Acked, other, Acked);
    }
  }

  /** It is misled exactly when it comes to an overflowing length, unless that is in an error
      message with an error other than 0. */
  lemma MisledMeans(d: Datagram)
    requires -1 <= d.size
    ensures Misled(d) <==> exists at :: Reaches(d, at) && (AstrayAt(d.mem, at) || FalseAckAt(d.mem, at))
  {
    AckedMeans(d);
    StrayMeans(d);
    if at :| Reaches(d, at) && FalseAckAt(d.mem, at) {
      FalseAckIsNone(d, at);
    }
  }

  /** Sixteen bytes that give the length 0x80000000 and the type 0 lead the walk astray. */
  lemma StrayExists()
    ensures exists d: Datagram :: d.size == 16 && WalkEnds(d, Stray) && Misled(d)
  {
    var mem: Memory := p => if p == 3 then 0x80 else 0;
    assert U32At(mem, 0) == TWO31;
    assert Ends(mem, 16, 0, Stray);
    assert WalkEnds(Datagram(mem, 16), Stray);
  }

  /** Sixteen bytes that give the length 0x80000000 and the type of an error, with zeros behind
      them, are taken for an acknowledgement, which takes 36. */
  lemma FalseAckExists()
    ensures exists d: Datagram :: d.size == 16 && WalkEnds(d, Acked) && Misled(d)
  {
    var mem: Memory := p => if p == 3 then 0x80 else if p == 4 then NLMSG_ERROR else 0;
    var d, at := Datagram(mem, 16), Place(0, 16);
    assert U32At(mem, 0) == TWO31 && U32At(mem, 16) == 0 && U16At(mem, 4) == NLMSG_ERROR;
    assert Ends(mem, 16, 0, Acked);
    assert WalkEnds(d, Acked);
    assert Reach(mem, 16, 0) == Some(at);
    assert Reaches(d, at) && OverflowAt(mem, at);
    MisledMeans(d);
  }

  /** The n-th datagram is the first whose walk does not go on to the next one, and it ends
      with the given outcome. */
  ghost predicate AnsweredAt(replies: seq<Datagram>, n: nat, outcome: Outcome) {
    && n < |replies| && WalkEnds(replies[n], outcome)
    && forall i :: 0 <= i < n ==> WalkEnds(replies[i], NextDatagram)
  }

  /** There is one answer at most. */
  lemma OneAnswer(replies: seq<Datagram>, n: nat, o: Outcome, m: nat, o': Outcome)
    requires AnsweredAt(replies, n, o) && o != NextDatagram
    requires AnsweredAt(replies, m, o') && o' != NextDatagram
    ensures n == m && o == o'
  {
    if n < m {
      OneOutcome(replies[n], o, NextDatagram);
    } else if m < n {
      OneOutcome(replies[m], o', NextDatagram);
    } else {
      OneOutcome(replies[n], o, o');
    }
  }

  /** Some datagram answers the request with the given outcome. */
  ghost predicate Answered(replies: seq<Datagram>, o: Outcome) {
    exists n: nat :: AnsweredAt(replies, n, o)
  }

  lemma OnlyAnswer(replies: seq<Datagram>, n: nat, o: Outcome, o': Outcome)
    requires AnsweredAt(replies, n, o) && o != NextDatagram && o' != NextDatagram
    ensures Answered(replies, o') <==> o == o'
  {
    if m: nat :| AnsweredAt(replies, m, o') {
      OneAnswer(replies, n, o, m, o');
    }
  }

  lemma NoAnswer(replies: seq<Datagram>, o: Outcome)
    requires (forall i :: 0 <= i < |replies| ==> WalkEnds(replies[i], NextDatagram)) && o != NextDatagram
    ensures !Answered(replies, o)
  {
    if n: nat :| AnsweredAt(replies, n, o) {
      OneOutcome(replies[n], o, NextDatagram);
    }
  }

  /** The outer loop over the received datagrams: 0 exactly when the first datagram that ends
      the wait is acknowledged, -1 exactly when it is refused, and nothing when the loop still
      waits or has strayed. */
  method WaitForAck(replies: seq<Datagram>) returns (ret: Option<int>)
    requires forall i :: 0 <= i < |replies| ==> -1 <= replies[i].size < TWO31
    ensures ret == Some(0) <==> Answered(replies, Acked)
    ensures ret == Some(-1) <==> Answered(replies, Refused)
    ensures ret == None <==> Answered(replies, Stray)
                             || forall i :: 0 <= i < |replies| ==> WalkEnds(replies[i], NextDatagram)
  {
    for i := 0 to |replies|
      invariant forall m :: 0 <= m < i ==> WalkEnds(replies[m], NextDatagram)
    {
      var outcome := AckWalk(replies[i].mem, replies[i].size);
      if outcome != NextDatagram {
        ret := Verdict(replies, i, outcome);
        return;
      }
    }
    NoAnswer(replies, Acked);
    NoAnswer(replies, Refused);
    return None;
  }

  /** What the outer loop returns for a datagram that ends the wait. */
  method Verdict(ghost replies: seq<Datagram>, ghost n: nat, outcome: Outcome) returns (ret: Option<int>)
    requires AnsweredAt(replies, n, outcome) && outcome != NextDatagram
    ensures ret == Some(0) <==> Answered(replies, Acked)
    ensures ret == Some(-1) <==> Answered(replies, Refused)
    ensures ret == None <==> Answered(replies, Stray)
    ensures !forall i :: 0 <= i < |replies| ==> WalkEnds(replies[i], NextDatagram)
  {
    OnlyAnswer(replies, n, outcome, Acked);
    OnlyAnswer(replies, n, outcome, Refused);
    OnlyAnswer(replies, n, outcome, Stray);
    if WalkEnds(replies[n], NextDatagram) {
      OneOutcome(replies[n], outcome, NextDatagram);
    }
    match outcome
    case Acked => ret := Some(0);
    case Refused => ret := Some(-1);
    case Stray => ret := None;
  }
}
