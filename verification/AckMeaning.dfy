/** When a reply datagram is refused, when the next one is awaited, and what that says of
    datagrams given by their bytes. */
module AckMeaning {
  import opened Common
  import opened NetlinkAck

  function Pair(low: int, high: int): int {
    low + 0x100 * high
  }

  /** The number at an offset, the low byte first. */
  function Number(mem: Memory, p: nat): int {
    Pair(mem(p), mem(p + 1)) + 0x1_0000 * Pair(mem(p + 2), mem(p + 3))
  }

  lemma NumberAt(mem: Memory, p: nat)
    ensures U32At(mem, p) == Number(mem, p)
  {
  }

  function Signed(n: int): int {
    if n < 0x8000_0000 then n else n - 0x1_0000_0000
  }

  lemma AsInt(n: nat)
    requires n < 0x1_0000_0000
    ensures ToInt32(n) == Signed(n)
  {
  }

  /** The fields of a message header, and of the error behind it, in little-endian bytes; the
      length and the error are signed. */
  lemma Fields(mem: Memory, p: nat)
    ensures Len(mem, p) == Signed(Number(mem, p))
    ensures Type(mem, p) == Pair(mem(p + 4), mem(p + 5))
    ensures ErrorCode(mem, p) == Signed(Number(mem, p + 16))
    ensures Overflows(mem, p) <==> 0x8000_0000 <= Number(mem, p) <= 0x8000_000F
  {
    NumberAt(mem, p);
    NumberAt(mem, p + 16);
    AsInt(U32At(mem, p));
    AsInt(U32At(mem, p + 16));
  }

  /** A header is looked at while the count is negative or holds a header. */
  predicate LooksAt(at: Place) {
    at.status < 0 || at.status >= 16
  }

  /** A length that does not overflow and is below a header or above the count; an error
      message in bounds that is too short or has an error; an error message with an overflowing
      length and an error. */
  predicate RefusedAt(mem: Memory, at: Place) {
    LooksAt(at)
    && var len := Len(mem, at.p);
       || (!Overflows(mem, at.p) && (len < 16 || len > at.status))
       || (16 <= len <= at.status && Type(mem, at.p) == 2 && (len < 36 || ErrorCode(mem, at.p) != 0))
       || (Overflows(mem, at.p) && Type(mem, at.p) == 2 && ErrorCode(mem, at.p) != 0)
  }

  /** Fewer than sixteen bytes are left. */
  predicate SpentAt(at: Place) {
    0 <= at.status < 16
  }

  lemma StopsSo(mem: Memory, at: Place)
    ensures Stop(mem, at) == Some(Refused) <==> RefusedAt(mem, at)
    ensures Stop(mem, at) == Some(NextDatagram) <==> SpentAt(at)
  {
    Fields(mem, at.p);
  }

  /** A datagram is refused exactly when its walk comes to such a message. */
  lemma RefusedMeans(d: Datagram)
    requires -1 <= d.size
    ensures WalkEnds(d, Refused) <==> exists at :: Reaches(d, at) && RefusedAt(d.mem, at)
  {
    EndsAtPlace(d, Refused);
    forall at ensures Stop(d.mem, at) == Some(Refused) <==> RefusedAt(d.mem, at) {
      StopsSo(d.mem, at);
    }
  }

  /** The next datagram is awaited exactly when the walk comes to the end of this one. */
  lemma NextMeans(d: Datagram)
    requires -1 <= d.size
    ensures WalkEnds(d, NextDatagram) <==> exists at :: Reaches(d, at) && SpentAt(at)
  {
    EndsAtPlace(d, NextDatagram);
    forall at ensures Stop(d.mem, at) == Some(NextDatagram) <==> SpentAt(at) {
      StopsSo(d.mem, at);
    }
  }

  /** The walk starts at the first byte, and goes on behind each whole message that is not an
      error, at the next multiple of four. */
  lemma WalkMeans(d: Datagram, at: Place, len: int)
    ensures Reaches(d, Place(0, d.size))
    ensures Reaches(d, at) && len == Len(d.mem, at.p) && 16 <= len <= at.status && Type(d.mem, at.p) != 2
            ==> var n := (len + 3) / 4 * 4; Reaches(d, Place(at.p + n, at.status - n))
  {
    assert Reach(d.mem, d.size, 0) == Some(Place(0, d.size));
    if Reaches(d, at) && len == Len(d.mem, at.p) && 16 <= len <= at.status && Type(d.mem, at.p) != 2 {
      GoesOn(d, at, len);
    }
  }

  lemma GoesOn(d: Datagram, at: Place, len: int)
    requires Reaches(d, at) && len == Len(d.mem, at.p) && 16 <= len <= at.status && Type(d.mem, at.p) != 2
    ensures Reaches(d, Place(at.p + Align(len), at.status - Align(len)))
  {
    var k: nat :| Reach(d.mem, d.size, k) == Some(at);
    assert Plain(d.mem, at);
    assert Reach(d.mem, d.size, k + 1) == Some(Place(at.p + Align(len), at.status - Align(len)));
  }

  /** A 36-byte error message alone is an acknowledgement with error 0 and a refusal with any
      other, whatever else it holds. */
  lemma ErrorMessage(d: Datagram)
    requires d.size == 36 && d.mem(0) == 36 && d.mem(1) == d.mem(2) == d.mem(3) == 0 && d.mem(4) == 2 && d.mem(5) == 0
    ensures var none := d.mem(16) == 0 && d.mem(17) == 0 && d.mem(18) == 0 && d.mem(19) == 0;
            if none then WalkEnds(d, Acked) && !WalkEnds(d, Refused) else WalkEnds(d, Refused) && !WalkEnds(d, Acked)
  {
    ErrorHeader(d.mem);
    ZeroBytes(d.mem, 16);
    assert Reach(d.mem, d.size, 0) == Some(Place(0, 36));
    OneMessage(d, Place(0, 36));
  }

  lemma ErrorHeader(mem: Memory)
    requires mem(0) == 36 && mem(1) == mem(2) == mem(3) == 0 && mem(4) == 2 && mem(5) == 0
    ensures Len(mem, 0) == 36 && Type(mem, 0) == 2 && ErrorCode(mem, 0) == Signed(Number(mem, 16))
  {
    Fields(mem, 0);
  }

  lemma ZeroBytes(mem: Memory, p: nat)
    ensures Signed(Number(mem, p)) == 0 <==> mem(p) == 0 && mem(p + 1) == 0 && mem(p + 2) == 0 && mem(p + 3) == 0
  {
  }

  lemma OneMessage(d: Datagram, at: Place)
    requires -1 <= d.size && Reaches(d, at) && at.status >= 36 && Len(d.mem, at.p) == 36 && Type(d.mem, at.p) == 2
    ensures if ErrorCode(d.mem, at.p) == 0 then WalkEnds(d, Acked) && !WalkEnds(d, Refused)
            else WalkEnds(d, Refused) && !WalkEnds(d, Acked)
  {
    AckedMeans(d);
    RefusedMeans(d);
    assert if ErrorCode(d.mem, at.p) == 0 then AckAt(d.mem, at) else RefusedAt(d.mem, at);
    if WalkEnds(d, Acked) && WalkEnds(d, Refused) {
      OneOutcome(d, Acked, Refused);
    }
  }
}
