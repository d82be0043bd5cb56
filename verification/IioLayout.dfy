/** The byte layout of a scan (size_from_channelarray). */
module IioLayout {
  import opened Arith
  import opened Common
  import opened IioSort

  const INT_MAX := 0x7FFF_FFFF

  /** loc is the least multiple of b at or after from. */
  predicate NextMultiple(loc: nat, b: nat, from: nat)
    requires b > 0
  {
    Multiple(loc, b) && from <= loc < from + b
  }

  lemma NextMultipleIsLeast(loc: nat, b: nat, from: nat, m: nat)
    requires b > 0 && NextMultiple(loc, b, from) && m % b == 0 && from <= m
    ensures loc % b == 0 && loc <= m
  {
    MultipleMeans(loc, b);
    MultipleMeans(m, b);
    if m < loc {
      MultipleGap(m, loc, b);
    }
  }

  // ----- the layout

  /** Where the i-th channel may start. */
  function EndBefore(s: seq<Channel>, i: nat): nat
    requires i <= |s|
  {
    if i == 0 then 0 else s[i - 1].location + s[i - 1].bytes
  }

  predicate PositiveSizes(s: seq<Channel>) {
    forall i | 0 <= i < |s| :: s[i].bytes > 0
  }

  /** Every channel starts at the least multiple of its size after the one before it. */
  predicate LaidOut(s: seq<Channel>) {
    PositiveSizes(s)
    && forall i {:trigger EndBefore(s, i)} | 0 <= i < |s| :: NextMultiple(s[i].location, s[i].bytes, EndBefore(s, i))
  }

  function TotalBytes(s: seq<Channel>): nat {
    if s == [] then 0 else TotalBytes(s[..|s| - 1]) + s[|s| - 1].bytes
  }

  /** The channels occupy disjoint, ascending intervals. */
  lemma {:induction false} Disjoint(s: seq<Channel>, i: nat, j: nat)
    requires LaidOut(s) && i < j < |s|
    ensures s[i].location + s[i].bytes <= s[j].location
    decreases j
  {
    assert NextMultiple(s[j].location, s[j].bytes, EndBefore(s, j));
    if i == j - 1 {
    } else {
      Disjoint(s, i, j - 1);
    }
  }

  /** All of them end by the end of the last one. */
  lemma InsideScan(s: seq<Channel>, i: nat)
    requires LaidOut(s) && i < |s|
    ensures s[i].location + s[i].bytes <= EndBefore(s, |s|)
  {
    var n := |s| - 1;
    if i < n {
      Disjoint(s, i, n);
    }
    assert EndBefore(s, |s|) == s[n].location + s[n].bytes;
  }

  /** Padding takes at most bytes - 1 a channel. */
  lemma {:induction false} PaddingBound(s: seq<Channel>)
    requires LaidOut(s)
    ensures TotalBytes(s) <= EndBefore(s, |s|) <= 2 * TotalBytes(s) - |s|
  {
    if s == [] {
    } else {
      var n := |s| - 1;
      var init := s[..n];
      assert forall i | 0 <= i < n :: EndBefore(init, i) == EndBefore(s, i);
      assert LaidOut(init) && EndBefore(init, n) == EndBefore(s, n);
      PaddingBound(init);
      assert NextMultiple(s[n].location, s[n].bytes, EndBefore(s, n));
    }
  }

  /** Nothing but the locations differs. */
  predicate SameButLocation(s: seq<Channel>, t: seq<Channel>) {
    |s| == |t| && forall i | 0 <= i < |s| :: t[i] == s[i].(location := t[i].location)
  }

  /** Fills in the locations; the result is the size of a scan. */
  method SizeFromChannelArray(channels: array<Channel>, num_channels: nat) returns (bytes: int)
    requires num_channels == channels.Length && PositiveSizes(channels[..])
    requires 2 * TotalBytes(channels[..]) <= INT_MAX
    modifies channels
    ensures SameButLocation(old(channels[..]), channels[..]) && LaidOut(channels[..])
    ensures 0 <= bytes == EndBefore(channels[..], num_channels) <= INT_MAX
  {
    bytes := 0;
    var i := 0;
    ghost var s := channels[..];
    while i < num_channels
      invariant 0 <= i <= num_channels && SameButLocation(s, channels[..])
      invariant LaidOut(channels[..i]) && bytes == EndBefore(channels[..i], i)
    {
      ghost var before := channels[..i];
      assert s[i].bytes > 0;
      var size := channels[i].bytes;
      RoundedUp(bytes, size);
      if bytes % size == 0 {
        channels[i] := channels[i].(location := bytes);
      } else {
        channels[i] := channels[i].(location := bytes - bytes % size + size);
      }
      LaidOutSnoc(before, channels[i]);
      assert channels[..i + 1] == before + [channels[i]];
      bytes := channels[i].location + channels[i].bytes;
      i := i + 1;
    }
    assert channels[..i] == channels[..];
    PaddingBound(channels[..]);
    SameTotal(s, channels[..]);
  }

  lemma LaidOutSnoc(s: seq<Channel>, c: Channel)
    requires LaidOut(s) && c.bytes > 0 && NextMultiple(c.location, c.bytes, EndBefore(s, |s|))
    ensures LaidOut(s + [c])
  {
    var t := s + [c];
    forall i | 0 <= i < |t| ensures NextMultiple(t[i].location, t[i].bytes, EndBefore(t, i)) {
      assert EndBefore(t, i) == EndBefore(s, i);
      if i < |s| {
        assert NextMultiple(s[i].location, s[i].bytes, EndBefore(s, i));
      }
    }
  }

  lemma {:induction false} SameTotal(s: seq<Channel>, t: seq<Channel>)
    requires SameButLocation(s, t)
    ensures TotalBytes(s) == TotalBytes(t)
  {
    if s == [] {
    } else {
      SameTotal(s[..|s| - 1], t[..|t| - 1]);
    }
  }
}
