/** The channel records of the IIO sensors and their in-place bubble sort. */
module IioSort {
  import opened Common

  /** struct iio_channel_info, without its names and scale. */
  datatype Channel = Channel(index: u32, bytes: u32, bits_used: u32, shift: u32,
                             be: bool, is_signed: bool, location: nat)

  /** The channels with a given index, in their order. */
  function WithIndex(s: seq<Channel>, k: u32): seq<Channel> {
    if s == [] then []
    else WithIndex(s[..|s| - 1], k) + if s[|s| - 1].index == k then [s[|s| - 1]] else []
  }

  /** Channels of equal index keep their order; in particular nothing is lost or added. */
  ghost predicate StablyRearranged(s: seq<Channel>, t: seq<Channel>) {
    |s| == |t| && forall k: u32 :: WithIndex(s, k) == WithIndex(t, k)
  }

  predicate SortedFrom(s: seq<Channel>, lo: nat) {
    forall i, j | lo <= i < j < |s| :: s[i].index <= s[j].index
  }

  /** The elements from lo on are in their final places. */
  predicate Settled(s: seq<Channel>, lo: nat) {
    lo <= |s| && SortedFrom(s, lo) && forall i, j | 0 <= i < lo <= j < |s| :: s[i].index <= s[j].index
  }

  // ----- what a stable rearrangement is

  lemma {:induction false} WithIndexAppend(s: seq<Channel>, t: seq<Channel>, k: u32)
    ensures WithIndex(s + t, k) == WithIndex(s, k) + WithIndex(t, k)
  {
    if t == [] {
      assert s + t == s;
    } else {
      var n := |t| - 1;
      WithIndexAppend(s, t[..n], k);
      assert (s + t)[..|s + t| - 1] == s + t[..n];
      assert (s + t)[|s + t| - 1] == t[n];
    }
  }

  lemma {:induction false} WithIndexMembers(s: seq<Channel>, k: u32)
    ensures multiset(WithIndex(s, k)) <= multiset(s)
    ensures forall c: Channel :: multiset(WithIndex(s, k))[c] == if c.index == k then multiset(s)[c] else 0
  {
    if s == [] {
    } else {
      var n := |s| - 1;
      WithIndexMembers(s[..n], k);
      assert s == s[..n] + [s[n]];
    }
  }

  /** It is a permutation. */
  lemma StableIsPermutation(s: seq<Channel>, t: seq<Channel>)
    requires StablyRearranged(s, t)
    ensures multiset(s) == multiset(t)
  {
    forall c: Channel ensures multiset(s)[c] == multiset(t)[c] {
      WithIndexMembers(s, c.index);
      WithIndexMembers(t, c.index);
    }
  }

  /** There is one sorted stable rearrangement only: the specification fixes the result. */
  lemma {:induction false} SortedIsUnique(s: seq<Channel>, t: seq<Channel>)
    requires StablyRearranged(s, t) && SortedFrom(s, 0) && SortedFrom(t, 0)
    ensures s == t
  {
    if s == [] {
    } else {
      var n := |s| - 1;
      StableIsPermutation(s, t);
      LastIsGreatest(s, t);
      LastIsGreatest(t, s);
      var k := s[n].index;
      assert WithIndex(s, k)[|WithIndex(s, k)| - 1] == s[n];
      assert WithIndex(t, k)[|WithIndex(t, k)| - 1] == t[n];
      forall i: u32 ensures WithIndex(s[..n], i) == WithIndex(t[..n], i) {
        DropLast(s, i);
        DropLast(t, i);
      }
      SortedIsUnique(s[..n], t[..n]);
      assert s == s[..n] + [s[n]] && t == t[..n] + [t[n]];
    }
  }

  lemma DropLast(s: seq<Channel>, k: u32)
    requires s != []
    ensures var w := WithIndex(s, k);
            WithIndex(s[..|s| - 1], k) == if s[|s| - 1].index == k then w[..|w| - 1] else w
  {
  }

  lemma LastIsGreatest(s: seq<Channel>, t: seq<Channel>)
    requires s != [] && |s| == |t| && multiset(s) == multiset(t) && SortedFrom(t, 0)
    ensures s[|s| - 1].index <= t[|t| - 1].index
  {
    assert s[|s| - 1] in multiset(s);
    assert s[|s| - 1] in t;
  }

  // ----- the sort

  /** Swapping two neighbours of different index is a stable rearrangement. */
  lemma SwapIsStable(s: seq<Channel>, y: nat)
    requires y + 1 < |s| && s[y].index != s[y + 1].index
    ensures StablyRearranged(s, s[y := s[y + 1]][y + 1 := s[y]])
  {
    var a, b, front, back := s[y], s[y + 1], s[..y], s[y + 2..];
    var t := s[y := b][y + 1 := a];
    assert s == front + [a, b] + back && t == front + [b, a] + back;
    forall k: u32 ensures WithIndex(s, k) == WithIndex(t, k) {
      WithIndexAppend(front + [a, b], back, k);
      WithIndexAppend(front, [a, b], k);
      WithIndexAppend(front + [b, a], back, k);
      WithIndexAppend(front, [b, a], k);
      WithIndexTwo(a, b, k);
      WithIndexTwo(b, a, k);
    }
  }

  lemma WithIndexTwo(a: Channel, b: Channel, k: u32)
    ensures WithIndex([a, b], k) == (if a.index == k then [a] else []) + if b.index == k then [b] else []
  {
    assert [a, b][..1] == [a];
    assert [a][..0] == [];
    assert WithIndex([a], k) == if a.index == k then [a] else [];
  }

  /** What one turn of the inner loop makes of the array. */
  function Compared(s: seq<Channel>, y: nat): (t: seq<Channel>)
    requires y + 1 < |s|
    ensures |t| == |s|
  {
    if s[y].index > s[y + 1].index then s[y := s[y + 1]][y + 1 := s[y]] else s
  }

  /** Within a pass: places from lo on are settled, and the y-th is the greatest so far, so
      that place lo - 1 is settled once y gets there. */
  predicate Bubbling(s: seq<Channel>, y: nat, lo: nat) {
    && 0 < lo && y < |s| && Settled(s, lo)
    && (y < lo ==> forall i | 0 <= i < y :: s[i].index <= s[y].index)
    && (y >= lo - 1 ==> Settled(s, lo - 1))
  }

  lemma ComparedKeeps(s: seq<Channel>, y: nat, lo: nat)
    requires y + 1 < |s| && Bubbling(s, y, lo)
    ensures Bubbling(Compared(s, y), y + 1, lo)
    ensures StablyRearranged(s, Compared(s, y))
  {
    if s[y].index > s[y + 1].index {
      SwapIsStable(s, y);
      assert y + 1 < lo;
    }
    if y + 1 == lo - 1 {
      GreatestIsSettled(Compared(s, y), lo);
    }
  }

  lemma GreatestIsSettled(s: seq<Channel>, lo: nat)
    requires 0 < lo && Settled(s, lo) && forall i | 0 <= i < lo - 1 :: s[i].index <= s[lo - 1].index
    ensures Settled(s, lo - 1)
  {
  }

  /** One pass of the inner loop settles one more place. */
  method Pass(ci_array: array<Channel>, cnt: nat, ghost lo: nat)
    requires cnt == ci_array.Length && 0 < lo && Settled(ci_array[..], lo)
    modifies ci_array
    ensures StablyRearranged(old(ci_array[..]), ci_array[..]) && Settled(ci_array[..], lo - 1)
  {
    var y := 0;
    if lo == 1 {
      GreatestIsSettled(ci_array[..], lo);
    }
    while y < cnt - 1
      invariant 0 <= y <= cnt - 1
      invariant StablyRearranged(old(ci_array[..]), ci_array[..]) && Bubbling(ci_array[..], y, lo)
    {
      ghost var s := ci_array[..];
      ComparedKeeps(s, y, lo);
      if ci_array[y].index > ci_array[y + 1].index {
        var temp := ci_array[y + 1];
        ci_array[y + 1] := ci_array[y];
        ci_array[y] := temp;
      }
      assert ci_array[..] == Compared(s, y);
      y := y + 1;
    }
  }

  /** bsort_channel_array_by_index, on the whole array: sorted by index, channels of equal
      index in their old order.  After x passes the last x places are final. */
  method BsortChannelArrayByIndex(ci_array: array<Channel>, cnt: nat)
    requires cnt == ci_array.Length
    modifies ci_array
    ensures StablyRearranged(old(ci_array[..]), ci_array[..]) && SortedFrom(ci_array[..], 0)
  {
    for x := 0 to cnt
      invariant StablyRearranged(old(ci_array[..]), ci_array[..]) && Settled(ci_array[..], cnt - x)
    {
      Pass(ci_array, cnt, cnt - x);
    }
  }
}
