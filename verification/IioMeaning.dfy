/** What a channel reads, in terms of the two bytes and of the word they spell. */
module IioMeaning {
  import opened Arith
  import opened Common
  import opened IioSort
  import opened IioLayout
  import opened IioDecode
  import opened IioScan

  function Spelt(high: u8, low: u8): u16 {
    256 * high + low
  }

  lemma Swapped(high: u8, low: u8)
    ensures SwapBytes(Spelt(low, high)) == Spelt(high, low)
  {
    DivModUnique(Spelt(low, high), 256, low, high);
  }

  /** A big-endian channel reads its high byte first, any other its low byte first. */
  lemma BytesMean(info: Channel, s: seq<u8>, p: nat)
    requires info.bits_used <= 16 && p + 2 <= |s|
    ensures Decode(info, WordAt(s, p)) == Field(info, if info.be then Spelt(s[p], s[p + 1]) else Spelt(s[p + 1], s[p]))
  {
    Swapped(s[p], s[p + 1]);
  }

  /** v - x is a multiple of m. */
  predicate Congruent(v: int, x: int, m: nat)
    requires m > 0
  {
    (v - x) % m == 0
  }

  lemma RemainderCongruent(x: int, m: nat, back: int)
    requires m > 0
    ensures Congruent(x % m - m * back, x, m)
  {
    var q := -(x / m) - back;
    assert x % m - m * back - x == m * q by {
      assert x == m * (x / m) + x % m;
      assert m * q == -(m * (x / m)) - m * back;
    }
    DivModUnique(x % m - m * back - x, m, q, 0);
  }

  /** A field is the only value of its range that has the word's bits from the shift on: of
      0 .. 2^bits - 1 when unsigned, of -2^(bits-1) .. 2^(bits-1) - 1 when signed. */
  lemma FieldMeans(info: Channel, word: u16)
    requires 1 <= info.bits_used <= 16
    ensures var v, m, half := Field(info, word), Pow2(info.bits_used), Pow2(info.bits_used - 1);
            && (if info.is_signed then 0 - half <= v < half else 0 <= v < m)
            && m == 2 * half && Congruent(v, word / Pow2(info.shift), m)
  {
    var x, m, half := word / Pow2(info.shift), Pow2(info.bits_used), Pow2(info.bits_used - 1);
    if info.is_signed {
      ModOfInt16(x, info.bits_used);
      SignExtension(info.bits_used, x % m);
      RemainderCongruent(x, m, if x % m < half then 0 else 1);
    } else {
      RemainderCongruent(x, m, 0);
    }
  }

  lemma MultipleBelow(m: nat, d: int)
    requires m > 0 && d % m == 0 && 0 - m < d < m
    ensures d == 0
  {
    var q := d / m;
    assert d == m * q;
    if q > 0 {
      MulAtLeast(m, q);
    } else if q < 0 {
      MulAtLeast(m, -q);
    }
  }

  lemma CongruentDifference(v: int, w: int, x: int, m: nat)
    requires m > 0 && Congruent(v, x, m) && Congruent(w, x, m)
    ensures (v - w) % m == 0
  {
    var q, r := (v - x) / m, (w - x) / m;
    assert v - w == m * (q - r) by {
      assert v - x == m * q && w - x == m * r;
      assert m * (q - r) == m * q - m * r;
    }
    DivModUnique(v - w, m, q - r, 0);
  }

  lemma FieldIsOnly(info: Channel, word: u16, w: int)
    requires 1 <= info.bits_used <= 16
    requires if info.is_signed then 0 - Pow2(info.bits_used - 1) <= w < Pow2(info.bits_used - 1)
             else 0 <= w < Pow2(info.bits_used)
    requires Congruent(w, word / Pow2(info.shift), Pow2(info.bits_used))
    ensures w == Field(info, word)
  {
    var v, m := Field(info, word), Pow2(info.bits_used);
    FieldMeans(info, word);
    CongruentDifference(v, w, word / Pow2(info.shift), m);
    MultipleBelow(m, v - w);
  }

  /** After one scan, a component within reach of a 2-byte channel is the field of the word that
      the channel's two bytes spell in its own order. */
  lemma ComponentMeans(channels: seq<Channel>, scan: seq<u8>, c: nat, was: int)
    requires LaidOut(channels) && Decodable(channels) && |scan| >= EndBefore(channels, |channels|)
    requires c < |channels| && channels[c].bytes == 2
    ensures var info, p := channels[c], channels[c].location;
            && p + 2 <= |scan|
            && Component(channels, scan, c, was)
               == Field(info, if info.be then Spelt(scan[p], scan[p + 1]) else Spelt(scan[p + 1], scan[p]))
  {
    InsideScan(channels, c);
    BytesMean(channels[c], scan, channels[c].location);
  }
}
