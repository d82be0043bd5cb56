/** Buffers of scans: the read loops of the magnetometer and the accelerometer with
    process_scan, and the bytes that a device would write. */
module IioScan {
  import opened Arith
  import opened Common
  import opened IioSort
  import opened IioLayout
  import opened IioDecode

  /** The 16-bit word that a little-endian host loads from an offset. */
  function WordAt(s: seq<u8>, p: nat): u16
    requires p + 2 <= |s|
  {
    s[p] as int + 256 * (s[p + 1] as int)
  }

  // ----- what a device writes

  /** The scan with one sample written into a 2-byte channel; all other bits stay. */
  function Put(info: Channel, v: int, scan: seq<u8>): (r: seq<u8>)
    requires FieldFits(info) && info.location + 2 <= |scan|
    ensures |r| == |scan|
  {
    InsertFits(info, Own(info, scan), v);
    var w: u16 := Insert(info, Own(info, scan), v);
    var stored := if info.be then SwapBytes(w) else w;
    scan[info.location := stored % 256][info.location + 1 := stored / 256]
  }

  /** The channel's word as the channel reads it. */
  function Own(info: Channel, scan: seq<u8>): u16
    requires info.location + 2 <= |scan|
  {
    if info.be then SwapBytes(WordAt(scan, info.location)) else WordAt(scan, info.location)
  }

  lemma PutIsRead(info: Channel, v: int, scan: seq<u8>)
    requires FieldFits(info) && InRange(info, v) && info.location + 2 <= |scan|
    ensures Decode(info, WordAt(Put(info, v, scan), info.location)) == v
  {
    FieldInserted(info, Own(info, scan), v);
    var w: u16 := Insert(info, Own(info, scan), v);
    SwapTwice(w);
    var stored := if info.be then SwapBytes(w) else w;
    assert WordAt(Put(info, v, scan), info.location) == stored;
  }

  /** Samples for the 2-byte channels, each within its field. */
  predicate Writable(channels: seq<Channel>, samples: seq<int>) {
    |samples| == |channels|
    && forall k | 0 <= k < |channels| && channels[k].bytes == 2 :: FieldFits(channels[k])
        && InRange(channels[k], samples[k])
  }

  /** A scan after the samples of the first k channels are written. */
  function Write(channels: seq<Channel>, samples: seq<int>, scan: seq<u8>, k: nat): (r: seq<u8>)
    requires LaidOut(channels) && Writable(channels, samples) && k <= |channels|
    requires |scan| == EndBefore(channels, |channels|)
    ensures |r| == |scan|
  {
    if k == 0 then scan
    else
      var before := Write(channels, samples, scan, k - 1);
      if channels[k - 1].bytes != 2 then before
      else InsideScan(channels, k - 1); Put(channels[k - 1], samples[k - 1], before)
  }

  /** Every written channel reads back its own sample: later writes touch other bytes. */
  lemma {:induction false} WriteIsRead(channels: seq<Channel>, samples: seq<int>, scan: seq<u8>, k: nat, i: nat)
    requires LaidOut(channels) && Writable(channels, samples) && i < k <= |channels|
    requires |scan| == EndBefore(channels, |channels|) && channels[i].bytes == 2
    ensures channels[i].location + 2 <= |scan|
    ensures Decode(channels[i], WordAt(Write(channels, samples, scan, k), channels[i].location)) == samples[i]
  {
    InsideScan(channels, i);
    var before := Write(channels, samples, scan, k - 1);
    if i == k - 1 {
      PutIsRead(channels[i], samples[i], before);
    } else {
      WriteIsRead(channels, samples, scan, k - 1, i);
      Disjoint(channels, i, k - 1);
      if channels[k - 1].bytes == 2 {
        InsideScan(channels, k - 1);
      }
    }
  }

  /** The samples of one scan, and the bytes that it had before they were written. */
  datatype Row = Row(samples: seq<int>, blank: seq<u8>)

  predicate RowWritable(channels: seq<Channel>, row: Row) {
    Writable(channels, row.samples) && |row.blank| == EndBefore(channels, |channels|)
  }

  predicate AllWritable(channels: seq<Channel>, rows: seq<Row>) {
    forall i :: 0 <= i < |rows| ==> RowWritable(channels, rows[i])
  }

  function WriteRow(channels: seq<Channel>, row: Row): (r: seq<u8>)
    requires LaidOut(channels) && RowWritable(channels, row)
    ensures |r| == EndBefore(channels, |channels|)
  {
    Write(channels, row.samples, row.blank, |channels|)
  }

  /** Scan after scan. */
  function Stream(channels: seq<Channel>, rows: seq<Row>): (r: seq<u8>)
    requires LaidOut(channels) && AllWritable(channels, rows)
    ensures |r| == EndBefore(channels, |channels|) * |rows|
  {
    if rows == [] then []
    else
      var n, size := |rows| - 1, EndBefore(channels, |channels|);
      assert size * n + size == size * |rows|;
      Stream(channels, rows[..n]) + WriteRow(channels, rows[n])
  }

  // ----- reading

  /** What process_scan leaves in component c: the channel of that number, if it has two
      bytes, and otherwise what was there. */
  function Component(channels: seq<Channel>, scan: seq<u8>, c: nat, was: int): int
    requires LaidOut(channels) && Decodable(channels) && |scan| >= EndBefore(channels, |channels|)
  {
    if c < |channels| && channels[c].bytes == 2 then
      InsideScan(channels, c);
      Decode(channels[c], WordAt(scan, channels[c].location))
    else was
  }

  predicate Decodable(channels: seq<Channel>) {
    forall k | 0 <= k < |channels| && channels[k].bytes == 2 :: channels[k].bits_used <= 16 && channels[k].shift < 32
  }

  class Sensor {
    const channels: seq<Channel>
    const scan_size: nat
    var mdata: seq<int>       // x, y, z, before scaling

    ghost predicate Valid()
      reads this
    {
      LaidOut(channels) && Decodable(channels) && scan_size == EndBefore(channels, |channels|) > 0 && |mdata| == 3
    }

    constructor (channels: seq<Channel>, scan_size: nat)
      requires LaidOut(channels) && Decodable(channels) && scan_size == EndBefore(channels, |channels|) > 0
      ensures Valid() && mdata == [0, 0, 0]
      ensures this.channels == channels && this.scan_size == scan_size
    {
      this.channels, this.scan_size := channels, scan_size;
      mdata := [0, 0, 0];
    }

    method Print2Byte(input: u16, info: Channel, channel_num: nat)
      requires Valid() && info.bits_used <= 16
      modifies this`mdata
      ensures mdata == if channel_num < 3 then old(mdata)[channel_num := Decode(info, input)] else old(mdata)
    {
      var final_val := Decode(info, input);
      if channel_num == 0 {
        mdata := mdata[0 := final_val];
      }
      if channel_num == 1 {
        mdata := mdata[1 := final_val];
      }
      if channel_num == 2 {
        mdata := mdata[2 := final_val];
      }
    }

    /** One channel; the 4- and 8-byte ones are loaded for printing only. */
    method ProcessChannel(data: array<u8>, base: nat, k: nat, ghost scan: seq<u8>)
      requires Valid() && base + scan_size <= data.Length && scan == data[base..base + scan_size] && k < |channels|
      modifies this`mdata
      ensures |mdata| == 3
      ensures forall c :: 0 <= c < 3 ==>
                mdata[c] == if c == k then Component(channels, scan, c, old(mdata)[c]) else old(mdata)[c]
    {
      InsideScan(channels, k);
      var at := base + channels[k].location;
      match channels[k].bytes
      case 2 =>
        assert data[at] == scan[channels[k].location] && data[at + 1] == scan[channels[k].location + 1];
        Print2Byte(data[at] as int + 256 * (data[at + 1] as int), channels[k], k);
      case 4 =>
        if !channels[k].is_signed {
          var shown := data[at..at + 4];
        }
      case 8 =>
        if channels[k].is_signed {
          var shown := data[at..at + 8];
        }
      case _ =>
    }

    /** One scan at data[base..]. */
    method ProcessScan(data: array<u8>, base: nat, ghost scan: seq<u8>)
      requires Valid() && base + scan_size <= data.Length && scan == data[base..base + scan_size]
      modifies this`mdata
      ensures Valid() && forall c :: 0 <= c < 3 ==> mdata[c] == Component(channels, scan, c, old(mdata)[c])
    {
      for k := 0 to |channels|
        invariant Valid()
        invariant forall c :: 0 <= c < 3 ==>
                    mdata[c] == if c < k then Component(channels, scan, c, old(mdata)[c]) else old(mdata)[c]
      {
        ProcessChannel(data, base, k, scan);
      }
    }

    /** The components are those of the scan, and what they were where the scan has none. */
    ghost predicate Shows(scan: seq<u8>, was: seq<int>)
      requires Valid() && |scan| == scan_size && |was| == 3
      reads this
    {
      forall c :: 0 <= c < 3 ==> mdata[c] == Component(channels, scan, c, was[c])
    }

    /** One more scan; the components that no scan has stay what they were at first. */
    method ProcessOne(data: array<u8>, base: nat, ghost was: seq<int>)
      requires Valid() && base + scan_size <= data.Length && |was| == 3
      requires forall c :: 0 <= c < 3 && !(c < |channels| && channels[c].bytes == 2) ==> mdata[c] == was[c]
      modifies this`mdata
      ensures Valid() && Shows(data[base..base + scan_size], was)
    {
      ProcessScan(data, base, data[base..base + scan_size]);
    }

    /** The loop over the scans that one read() returned, and what it hands to the caller: the
        result is determined by the last complete scan within the read_size bytes. */
    method Read(data: array<u8>, read_size: int) returns (result: Option<seq<int>>)
      requires Valid() && -1 <= read_size <= data.Length
      modifies this`mdata
      ensures Valid()
      ensures read_size < scan_size ==> result == None && mdata == old(mdata)
      ensures read_size >= scan_size ==>
                var end := read_size / scan_size * scan_size;
                result == Some(mdata) && scan_size <= end <= read_size
                && Shows(data[end - scan_size..end], old(mdata))
    {
      result := None;
      var i, base := 0, 0;
      var n := if read_size < 0 then -(-read_size / scan_size) else read_size / scan_size;
      ScanCount(read_size, scan_size, n);
      while i < n
        invariant Valid() && 0 <= i && (i <= n || i == 0) && base == Offset(i, scan_size)
        invariant i == 0 ==> result == None && mdata == old(mdata)
        invariant i > 0 ==>
                    base <= read_size && result == Some(mdata) && Shows(data[base - scan_size..base], old(mdata))
      {
        OffsetBelow(i + 1, n, scan_size);
        ProcessOne(data, base, old(mdata));
        result := Some(mdata);
        i := i + 1;
        base := base + scan_size;
      }
    }
  }

  /** Where the i-th scan starts. */
  function Offset(i: nat, scan_size: nat): nat {
    if i == 0 then 0 else Offset(i - 1, scan_size) + scan_size
  }

  lemma {:induction false} OffsetIsProduct(i: nat, scan_size: nat)
    ensures Offset(i, scan_size) == i * scan_size
  {
    if i == 0 {
    } else {
      OffsetIsProduct(i - 1, scan_size);
      assert (i - 1) * scan_size + scan_size == i * scan_size;
    }
  }

  lemma {:induction false} OffsetBelow(i: nat, n: nat, scan_size: nat)
    requires i <= n
    ensures Offset(i, scan_size) <= Offset(n, scan_size)
  {
    if i == n {
    } else {
      OffsetBelow(i, n - 1, scan_size);
    }
  }

  /** The number of complete scans. */
  lemma ScanCount(read_size: int, scan_size: nat, n: int)
    requires scan_size > 0 && read_size >= -1
    requires n == if read_size < 0 then -(-read_size / scan_size) else read_size / scan_size
    ensures n > 0 <==> read_size >= scan_size
    ensures n > 0 ==> Offset(n, scan_size) == read_size / scan_size * scan_size <= read_size
  {
    if read_size < 0 {
      DivModUnique(1, scan_size, if scan_size == 1 then 1 else 0, if scan_size == 1 then 0 else 1);
    } else if read_size < scan_size {
      DivModUnique(read_size, scan_size, 0, read_size);
    } else {
      QuotientAtLeastOne(read_size, scan_size);
      OffsetIsProduct(n, scan_size);
    }
  }

  lemma QuotientAtLeastOne(x: nat, b: nat)
    requires 0 < b <= x
    ensures x / b >= 1 && x / b * b <= x
  {
  }

  // ----- a device and a reader

  /** The last scan of a stream is the last row written. */
  lemma LastOfStream(channels: seq<Channel>, rows: seq<Row>, size: nat)
    requires LaidOut(channels) && AllWritable(channels, rows) && rows != [] && size == EndBefore(channels, |channels|)
    ensures var s := Stream(channels, rows);
            |s| >= size && s[|s| - size..] == WriteRow(channels, rows[|rows| - 1])
  {
  }

  /** Reading a stream of scans, of which the last may be incomplete, shows exactly the samples
      of the last complete one, in each of the first three channels that has two bytes. */
  method ReadStream(sensor: Sensor, data: array<u8>, read_size: nat, rows: seq<Row>, ghost tail: seq<u8>)
    returns (result: Option<seq<int>>)
    requires sensor.Valid() && |tail| < sensor.scan_size && AllWritable(sensor.channels, rows)
    requires read_size <= data.Length && data[..read_size] == Stream(sensor.channels, rows) + tail
    modifies sensor`mdata
    ensures rows == [] ==> result == None
    ensures rows != [] ==> result.Some? && |result.value| == 3
    ensures rows != [] ==> forall c :: 0 <= c < 3 && c < |sensor.channels| && sensor.channels[c].bytes == 2 ==>
                             result.value[c] == rows[|rows| - 1].samples[c]
  {
    ghost var size, all, was := sensor.scan_size, data[..read_size], sensor.mdata;
    ghost var end := StreamIsRead(sensor.channels, rows, size, all, tail, was);
    result := sensor.Read(data, read_size);
    if rows != [] {
      assert data[end - size..end] == all[end - size..end];
    }
  }

  /** The complete scans in a stream with a tail are those of the stream. */
  lemma StreamEnd(channels: seq<Channel>, rows: seq<Row>, size: nat, read_size: nat, rest: nat)
    requires LaidOut(channels) && AllWritable(channels, rows) && size == EndBefore(channels, |channels|) > 0
    requires read_size == |Stream(channels, rows)| + rest && rest < size
    ensures read_size / size * size == |Stream(channels, rows)|
    ensures rows != [] <==> read_size >= size
  {
    WholeScans(read_size, size, |rows|, rest);
  }

  lemma LastBeforeTail(channels: seq<Channel>, rows: seq<Row>, size: nat, all: seq<u8>, tail: seq<u8>)
    requires LaidOut(channels) && AllWritable(channels, rows) && rows != [] && size == EndBefore(channels, |channels|)
    requires all == Stream(channels, rows) + tail
    ensures var end := |Stream(channels, rows)|;
            size <= end <= |all| && all[end - size..end] == WriteRow(channels, rows[|rows| - 1])
  {
    var s := Stream(channels, rows);
    LastOfStream(channels, rows, size);
    SliceOfFront(all, s, tail, |s| - size, |s|);
  }

  lemma LastIsRead(channels: seq<Channel>, last: Row, scan: seq<u8>, was: seq<int>)
    requires LaidOut(channels) && Decodable(channels) && RowWritable(channels, last) && |was| == 3
    requires scan == WriteRow(channels, last)
    ensures forall c :: 0 <= c < 3 && c < |channels| && channels[c].bytes == 2 ==>
              Component(channels, scan, c, was[c]) == last.samples[c]
  {
    forall c | 0 <= c < 3 && c < |channels| && channels[c].bytes == 2
      ensures Component(channels, scan, c, was[c]) == last.samples[c]
    {
      WriteIsRead(channels, last.samples, last.blank, |channels|, c);
    }
  }

  /** Both together: where the complete scans before a tail end, and that the last of them
      shows the last row. */
  lemma StreamIsRead(channels: seq<Channel>, rows: seq<Row>, size: nat, all: seq<u8>, tail: seq<u8>, was: seq<int>)
    returns (end: nat)
    requires LaidOut(channels) && Decodable(channels) && AllWritable(channels, rows) && |was| == 3
    requires size == EndBefore(channels, |channels|) > |tail|
    requires all == Stream(channels, rows) + tail
    ensures rows == [] ==> |all| < size
    ensures rows != [] ==> size <= end == |all| / size * size <= |all|
    ensures rows != [] ==> forall c :: 0 <= c < 3 && c < |channels| && channels[c].bytes == 2 ==>
                             Component(channels, all[end - size..end], c, was[c]) == rows[|rows| - 1].samples[c]
  {
    end := |Stream(channels, rows)|;
    StreamEnd(channels, rows, size, |all|, |tail|);
    if rows != [] {
      LastBeforeTail(channels, rows, size, all, tail);
      LastIsRead(channels, rows[|rows| - 1], all[end - size..end], was);
    }
  }

  lemma SliceOfFront(all: seq<u8>, front: seq<u8>, tail: seq<u8>, i: nat, j: nat)
    requires all == front + tail && i <= j <= |front|
    ensures all[i..j] == front[i..j]
  {
  }

  lemma WholeScans(size: nat, scan_size: nat, n: nat, rest: nat)
    requires scan_size > 0 && size == scan_size * n + rest && rest < scan_size
    ensures size / scan_size * scan_size == scan_size * n
    ensures n > 0 <==> size >= scan_size
  {
    DivModUnique(size, scan_size, n, rest);
    if n == 0 {
      assert scan_size * n == 0;
    } else {
      MulAtLeast(scan_size, n);
    }
  }
}
