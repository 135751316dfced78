/** Reading a segment file: the forward scans of internal/storage/segment.go over raw bytes,
    the index-assisted fast path, and what both return in terms of the stored records. */
module SegmentReads {
  import opened Bytes
  import opened Records
  import opened OffsetIndex
  import opened IndexAccounting

  datatype ReadResult =
    | Ok(rec: Record)
    | NotFound
    | OutOfRange
    | Undecodable(error: DecodeError)
    | Unavailable

  /** A section reader positioned at `p`: past the end there is nothing to read. */
  function Seek(disk: seq<byte>, p: nat): seq<byte> {
    if p <= |disk| then disk[p..] else []
  }

  function EndOfScan(e: DecodeError): ReadResult {
    if e.Eof? || e.UnexpectedEof? then NotFound else Undecodable(e)
  }

  /** scanFrom: decode forward until the target offset is met or passed. */
  function ScanFor(data: seq<byte>, target: int): ReadResult
    decreases |data|
  {
    match Decode(data)
    case Failed(e) => EndOfScan(e)
    case Decoded(rec, n) =>
      if rec.offset == target then Ok(rec)
      else if rec.offset > target then NotFound
      else ScanFor(data[n..], target)
  }

  /** readAt: trust an exact index hit, but fall back to a scan when it names another record. */
  function ReadAt(disk: seq<byte>, p: nat, target: int): ReadResult {
    match Decode(Seek(disk, p))
    case Failed(e) => EndOfScan(e)
    case Decoded(rec, n) => if rec.offset == target then Ok(rec) else ScanFor(Seek(disk, p), target)
  }

  /** Segment.Read: the relative offset is truncated to 32 bits before the lookup. */
  function ReadIndexed(disk: seq<byte>, es: seq<Entry>, base: int, target: int): ReadResult {
    if target < base then OutOfRange
    else
      var f := Nearest(es, ToUint32(target - base));
      if f.exact then ReadAt(disk, f.position, target) else ScanFor(Seek(disk, f.position), target)
  }

  /** What a reader should get: the record if it is wholly on disk. */
  function ReadSpec(recs: seq<Record>, k: nat, base: int, target: int): ReadResult {
    if base <= target < base + WholeRecords(recs, k) then Ok(recs[target - base]) else NotFound
  }

  // ---- A file cut at byte k, read from the start of record i -------------------------------------

  /** Before the cut the decoder returns record i; at the cut it runs out of bytes. */
  lemma {:induction false} DecodeInCut(recs: seq<Record>, k: nat, i: nat)
    requires AllEncodable(recs) && k <= Size(recs) && i <= |recs|
    requires Size(recs[..i]) <= k
    ensures i <= WholeRecords(recs, k)
    ensures var d := Decode(Wires(recs)[..k][Size(recs[..i])..]);
            if i < WholeRecords(recs, k) then d == Decoded(recs[i], EncodedSize(recs[i])) else AtEnd(d)
    ensures i < WholeRecords(recs, k) ==> Size(recs[..i + 1]) <= k
  {
    hide Wires, Size, Decode, EncodedSize, WholeRecords;
    var w := WholeRecords(recs, k);
    var p := Size(recs[..w]);
    var tail := Wires(recs)[p..k];
    CutTail(recs, k);
    if w < i {
      SizeMonotone(recs, w + 1, i);
    } else if i < w {
      var whole := recs[..w];
      assert whole[..i] == recs[..i];
      DecodeAt(whole, i, tail);
      SizeMonotone(recs, i + 1, w);
    } else {
      assert Wires(recs)[..k][p..] == tail;
    }
  }

  /** Seeking to the start of record i + 1 is reading past record i. */
  lemma {:induction false} SeekStep(recs: seq<Record>, k: nat, i: nat)
    requires k <= Size(recs) && i < |recs| && Size(recs[..i + 1]) <= k
    ensures Size(recs[..i]) + EncodedSize(recs[i]) == Size(recs[..i + 1])
    ensures Wires(recs)[..k][Size(recs[..i])..][EncodedSize(recs[i])..] == Wires(recs)[..k][Size(recs[..i + 1])..]
  {
    hide Wires, Size, EncodedSize;
    SizeStep(recs, i);
  }

  lemma {:induction false} ScanFromRecord(recs: seq<Record>, k: nat, i: nat, base: int, target: int)
    requires AllEncodable(recs) && Dense(recs, base) && k <= Size(recs) && i <= |recs|
    requires base + i <= target
    ensures ScanFor(Seek(Wires(recs)[..k], Size(recs[..i])), target) == ReadSpec(recs, k, base, target)
    decreases |recs| - i
  {
    hide Wires, Size, Decode, EncodedSize, WholeRecords;
    var disk := Wires(recs)[..k];
    var p := Size(recs[..i]);
    var w := WholeRecords(recs, k);
    if p > k {
      DecodeNothing();
      if i < w { SizeMonotone(recs, i, w); }
    } else {
      DecodeInCut(recs, k, i);
      if i < w && target != base + i {
        SeekStep(recs, k, i);
        ScanFromRecord(recs, k, i + 1, base, target);
      }
    }
  }

  /** Whatever the target, a lookup sends the reader to the start of a record no later than it. */
  lemma {:induction false} LookupStart(es: seq<Entry>, recs: seq<Record>, base: int, target: int) returns (i: nat)
    requires Faithful(es, recs) && |recs| <= MAX_UINT32 + 1 && base <= target
    ensures i <= |recs| && base + i <= target
    ensures Nearest(es, ToUint32(target - base)).position == Size(recs[..i])
  {
    hide Size;
    assert recs[..0] == [];
    var rel := ToUint32(target - base);
    var k := Below(es, rel);
    if k < |es| && es[k].rel == rel {
      assert Marks(es[k], recs);
      i := rel;
    } else if k > 0 {
      assert Marks(es[k - 1], recs);
      i := es[k - 1].rel;
    } else {
      i := 0;
      assert Size([]) == 0 by { SizeEmpty(); }
    }
  }

  lemma {:induction false} SizeEmpty()
    ensures Size([]) == 0
  {
  }

  /** The sparse index agrees with a linear scan from byte 0, for every target: stored, past the
      end, cut off, or so large that its relative offset wraps; and both give the record
      that was stored under it. */
  lemma {:induction false} IndexedReadIsLinear(recs: seq<Record>, k: nat, es: seq<Entry>, base: int, target: int)
    requires AllEncodable(recs) && Dense(recs, base) && k <= Size(recs)
    requires Faithful(es, recs) && |recs| <= MAX_UINT32 + 1
    requires base <= target
    ensures ReadIndexed(Wires(recs)[..k], es, base, target) == ScanFor(Wires(recs)[..k], target)
    ensures ReadIndexed(Wires(recs)[..k], es, base, target) == ReadSpec(recs, k, base, target)
  {
    hide Wires, Size, Decode, EncodedSize, WholeRecords, ScanFor, Nearest;
    var disk := Wires(recs)[..k];
    SizeEmpty();
    assert recs[..0] == [] && Seek(disk, 0) == disk;
    ScanFromRecord(recs, k, 0, base, target);
    var i := LookupStart(es, recs, base, target);
    ScanFromRecord(recs, k, i, base, target);
    var p := Size(recs[..i]);
    if p <= k {
      DecodeInCut(recs, k, i);
      ScanHead(Seek(disk, p), target);
    } else {
      DecodeNothing();
      ScanHead([], target);
    }
  }

  /** A scan starts by looking at the record in front of it, as a direct read does. */
  lemma {:induction false} ScanHead(data: seq<byte>, target: int)
    ensures match Decode(data)
            case Failed(e) => ScanFor(data, target) == EndOfScan(e)
            case Decoded(rec, n) => rec.offset == target ==> ScanFor(data, target) == Ok(rec)
  {
    hide Decode;
  }

  // ---- Range reads ---------------------------------------------------------------------------------

  datatype RangeResult = Range(recs: seq<Record>, error: Option<ReadResult>)

  /** The loop of Segment.ReadFrom over the bytes in front of the reader. `acc` is an int32 and the
      budget test adds in int32. */
  function Collect(data: seq<byte>, offset: int, maxBytes: int32, acc: int32): RangeResult
    decreases |data|
  {
    match Decode(data)
    case Failed(e) => Range([], if EndOfScan(e).NotFound? then None else Some(Undecodable(e)))
    case Decoded(rec, n) =>
      if rec.offset < offset then Collect(data[n..], offset, maxBytes, acc)
      else if acc > 0 && Wrap32(acc + Wrap32(n)) > maxBytes then Range([], None)
      else
        var rest := Collect(data[n..], offset, maxBytes, Wrap32(acc + Wrap32(n)));
        Range([rec] + rest.recs, rest.error)
  }

  function RangeIndexed(disk: seq<byte>, es: seq<Entry>, base: int, offset: int, maxBytes: int32): RangeResult {
    if maxBytes <= 0 then Range([], None)
    else if offset < base then Range([], Some(OutOfRange))
    else Collect(Seek(disk, Nearest(es, ToUint32(offset - base)).position), offset, maxBytes, 0)
  }

  /** How many of the records in front of the reader the budget loop takes. */
  function RunLength(recs: seq<Record>, maxBytes: int32, acc: int32): (r: nat)
    ensures r <= |recs|
    ensures recs != [] && acc <= 0 ==> r > 0
  {
    if recs == [] then 0
    else
      var sum := Wrap32(acc + Wrap32(EncodedSize(recs[0])));
      if acc > 0 && sum > maxBytes then 0 else 1 + RunLength(recs[1..], maxBytes, sum)
  }

  /** The records on disk from `offset` on. */
  function OnDiskFrom(recs: seq<Record>, k: nat, base: int, offset: int): seq<Record>
    requires base <= offset
  {
    var w := WholeRecords(recs, k);
    if offset - base < w then recs[offset - base..w] else []
  }

  function TakeRun(recs: seq<Record>, maxBytes: int32): seq<Record> {
    recs[..RunLength(recs, maxBytes, 0)]
  }

  lemma {:induction false} CollectRun(recs: seq<Record>, k: nat, i: nat, base: int, offset: int, maxBytes: int32, acc: int32)
    requires AllEncodable(recs) && Dense(recs, base) && k <= Size(recs) && i <= |recs|
    requires Size(recs[..i]) <= k && offset <= base + i
    ensures i <= WholeRecords(recs, k)
    ensures var rest := recs[i..WholeRecords(recs, k)];
            Collect(Wires(recs)[..k][Size(recs[..i])..], offset, maxBytes, acc)
            == Range(rest[..RunLength(rest, maxBytes, acc)], None)
    decreases |recs| - i
  {
    hide Wires, Size, Decode, EncodedSize, WholeRecords;
    var w := WholeRecords(recs, k);
    DecodeInCut(recs, k, i);
    if i < w {
      var rest := recs[i..w];
      assert rest[0] == recs[i] && rest[1..] == recs[i + 1..w];
      SeekStep(recs, k, i);
      var sum := Wrap32(acc + Wrap32(EncodedSize(recs[i])));
      CollectRun(recs, k, i + 1, base, offset, maxBytes, sum);
      OneMoreOfRun(rest, RunLength(rest[1..], maxBytes, sum));
    }
  }

  lemma {:induction false} OneMoreOfRun(rest: seq<Record>, r: nat)
    requires r < |rest|
    ensures [rest[0]] + rest[1..][..r] == rest[..r + 1]
  {
  }

  lemma {:induction false} CollectFromRecord(recs: seq<Record>, k: nat, i: nat, base: int, offset: int, maxBytes: int32)
    requires AllEncodable(recs) && Dense(recs, base) && k <= Size(recs) && i <= |recs|
    requires base + i <= offset
    ensures Collect(Seek(Wires(recs)[..k], Size(recs[..i])), offset, maxBytes, 0)
            == Range(TakeRun(OnDiskFrom(recs, k, base, offset), maxBytes), None)
    decreases |recs| - i
  {
    hide Wires, Size, Decode, EncodedSize, WholeRecords, RunLength;
    var w := WholeRecords(recs, k);
    var p := Size(recs[..i]);
    if p > k {
      DecodeNothing();
      if i < w { SizeMonotone(recs, i, w); }
      assert OnDiskFrom(recs, k, base, offset) == [];
    } else {
      DecodeInCut(recs, k, i);
      if i < w && base + i < offset {
        SeekStep(recs, k, i);
        CollectFromRecord(recs, k, i + 1, base, offset, maxBytes);
      } else if i < w {
        CollectRun(recs, k, i, base, offset, maxBytes, 0);
      }
    }
  }

  /** A range read through the index is the budgeted run of the stored records from the requested
      offset on, as a scan from byte 0 would give it. */
  lemma {:induction false} IndexedRangeIsLinear(recs: seq<Record>, k: nat, es: seq<Entry>, base: int, offset: int, maxBytes: int32)
    requires AllEncodable(recs) && Dense(recs, base) && k <= Size(recs)
    requires Faithful(es, recs) && |recs| <= MAX_UINT32 + 1
    requires base <= offset && maxBytes > 0
    ensures RangeIndexed(Wires(recs)[..k], es, base, offset, maxBytes) == Collect(Wires(recs)[..k], offset, maxBytes, 0)
    ensures RangeIndexed(Wires(recs)[..k], es, base, offset, maxBytes)
            == Range(TakeRun(OnDiskFrom(recs, k, base, offset), maxBytes), None)
  {
    hide Wires, Size, Decode, Collect, WholeRecords, Nearest, TakeRun, OnDiskFrom;
    SizeEmpty();
    assert recs[..0] == [] && Seek(Wires(recs)[..k], 0) == Wires(recs)[..k];
    CollectFromRecord(recs, k, 0, base, offset, maxBytes);
    var i := LookupStart(es, recs, base, offset);
    CollectFromRecord(recs, k, i, base, offset, maxBytes);
  }

  // ---- The budget ------------------------------------------------------------------------------------

  /** The longest run that fits the budget, counting at least one record if there is any. */
  function LongestRun(recs: seq<Record>, maxBytes: int): (r: nat)
    ensures r <= |recs|
    ensures r > 1 ==> Size(recs[..r]) <= maxBytes
    ensures recs != [] ==> r > 0
    ensures r < |recs| ==> maxBytes < Size(recs[..r + 1])
  {
    if |recs| <= 1 then |recs|
    else if Size(recs) <= maxBytes then assert recs[..|recs|] == recs; |recs|
    else
      var front := recs[..|recs| - 1];
      var r := LongestRun(front, maxBytes);
      assert front[..r] == recs[..r];
      assert r < |front| ==> front[..r + 1] == recs[..r + 1];
      assert recs[..|recs|] == recs;
      r
  }

  /** The record that breaks the budget would push the running total out of int32. */
  predicate BudgetOverflows(recs: seq<Record>, maxBytes: int) {
    var r := LongestRun(recs, maxBytes);
    r < |recs| && Size(recs[..r + 1]) > MAX_INT32
  }

  lemma {:induction false} SumSmall(recs: seq<Record>, i: nat)
    requires AllEncodable(recs) && i < |recs|
    ensures 0 < EncodedSize(recs[i]) <= MAX_RECORD_SIZE
    ensures Size(recs[..i + 1]) == Size(recs[..i]) + EncodedSize(recs[i])
  {
    SizeStep(recs, i);
  }

  lemma {:induction false} WrapKeeps(x: int)
    requires 0 <= x <= MAX_INT32
    ensures Wrap32(x) == x
  {
  }

  lemma {:induction false} WrapOverflows(x: int)
    requires MAX_INT32 < x < TWO_32
    ensures Wrap32(x) < 0
  {
  }

  /** One turn of the budget loop, with the total so far inside int32. */
  lemma {:induction false} RunTurn(recs: seq<Record>, i: nat, maxBytes: int32)
    requires AllEncodable(recs) && i < |recs| && 0 <= Size(recs[..i]) <= MAX_INT32
    ensures var sum := Wrap32(Size(recs[..i + 1]));
            RunLength(recs[i..], maxBytes, Size(recs[..i])) ==
            if Size(recs[..i]) > 0 && sum > maxBytes then 0 else 1 + RunLength(recs[i + 1..], maxBytes, sum)
  {
    hide EncodedSize, Size, Wrap32;
    SumSmall(recs, i);
    WrapKeeps(EncodedSize(recs[i]));
    assert recs[i..][0] == recs[i] && recs[i..][1..] == recs[i + 1..];
  }

  /** The loop after i records: while the totals stay within the budget it goes on, and it stops
      at the first record that does not fit, provided that sum is an int32. */
  lemma {:induction false} RunFrom(recs: seq<Record>, i: nat, maxBytes: int32)
    requires AllEncodable(recs) && maxBytes > 0
    requires i <= LongestRun(recs, maxBytes)
    requires (i == 0 || 0 < Size(recs[..i])) && Size(recs[..i]) <= MAX_INT32
    ensures var r := i + RunLength(recs[i..], maxBytes, Size(recs[..i]));
            if BudgetOverflows(recs, maxBytes) then r > LongestRun(recs, maxBytes) else r == LongestRun(recs, maxBytes)
    decreases |recs| - i
  {
    hide LongestRun, EncodedSize, Size, Wrap32, RunLength;
    assert recs[..0] == [];
    SizeEmpty();
    var r := LongestRun(recs, maxBytes);
    if i < |recs| {
      RunTurn(recs, i, maxBytes);
      var sum := Size(recs[..i + 1]);
      SumSmall(recs, i);
      if i < r {
        SizeWithin(recs, i, maxBytes);
        WrapKeeps(sum);
        RunFrom(recs, i + 1, maxBytes);
      } else if sum > MAX_INT32 {
        WrapOverflows(sum);
      } else {
        WrapKeeps(sum);
      }
    } else {
      assert recs[i..] == [];
      NoRun(maxBytes, Size(recs[..i]));
    }
  }

  lemma {:induction false} NoRun(maxBytes: int32, acc: int32)
    ensures RunLength([], maxBytes, acc) == 0
  {
  }

  /** Inside the longest run every total is within the budget, or is the first record alone. */
  lemma {:induction false} SizeWithin(recs: seq<Record>, i: nat, maxBytes: int32)
    requires AllEncodable(recs) && i < LongestRun(recs, maxBytes)
    ensures Size(recs[..i + 1]) <= if i == 0 then MAX_RECORD_SIZE else maxBytes
  {
    hide EncodedSize, Size, LongestRun;
    SumSmall(recs, i);
    SizeMonotone(recs, i + 1, LongestRun(recs, maxBytes));
    assert recs[..0] == [];
    SizeEmpty();
  }

  /** Segment.ReadFrom returns the longest contiguous run that fits the budget exactly when the
      record that breaks the budget does not carry the int32 total past its maximum. */
  lemma {:induction false} RunIsLongestIff(recs: seq<Record>, maxBytes: int32)
    requires AllEncodable(recs) && maxBytes > 0
    ensures RunLength(recs, maxBytes, 0) == LongestRun(recs, maxBytes) <==> !BudgetOverflows(recs, maxBytes)
  {
    hide LongestRun, RunLength;
    assert recs[..0] == [] && recs[0..] == recs;
    SizeEmpty();
    RunFrom(recs, 0, maxBytes);
  }

  /** n records of the largest size that can be encoded, at offsets 0, 1, ... */
  function Megabytes(n: int32): seq<Record>
    requires n >= 0
  {
    seq(n, i requires 0 <= i < n => Record(i, 0, 0, None, Some(seq(MAX_RECORD_SIZE - 33, _ => 0))))
  }

  lemma {:induction false} MegabytesSize(n: int32, i: nat)
    requires i <= n
    ensures AllEncodable(Megabytes(n)) && Size(Megabytes(n)[..i]) == i * MAX_RECORD_SIZE
  {
    if i > 0 {
      MegabytesSize(n, i - 1);
      SizeStep(Megabytes(n), i - 1);
    }
  }

  /** The budget loop does overrun: with the largest int32 as budget and 2048 records of 1 MiB, which
      one segment holds when segment_bytes is above 2 GiB (up to 4 GiB is accepted), the total wraps
      at the last record and the loop takes all 2 GiB although only 2047 records fit. */
  lemma {:induction false} BudgetOverrun()
    ensures var recs := Megabytes(2048);
            && AllEncodable(recs) && Dense(recs, 0) && Size(recs) <= MAX_UINT32 && BudgetOverflows(recs, MAX_INT32)
            && LongestRun(recs, MAX_INT32) == 2047 && RunLength(recs, MAX_INT32, 0) == 2048
  {
    hide Megabytes, Size, LongestRun, RunLength;
    var recs := Megabytes(2048);
    MegabytesLength(2048);
    MegabytesSize(2048, 2047);
    MegabytesSize(2048, 2048);
    assert recs[..2048] == recs && recs[..0] == [] && recs[0..] == recs;
    LongestRunIs(recs, 2047, MAX_INT32);
    SizeEmpty();
    RunFrom(recs, 0, MAX_INT32);
  }

  lemma {:induction false} MegabytesLength(n: int32)
    requires n >= 0
    ensures |Megabytes(n)| == n && Dense(Megabytes(n), 0)
  {
  }

  /** A run that fits and cannot be extended is the longest. */
  lemma {:induction false} LongestRunIs(recs: seq<Record>, r: nat, maxBytes: int)
    requires AllEncodable(recs) && 1 < r < |recs| && Size(recs[..r]) <= maxBytes < Size(recs[..r + 1])
    ensures LongestRun(recs, maxBytes) == r
  {
    hide Size, LongestRun, EncodedSize;
    var l := LongestRun(recs, maxBytes);
    if l < r { SizeMonotone(recs, l + 1, r); }
    if r < l { SizeMonotone(recs, r + 1, l); }
  }

  /** Budgets a megabyte below the int32 maximum, or data that fits in an int32, are always safe. */
  lemma {:induction false} SafeBudget(recs: seq<Record>, maxBytes: int32)
    requires AllEncodable(recs) && maxBytes > 0
    requires maxBytes <= MAX_INT32 - MAX_RECORD_SIZE || Size(recs) <= MAX_INT32
    ensures !BudgetOverflows(recs, maxBytes)
    ensures TakeRun(recs, maxBytes) == recs[..LongestRun(recs, maxBytes)]
  {
    hide EncodedSize, Size, LongestRun, RunLength;
    var r := LongestRun(recs, maxBytes);
    if r < |recs| {
      SumSmall(recs, r);
      SizeMonotone(recs, r + 1, |recs|);
      assert recs[..|recs|] == recs;
      if r <= 1 {
        if r == 1 { SumSmall(recs, 0); assert recs[..0] == []; SizeEmpty(); }
      }
    }
    RunIsLongestIff(recs, maxBytes);
  }
}
