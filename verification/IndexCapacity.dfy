/** The index size derived from the segment policy (internal/config/config.go) against what a
    segment's index really needs. */
module IndexCapacity {
  import opened Bytes
  import opened Records
  import opened OffsetIndex
  import opened IndexAccounting
  import opened SegmentReads
  import opened Segments
  import opened LogSpec

  const INDEX_MAX_BYTES_MIN: int64 := 64 * 1024
  const INDEX_MAX_BYTES_MAX: int64 := 10 * 1024 * 1024

  /** deriveIndexMaxBytes, in int64 arithmetic. */
  function DeriveIndexMaxBytes(segmentBytes: int64, interval: int64): int64
    requires segmentBytes >= 0
  {
    if interval <= 0 then INDEX_MAX_BYTES_MAX
    else
      var needed := Wrap64(Wrap64(Wrap64(segmentBytes / interval + 1) * 8) * 2);
      if needed < INDEX_MAX_BYTES_MIN then INDEX_MAX_BYTES_MIN
      else if needed > INDEX_MAX_BYTES_MAX then INDEX_MAX_BYTES_MAX
      else needed
  }

  /** The part of Validate that concerns the log. */
  predicate ValidPolicy(segmentBytes: int) { segmentBytes <= MAX_UINT32 }

  lemma {:induction false} DerivedRoom(segmentBytes: int64, interval: int64)
    requires 0 < segmentBytes && interval > 0 && ValidPolicy(segmentBytes)
    ensures DeriveIndexMaxBytes(segmentBytes, interval) < INDEX_MAX_BYTES_MAX ==>
              16 * (segmentBytes / interval + 1) <= DeriveIndexMaxBytes(segmentBytes, interval)
    ensures INDEX_MAX_BYTES_MIN <= DeriveIndexMaxBytes(segmentBytes, interval) <= INDEX_MAX_BYTES_MAX
    ensures DeriveIndexMaxBytes(segmentBytes, interval) % 8 == 0
  {
    hide Wrap64;
    var q := segmentBytes / interval;
    Quotient(segmentBytes, interval);
    SmallStays(q + 1);
    SmallStays((q + 1) * 8);
    SmallStays((q + 1) * 16);
  }

  lemma {:induction false} SmallStays(x: int)
    requires 0 <= x <= 16 * TWO_32
    ensures Wrap64(x) == x
  {
  }

  lemma {:induction false} Quotient(a: int, b: int)
    requires 0 <= a && b > 0
    ensures 0 <= a / b <= a
  {
    var q := a / b;
    assert a == q * b + a % b;
    if q > 0 {
      Scale(1, b, q);
    }
  }

  /** Entries are at least an interval apart. */
  lemma {:induction false} EntriesNeeded(count: nat, interval: int, bytes: int, segmentBytes: int)
    requires count > 0 && interval > 0 && (count - 1) * interval <= bytes < segmentBytes
    ensures count <= segmentBytes / interval + 1
  {
    var q := segmentBytes / interval;
    assert segmentBytes < (q + 1) * interval;
    if count - 1 > q {
      Scale(q + 1, count - 1, interval);
      assert false;
    }
  }

  lemma {:induction false} Scale(x: int, y: int, k: int)
    requires x <= y && k > 0
    ensures x * k <= y * k
  {
  }

  /** With the derived size below its clamp, a segment that was never sealed is full exactly when
      its bytes say so: never because of its index. */
  lemma {:induction false} IndexNeverFills(s: Seg, c: Config)
    requires SegOk(s, c) && Usable(c) && ValidPolicy(c.segmentBytes) && c.indexIntervalBytes <= MAX_INT64
    requires c.indexMaxBytes == DeriveIndexMaxBytes(c.segmentBytes, c.indexIntervalBytes) < INDEX_MAX_BYTES_MAX
    requires s.indexMax == IndexCap(c)
    ensures Full(s, c) <==> Size(s.recs) >= c.segmentBytes
  {
    hide Fold, Size, Faithful, DeriveIndexMaxBytes;
    var a := Book(s.recs, s.base, c.indexIntervalBytes);
    BookSound(s.recs, s.base, c.indexIntervalBytes);
    DerivedRoom(c.segmentBytes, c.indexIntervalBytes);
    if Size(s.recs) < c.segmentBytes && a.entries != [] {
      EntriesNeeded(|a.entries|, c.indexIntervalBytes, a.bytes, c.segmentBytes);
    }
  }

  /** With segments of at most 4 GiB, the position and relative offset of every append fit the
      32-bit fields of an index entry. */
  lemma {:induction false} CastsLossless(st: LogState, c: Config, now: int)
    requires WellFormed(st.segs, c) && Usable(c) && ValidPolicy(c.segmentBytes)
    ensures var rotated := MaybeRotate(st, c, now).segs;
            var active := rotated[|rotated| - 1];
            ToUint32(Size(active.recs)) == Size(active.recs) && ToUint32(active.next - active.base) == |active.recs|
  {
    hide SegOk, Concat, EntriesOf, Size, RotationDue, Rotate;
    RoomAfterRotation(st, c, now);
    var rotated := MaybeRotate(st, c, now).segs;
    SizeBound(rotated[|rotated| - 1].recs);
  }
}
