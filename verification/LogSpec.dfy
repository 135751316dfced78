/** The partition log as a list of segments (internal/storage/log.go), on values: rotation, append,
    truncation, retention and reopening as functions, and the single object they all refine,
    a dense run of records with a dropped prefix. */
module LogSpec {
  import opened Bytes
  import opened Records
  import opened OffsetIndex
  import opened IndexAccounting
  import opened SegmentReads
  import opened Segments

  datatype Config = Config(
    segmentBytes: int, indexMaxBytes: int, indexIntervalBytes: int,
    retentionMs: int, retentionBytes: int, flushMessages: int, segmentMs: int)

  /** withDefaults, for the fields the log's behaviour depends on. */
  function WithDefaults(c: Config): Config {
    Config(
      if c.segmentBytes <= 0 then 128 * 1024 * 1024 else c.segmentBytes,
      if c.indexMaxBytes <= 0 then 10 * 1024 * 1024 else c.indexMaxBytes,
      if c.indexIntervalBytes <= 0 then 4096 else c.indexIntervalBytes,
      if c.retentionMs == 0 then 7 * 24 * 60 * 60 * 1000 else c.retentionMs,
      if c.retentionBytes == 0 then -1 else c.retentionBytes,
      if c.flushMessages < 0 then 0 else c.flushMessages,
      if c.segmentMs == 0 then 7 * 24 * 60 * 60 * 1000 else c.segmentMs)
  }

  /** A configuration a log can be opened with. */
  predicate Usable(c: Config) {
    c.segmentBytes > 0 && c.indexIntervalBytes > 0 && c.indexMaxBytes >= 8
  }

  function IndexCap(c: Config): nat {
    if c.indexMaxBytes < 0 then 0 else c.indexMaxBytes - c.indexMaxBytes % 8
  }

  /** A log: its segments, oldest first, and when the active one was opened. */
  datatype LogState = LogState(segs: seq<Seg>, activeSince: int)

  function EntriesOf(s: Seg, c: Config): seq<Entry> {
    Book(s.recs, s.base, c.indexIntervalBytes).entries
  }

  function End(s: Seg): int { s.base + |s.recs| }

  /** The write-side counters are those of the records. */
  predicate Live(s: Seg, c: Config) {
    s.next == End(s) && s.since == Book(s.recs, s.base, c.indexIntervalBytes).since
  }

  /** A sealed segment that was reopened keeps the counters of an empty one. */
  predicate Stale(s: Seg) { s.next == s.base }

  predicate SegOk(s: Seg, c: Config) {
    && MIN_INT64 <= s.base && End(s) <= MAX_INT64
    && AllEncodable(s.recs) && Dense(s.recs, s.base) && Addressable(s.recs)
    && 8 * |EntriesOf(s, c)| <= s.indexMax <= IndexCap(c)
    && s.indexMax % 8 == 0 && s.indexMax >= 8
    && (Live(s, c) || Stale(s))
  }

  /** Segments are non-empty except possibly the last, abut exactly, and the last one is live. */
  ghost predicate WellFormed(segs: seq<Seg>, c: Config) {
    && segs != []
    && (forall i :: 0 <= i < |segs| ==> SegOk(segs[i], c))
    && (forall i :: 0 <= i < |segs| - 1 ==> segs[i].recs != [] && End(segs[i]) == segs[i + 1].base)
    && Live(segs[|segs| - 1], c)
  }

  // ---- The abstract log ---------------------------------------------------------------------------

  /** What is stored: records with consecutive offsets from `start`. */
  datatype Stored = Stored(start: int, recs: seq<Record>) {
    function Leo(): int { start + |recs| }
  }

  function Concat(segs: seq<Seg>): seq<Record> {
    if segs == [] then [] else Concat(segs[..|segs| - 1]) + segs[|segs| - 1].recs
  }

  function Abs(segs: seq<Seg>): Stored
    requires segs != []
  {
    Stored(segs[0].base, Concat(segs))
  }

  /** A read of the abstract log. */
  function Lookup(s: Stored, offset: int): ReadResult {
    if offset < s.start then OutOfRange
    else if offset < s.Leo() then Ok(s.recs[offset - s.start])
    else NotFound
  }

  lemma {:induction false} ConcatSplit(a: seq<Seg>, b: seq<Seg>)
    ensures Concat(a + b) == Concat(a) + Concat(b)
    decreases |b|
  {
    if b == [] {
      assert a + b == a;
    } else {
      var front := b[..|b| - 1];
      ConcatSplit(a, front);
      assert (a + b)[..|a + b| - 1] == a + front;
      assert Concat(a) + (Concat(front) + b[|b| - 1].recs) == (Concat(a) + Concat(front)) + b[|b| - 1].recs;
    }
  }

  lemma {:induction false} ConcatOne(s: Seg)
    ensures Concat([s]) == s.recs
  {
    assert [s][..0] == [];
  }

  /** Segment i's records sit in the whole at the distance of its base from the start. */
  lemma {:induction false} SegmentPlace(segs: seq<Seg>, i: nat, c: Config)
    requires WellFormed(segs, c) && i < |segs|
    ensures |Concat(segs[..i])| == segs[i].base - segs[0].base
    ensures Concat(segs) == Concat(segs[..i]) + segs[i].recs + Concat(segs[i + 1..])
  {
    hide SegOk, EntriesOf;
    var rest := segs[i + 1..];
    assert segs == segs[..i] + ([segs[i]] + rest);
    ConcatSplit(segs[..i], [segs[i]] + rest);
    ConcatSplit([segs[i]], rest);
    ConcatOne(segs[i]);
    PrefixLength(segs, i, c);
  }

  lemma {:induction false} PrefixLength(segs: seq<Seg>, i: nat, c: Config)
    requires WellFormed(segs, c) && i < |segs|
    ensures |Concat(segs[..i])| == segs[i].base - segs[0].base
  {
    hide SegOk, EntriesOf;
    if i > 0 {
      PrefixLength(segs, i - 1, c);
      assert segs[..i][..i - 1] == segs[..i - 1];
      assert segs[..i][i - 1] == segs[i - 1];
    }
  }

  /** The log's end offset is the active segment's next offset. */
  lemma {:induction false} LeoIsActiveNext(segs: seq<Seg>, c: Config)
    requires WellFormed(segs, c)
    ensures Abs(segs).Leo() == segs[|segs| - 1].next == End(segs[|segs| - 1])
  {
    hide SegOk;
    var n := |segs| - 1;
    SegmentPlace(segs, n, c);
    assert segs[n + 1..] == [];
  }

  lemma {:induction false} BasesIncrease(segs: seq<Seg>, i: nat, j: nat, c: Config)
    requires WellFormed(segs, c) && i < j < |segs|
    ensures End(segs[i]) <= segs[j].base && segs[i].base < segs[j].base
  {
    hide SegOk;
    if i < j - 1 {
      BasesIncrease(segs, i, j - 1, c);
    }
  }

  /** The segment a read goes to: the last one whose base is at most the offset. */
  ghost predicate Covers(segs: seq<Seg>, i: nat, offset: int) {
    i < |segs| && segs[i].base <= offset && (i + 1 < |segs| ==> offset < segs[i + 1].base)
  }

  lemma {:induction false} FindCovering(segs: seq<Seg>, offset: int, n: nat, c: Config) returns (i: nat)
    requires WellFormed(segs, c) && segs[0].base <= offset && n < |segs|
    requires n + 1 < |segs| ==> offset < segs[n + 1].base
    ensures Covers(segs, i, offset)
  {
    hide SegOk, Live;
    if segs[n].base <= offset {
      i := n;
    } else {
      i := FindCovering(segs, offset, n - 1, c);
    }
  }

  /** Read: a lookup in the covering segment is a lookup in the whole. */
  lemma {:induction false} ReadRefines(segs: seq<Seg>, i: nat, offset: int, c: Config)
    requires WellFormed(segs, c) && Covers(segs, i, offset)
    ensures (if offset < End(segs[i]) then Ok(segs[i].recs[offset - segs[i].base]) else NotFound)
            == Lookup(Abs(segs), offset)
  {
    hide SegOk;
    SegmentPlace(segs, i, c);
    var before := Concat(segs[..i]);
    if i > 0 {
      BasesIncrease(segs, 0, i, c);
    }
    if offset < End(segs[i]) {
      assert Concat(segs)[offset - segs[0].base] == (before + segs[i].recs)[offset - segs[0].base];
    } else {
      LeoIsActiveNext(segs, c);
    }
  }

  /** Replacing the segments from n on by others that start at the same base. */
  lemma {:induction false} Graft(segs: seq<Seg>, n: nat, tail: seq<Seg>, c: Config)
    requires WellFormed(segs, c) && n < |segs| && WellFormed(tail, c) && tail[0].base == segs[n].base
    ensures WellFormed(segs[..n] + tail, c)
    ensures Abs(segs[..n] + tail) == Stored(segs[0].base, Concat(segs[..n]) + Concat(tail))
  {
    hide SegOk, Live;
    ConcatSplit(segs[..n], tail);
    var all := segs[..n] + tail;
    forall i | 0 <= i < |all| - 1 ensures all[i].recs != [] && End(all[i]) == all[i + 1].base {
      if i >= n {
        assert all[i] == tail[i - n] && all[i + 1] == tail[i - n + 1];
      } else {
        assert all[i] == segs[i];
        assert all[i + 1].base == segs[i + 1].base;
      }
    }
  }

  lemma {:induction false} ConcatTwo(a: Seg, b: Seg)
    ensures Concat([a, b]) == a.recs + b.recs
  {
    ConcatSplit([a], [b]);
    ConcatOne(a);
    ConcatOne(b);
    assert [a, b] == [a] + [b];
  }

  /** The last segment's records end the whole. */
  lemma {:induction false} ConcatLast(segs: seq<Seg>)
    requires segs != []
    ensures Concat(segs) == Concat(segs[..|segs| - 1]) + segs[|segs| - 1].recs
  {
  }

  // ---- Appending ----------------------------------------------------------------------------------------

  function FreshSeg(base: int, c: Config, now: int): Seg
    requires Usable(c)
  {
    Seg(base, [], base, 0, IndexCap(c), now)
  }

  /** IsFull. */
  predicate Full(s: Seg, c: Config) {
    Size(s.recs) >= c.segmentBytes || 8 * |EntriesOf(s, c)| + 8 > s.indexMax
  }

  /** shouldRotateLocked. */
  predicate RotationDue(st: LogState, c: Config, now: int)
    requires st.segs != []
  {
    var active := st.segs[|st.segs| - 1];
    || Full(active, c)
    || (c.segmentMs > 0 && active.next > active.base && now - st.activeSince >= c.segmentMs)
  }

  /** A segment once sealed: its index file is cut to the entries it holds. */
  function SealedSeg(s: Seg, c: Config): Seg
    requires Usable(c)
  {
    s.(indexMax := 8 * |EntriesOf(s, c)|)
  }

  /** rotateLocked: seal the active segment and open a fresh one at its next offset. */
  function Rotate(st: LogState, c: Config, now: int): LogState
    requires st.segs != [] && Usable(c)
  {
    var n := |st.segs| - 1;
    var active := st.segs[n];
    LogState(st.segs[..n] + [SealedSeg(active, c), FreshSeg(active.next, c, now)], now)
  }

  function MaybeRotate(st: LogState, c: Config, now: int): LogState
    requires st.segs != [] && Usable(c)
  {
    if RotationDue(st, c, now) then Rotate(st, c, now) else st
  }

  function AppendToSeg(s: Seg, r: Record, c: Config): Seg
    requires MIN_INT64 <= s.next <= MAX_INT64
  {
    var recs := s.recs + [Stamp(r, s.next)];
    s.(recs := recs, next := s.next + 1, since := Book(recs, s.base, c.indexIntervalBytes).since)
  }

  /** Why a record is refused, once the segment to hold it is settled. */
  function Refused(active: Seg, rec: Option<Record>): Option<AppendError> {
    if rec.None? then Some(NilRecord)
    else if Size(active.recs) > MAX_UINT32 then Some(PositionOverflow)
    else if !Encodable(rec.value) then Some(RecordTooLarge)
    else None
  }

  /** An empty live segment is not full, so only segments with records are sealed. */
  lemma {:induction false} RotatesNonEmpty(st: LogState, c: Config, now: int)
    requires WellFormed(st.segs, c) && Usable(c) && RotationDue(st, c, now)
    ensures st.segs[|st.segs| - 1].recs != []
  {
    assert FramesOf([]) == [];
  }

  lemma {:induction false} FreshOk(base: int, c: Config, now: int)
    requires Usable(c) && MIN_INT64 <= base <= MAX_INT64
    ensures WellFormed([FreshSeg(base, c, now)], c) && !Full(FreshSeg(base, c, now), c)
  {
    assert FramesOf([]) == [];
  }

  lemma {:induction false} SealedOk(s: Seg, c: Config)
    requires SegOk(s, c) && s.recs != [] && Usable(c)
    ensures SegOk(s.(indexMax := 8 * |EntriesOf(s, c)|), c)
  {
    BookSound(s.recs, s.base, c.indexIntervalBytes);
  }

  lemma {:induction false} RotateWellFormed(st: LogState, c: Config, now: int)
    requires WellFormed(st.segs, c) && Usable(c) && RotationDue(st, c, now)
    ensures WellFormed(Rotate(st, c, now).segs, c)
    ensures Abs(Rotate(st, c, now).segs) == Abs(st.segs)
  {
    hide SegOk, Full, EntriesOf, Concat;
    var n := |st.segs| - 1;
    var active := st.segs[n];
    RotatesNonEmpty(st, c, now);
    SealedOk(active, c);
    EndInRange(active, c);
    FreshOk(active.next, c, now);
    var sealed := SealedSeg(active, c);
    var tail := [sealed, FreshSeg(active.next, c, now)];
    ConcatTwo(sealed, tail[1]);
    ConcatLast(st.segs);
    assert tail[1] == [FreshSeg(active.next, c, now)][0];
    Graft(st.segs, n, tail, c);
  }

  lemma {:induction false} EndInRange(s: Seg, c: Config)
    requires SegOk(s, c)
    ensures MIN_INT64 <= s.base <= End(s) <= MAX_INT64
  {
  }

  /** Before a record is handed to a segment the log has made sure there is room: whatever the
      configuration, the index-full error never surfaces through the log. */
  lemma {:induction false} RoomAfterRotation(st: LogState, c: Config, now: int)
    requires WellFormed(st.segs, c) && Usable(c)
    ensures var rotated := MaybeRotate(st, c, now);
            var active := rotated.segs[|rotated.segs| - 1];
            && WellFormed(rotated.segs, c)
            && Abs(rotated.segs) == Abs(st.segs)
            && active.next == End(active) == Abs(st.segs).Leo()
            && MIN_INT64 <= active.next <= MAX_INT64
            && 8 * |EntriesOf(active, c)| + 8 <= active.indexMax
            && !Full(active, c)
  {
    hide SegOk, EntriesOf, Size, Concat;
    if RotationDue(st, c, now) {
      RotateWellFormed(st, c, now);
      EndInRange(st.segs[|st.segs| - 1], c);
      FreshOk(st.segs[|st.segs| - 1].next, c, now);
    }
    var rotated := MaybeRotate(st, c, now).segs;
    LeoIsActiveNext(rotated, c);
    EndInRange(rotated[|rotated| - 1], c);
  }

  datatype Outcome = Outcome(st: LogState, result: AppendResult)

  /** Log.Append: rotate if due, then append to the active segment. */
  function AppendOne(st: LogState, rec: Option<Record>, c: Config, now: int): Outcome
    requires WellFormed(st.segs, c) && Usable(c)
  {
    if rec.None? then Outcome(st, Rejected(NilRecord))
    else
      RoomAfterRotation(st, c, now);
      var rotated := MaybeRotate(st, c, now);
      var n := |rotated.segs| - 1;
      var active := rotated.segs[n];
      match Refused(active, rec)
      case Some(e) => Outcome(rotated, Rejected(e))
      case None => Outcome(rotated.(segs := rotated.segs[..n] + [AppendToSeg(active, rec.value, c)]), Appended(active.next))
  }

  /** A record is refused exactly when it cannot be encoded, or when the active segment, not due for
      rotation, already ends past 4 GiB. */
  lemma {:induction false} RejectedIff(st: LogState, rec: Record, c: Config, now: int)
    requires WellFormed(st.segs, c) && Usable(c)
    ensures AppendOne(st, Some(rec), c, now).result.Rejected? <==>
              || !Encodable(rec)
              || (Size(st.segs[|st.segs| - 1].recs) > MAX_UINT32 && !RotationDue(st, c, now))
  {
    hide SegOk, EncodedSize, RotationDue, EntriesOf, Live;
    RoomAfterRotation(st, c, now);
  }

  /** Appending to a live segment that is not full. */
  lemma {:induction false} AppendSegOk(s: Seg, r: Record, c: Config)
    requires SegOk(s, c) && Live(s, c) && Usable(c)
    requires Encodable(r) && Size(s.recs) <= MAX_UINT32 && s.next < MAX_INT64
    requires 8 * |EntriesOf(s, c)| + 8 <= s.indexMax
    ensures SegOk(AppendToSeg(s, r, c), c) && Live(AppendToSeg(s, r, c), c)
  {
    hide Size, EncodedSize, Fold;
    var stamped := Stamp(r, s.next);
    StampSize(r, s.next);
    Grow(s.recs, stamped, s.base, c.indexIntervalBytes);
    StepEntries(Book(s.recs, s.base, c.indexIntervalBytes), FrameOf(stamped), s.base, c.indexIntervalBytes);
  }

  lemma {:induction false} StepEntries(a: Account, f: Frame, base: int, interval: int)
    ensures |a.entries| <= |Step(a, f, base, interval).entries| <= |a.entries| + 1
  {
  }

  /** Log.Append refines the abstract log: a success stores exactly the stamped record under the
      old end offset, a refusal stores nothing, and no other refusal exists. */
  lemma {:induction false} AppendRefines(st: LogState, rec: Option<Record>, c: Config, now: int)
    requires WellFormed(st.segs, c) && Usable(c) && Abs(st.segs).Leo() < MAX_INT64
    ensures var o := AppendOne(st, rec, c, now);
            var before := Abs(st.segs);
            && WellFormed(o.st.segs, c)
            && (match o.result
                case Appended(offset) =>
                  && rec.Some? && Encodable(rec.value) && offset == before.Leo()
                  && Abs(o.st.segs) == before.(recs := before.recs + [Stamp(rec.value, offset)])
                case Rejected(e) =>
                  && Abs(o.st.segs) == before
                  && (e == NilRecord || e == RecordTooLarge || e == PositionOverflow)
                  && (e == NilRecord <==> rec.None?)
                  && (e == RecordTooLarge ==> rec.Some? && !Encodable(rec.value))
                  && (e == PositionOverflow ==> c.segmentBytes > MAX_UINT32))
  {
    hide SegOk, Size, EncodedSize, RotationDue, Concat, EntriesOf, Rotate, Live;
    if rec.Some? {
      RoomAfterRotation(st, c, now);
      var rotated := MaybeRotate(st, c, now);
      var active := rotated.segs[|rotated.segs| - 1];
      if Refused(active, rec).None? {
        ReplaceLast(rotated.segs, rec.value, c);
      }
    }
  }

  lemma {:induction false} ReplaceLast(segs: seq<Seg>, r: Record, c: Config)
    requires WellFormed(segs, c) && Usable(c)
    requires Encodable(r) && Size(segs[|segs| - 1].recs) <= MAX_UINT32
    requires MIN_INT64 <= segs[|segs| - 1].next < MAX_INT64
    requires 8 * |EntriesOf(segs[|segs| - 1], c)| + 8 <= segs[|segs| - 1].indexMax
    ensures var active := segs[|segs| - 1];
            var segs' := segs[..|segs| - 1] + [AppendToSeg(active, r, c)];
            WellFormed(segs', c) && Abs(segs') == Abs(segs).(recs := Abs(segs).recs + [Stamp(r, active.next)])
  {
    hide SegOk, Size, EncodedSize, Concat, EntriesOf;
    var n := |segs| - 1;
    var active := segs[n];
    var grown := AppendToSeg(active, r, c);
    AppendSegOk(active, r, c);
    Graft(segs, n, [grown], c);
    ConcatLast(segs);
    ConcatOne(grown);
  }
}
