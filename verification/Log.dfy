/** The partition log object (internal/storage/log.go). Every method is shown to do to its segments
    what the functions of LogSpec, LogMaintenance and LogRangeReads say. The active segment is an
    object; a sealed one, which nothing changes any more, is held as its two files and counters. */
module Logs {
  import opened Bytes
  import opened Records
  import opened OffsetIndex
  import opened IndexAccounting
  import opened SegmentReads
  import opened Segments
  import opened LogSpec
  import opened LogMaintenance
  import opened LogRangeReads

  datatype LogError = LogClosed | EmptyBatch | Refusal(error: AppendError)

  datatype Sealed = Sealed(base: int64, log: seq<byte>, index: seq<byte>, next: int, since: nat, indexMax: nat, created: int)

  /** The sealed segment z amounts to v: its log file is the encoded records, its index file holds
      the entries appending them produced. */
  ghost predicate Rests(z: Sealed, v: Seg, c: Config) {
    && z.base == v.base && z.next == v.next && z.since == v.since && z.indexMax == v.indexMax && z.created == v.created
    && z.log == Wires(v.recs)
    && |z.index| % 8 == 0 && EntriesIn(z.index, |z.index| / 8) == EntriesOf(v, c)
  }

  /** Every sealed segment amounts to its view; the last view is the active segment's. */
  ghost predicate Resting(sealed: seq<Sealed>, views: seq<Seg>, c: Config) {
    |views| == |sealed| + 1 && forall i :: 0 <= i < |sealed| ==> Rests(sealed[i], views[i], c)
  }

  lemma {:induction false} RestingPush(sealed: seq<Sealed>, views: seq<Seg>, z: Sealed, v: Seg, w: Seg, c: Config)
    requires Resting(sealed, views, c) && Rests(z, v, c)
    ensures Resting(sealed + [z], views[..|sealed|] + [v, w], c)
  {
    hide Rests;
    var n := |sealed|;
    forall i | 0 <= i < n + 1
      ensures Rests((sealed + [z])[i], (views[..n] + [v, w])[i], c)
    {
      if i < n {
        assert Rests(sealed[i], views[i], c);
      }
    }
  }

  /** The segment object s is open and amounts to v. */
  ghost predicate Linked(s: Segment, v: Seg, c: Config)
    reads s, s.Repr
  {
    && s.Valid() && !s.closed && s.maxBytes == c.segmentBytes && s.indexInterval == c.indexIntervalBytes
    && s.View() == v
  }

  lemma {:induction false} LinkedFacts(s: Segment, v: Seg, c: Config)
    requires Linked(s, v, c) && SegOk(v, c)
    ensures s.BaseOffset == v.base && s.recs == v.recs && s.NextOffset == v.next && s.CreatedAt == v.created
    ensures LogSpec.Live(v, c) <==> s.Live()
    ensures Size(v.recs) == s.bytesWritten && 8 * |EntriesOf(v, c)| == s.index.size && s.index.maxSize == v.indexMax
    ensures {s, s.index, s.index.mmap} <= s.Repr && s.index.Valid()
  {
    hide Fold, Size, Wires, EntriesIn;
    s.Soundness();
  }

  /** All records but the last n are wholly in the file. */
  ghost predicate OnDiskBut(recs: seq<Record>, disk: seq<byte>, n: int) {
    0 <= n <= |recs| && Size(recs[..|recs| - n]) <= |disk|
  }

  lemma {:induction false} OneMoreBut(recs: seq<Record>, disk: seq<byte>, r: Record, disk': seq<byte>, n: int)
    requires OnDiskBut(recs, disk, n) && |disk| <= |disk'|
    ensures OnDiskBut(recs + [r], disk', n + 1)
  {
    hide Size;
    assert (recs + [r])[..|recs| - n] == recs[..|recs| - n];
  }

  lemma {:induction false} NothingBut(disk: seq<byte>)
    ensures OnDiskBut([], disk, 0)
  {
  }

  lemma {:induction false} LinkedEmpty(s: Segment, v: Seg, c: Config)
    requires Linked(s, v, c) && s.buf == []
    ensures OnDiskBut(s.recs, s.disk, 0)
  {
    hide Segment.Valid;
    BufferEmpty(s);
  }

  lemma {:induction false} BufferEmpty(s: Segment)
    requires s.Valid() && s.buf == []
    ensures OnDiskBut(s.recs, s.disk, 0)
  {
    hide Wires, Size, Book, EntriesIn;
    assert s.disk + [] == s.disk;
    s.Soundness();
    assert s.recs[..|s.recs|] == s.recs;
  }

  /** What a crash that loses the buffer can lose is bounded by what was not flushed. */
  lemma {:induction false} LossBounded(recs: seq<Record>, disk: seq<byte>, n: int)
    requires OnDiskBut(recs, disk, n)
    ensures WholeRecords(recs, |disk|) >= |recs| - n
  {
    hide Size, WholeRecords;
    var w := WholeRecords(recs, |disk|);
    if w < |recs| - n {
      SizeMonotone(recs, w + 1, |recs| - n);
    }
  }

  class Log {
    const config: Config
    var sealed: seq<Sealed>
    var active: Segment?
    var activeCreatedAt: int
    var messagesSinceFlush: int
    var closed: bool

    /** What the segments amount to, oldest first, and every object the log may change. */
    ghost var views: seq<Seg>
    ghost var Repr: set<object>

    ghost predicate Valid()
      reads this, Repr
    {
      && this in Repr
      && if closed then sealed == [] && active == null
         else
           && Usable(config)
           && WellFormed(views, config) && Resting(sealed, views, config) && |views| == |sealed| + 1
           && active != null && active in Repr && active.Repr <= Repr && this !in active.Repr
           && Linked(active, views[|sealed|], config)
    }

    ghost function View(): LogState
      reads this
    {
      LogState(views, activeCreatedAt)
    }

    /** FlushMessages: with a limit of n, fewer than n records are in the buffer alone, and they are the
        last ones counted. */
    ghost predicate Flushed()
      reads this, active
    {
      !closed && active != null && config.flushMessages > 0 ==>
        messagesSinceFlush < config.flushMessages && OnDiskBut(active.recs, active.disk, messagesSinceFlush)
    }

    /** NewSegment on a path where no file exists yet. */
    static method FreshSegment(base: int64, c: Config, now: int) returns (s: Segment)
      requires Usable(c)
      ensures fresh(s) && fresh(s.Repr)
      ensures s in s.Repr && Linked(s, FreshSeg(base, c, now), c) && s.buf == [] && s.recs == []
    {
      var ix := Index.NewIndex([], c.indexMaxBytes);
      hide RecoveredEntries;
      NothingRecovered(ix.value.maxSize);
      s := new Segment.Open(base, [], ix.value, c.segmentBytes, c.indexIntervalBytes, now);
      assert FramesOf([]) == [];
    }

    /** A sealed segment's snapshot. */
    static method Rest(s: Segment, ghost v: Seg, c: Config) returns (z: Sealed)
      requires Linked(s, v, c) && s.buf == []
      ensures Rests(z, v, c)
    {
      hide Fold, Wires, EntriesIn;
      var index := s.index.Close();
      z := Sealed(s.BaseOffset, s.disk, index, s.NextOffset, s.bytesSinceLastIndex, s.index.maxSize, s.CreatedAt);
      assert s.disk + [] == s.disk;
    }

    /** What rotateLocked does to the segment it retires: flush, seal, keep its files. */
    method Retire() returns (z: Sealed)
      requires Valid() && !closed && active.recs != []
      modifies active.Repr
      ensures Rests(z, SealedSeg(views[|sealed|], config), config) && z.next == views[|sealed|].next
      ensures unchanged(this)
    {
      hide WellFormed, Book, Size, Resting, EntriesOf, SegOk, EntriesIn, Wires;
      LastOk(views, config);
      LinkedFacts(active, views[|sealed|], config);
      active.Seal();
      z := Rest(active, SealedSeg(views[|sealed|], config), config);
    }

    /** rotateLocked: retire the active segment, open a fresh one at its next offset. */
    method RotateLocked(now: int)
      requires Valid() && !closed && RotationDue(View(), config, now)
      modifies Repr
      ensures Valid() && !closed && fresh(Repr - old(Repr))
      ensures View() == Rotate(old(View()), config, now) && active.recs == [] && messagesSinceFlush == 0
    {
      hide WellFormed, RotationDue, LogSpec.Live, Segment.Valid, Segment.View, EntriesOf, SegOk, Resting, Rests, Linked;
      ghost var n := |sealed|;
      LastOk(views, config);
      LinkedFacts(active, views[n], config);
      RotatesNonEmpty(View(), config, now);
      RotateWellFormed(View(), config, now);
      EndInRange(views[n], config);
      var z := Retire();
      var seg := FreshSegment(z.next, config, now);
      RestingPush(sealed, views, z, SealedSeg(views[n], config), FreshSeg(z.next, config, now), config);
      sealed, active, activeCreatedAt, messagesSinceFlush := sealed + [z], seg, now, 0;
      views := views[..n] + [SealedSeg(views[n], config), FreshSeg(z.next, config, now)];
      Repr := Repr + {seg} + seg.Repr;
    }

    /** shouldRotateLocked. */
    method ShouldRotateLocked(now: int) returns (due: bool)
      requires Valid() && !closed
      ensures due == RotationDue(View(), config, now)
    {
      hide WellFormed, LogSpec.Live, EntriesOf, SegOk, Resting, Size;
      LastOk(views, config);
      LinkedFacts(active, views[|sealed|], config);
      var full := active.IsFull();
      if full {
        return true;
      }
      if config.segmentMs > 0 && active.NextOffset > active.BaseOffset {
        return now - activeCreatedAt >= config.segmentMs;
      }
      due := false;
    }

    /** maybeRotateLocked. */
    method MaybeRotateLocked(now: int)
      requires Valid() && !closed
      modifies Repr
      ensures Valid() && !closed && fresh(Repr - old(Repr))
      ensures View() == MaybeRotate(old(View()), config, now) && (old(Flushed()) ==> Flushed())
    {
      hide WellFormed, Linked, Resting, Rotate, RotationDue;
      var due := ShouldRotateLocked(now);
      if due {
        RotateLocked(now);
        NothingBut(active.disk);
      }
    }

    /** A live segment with index room takes the record or refuses it. */
    static method AppendLinked(s: Segment, rec: Record, c: Config, ghost v: Seg) returns (r: AppendResult)
      requires Usable(c) && Linked(s, v, c) && SegOk(v, c) && LogSpec.Live(v, c) && MIN_INT64 <= v.next < MAX_INT64
      requires 8 * |EntriesOf(v, c)| + 8 <= v.indexMax
      modifies s.Repr
      ensures s.Repr == old(s.Repr) && old(s.disk) <= s.disk
      ensures match Refused(v, Some(rec))
              case Some(e) => r == Rejected(e) && Linked(s, v, c)
              case None => r == Appended(v.next) && Linked(s, AppendToSeg(v, rec, c), c)
    {
      hide SegOk, LogSpec.Live, Book, Size, Wires, Encodable, EntriesIn;
      LinkedFacts(s, v, c);
      r := s.Append(Some(rec));
    }

    /** Hand a record to the active segment, which has room for it. */
    method AppendActive(rec: Record) returns (r: AppendResult)
      requires Valid() && !closed && views[|sealed|].next < MAX_INT64
      requires 8 * |EntriesOf(views[|sealed|], config)| + 8 <= views[|sealed|].indexMax
      modifies active.Repr, this`views
      ensures Valid() && active == old(active) && active.Repr == old(active.Repr) && old(active.disk) <= active.disk
      ensures active.recs == views[|sealed|].recs && old(active.recs) == old(views[|sealed|]).recs
      ensures var v := old(views[|sealed|]);
              match Refused(v, Some(rec))
              case Some(e) => r == Rejected(e) && views == old(views)
              case None => r == Appended(v.next) && MIN_INT64 <= v.next
                           && views == old(views[..|sealed|]) + [AppendToSeg(v, rec, config)]
    {
      hide WellFormed, Linked, Resting, EntriesOf, SegOk, LogSpec.Live, Encodable, Size, AppendToSeg;
      ghost var v := views[|sealed|];
      LastOk(views, config);
      LiveNext(v, config);
      LinkedFacts(active, v, config);
      r := AppendLinked(active, rec, config, v);
      if r.Appended? {
        ReplaceLast(views, rec, config);
        RestingReplace(sealed, views, AppendToSeg(v, rec, config), config);
        views := views[..|sealed|] + [AppendToSeg(v, rec, config)];
      }
      LastOk(views, config);
      LinkedFacts(active, views[|sealed|], config);
    }

    /** What Append and AppendBatch do with each record: rotate, append, flush every so many. */
    method AppendLocked(rec: Record, now: int) returns (r: AppendResult)
      requires Valid() && !closed && Abs(views).Leo() < MAX_INT64
      modifies Repr
      ensures Valid() && !closed && fresh(Repr - old(Repr))
      ensures Outcome(View(), r) == AppendOne(old(View()), Some(rec), config, now)
      ensures old(Flushed()) ==> Flushed()
    {
      hide WellFormed, Linked, Resting, RotationDue, Rotate, Full, Abs, EntriesOf, Refused;
      RoomAfterRotation(View(), config, now);
      MaybeRotateLocked(now);
      ghost var flushed, recs, disk := Flushed(), active.recs, active.disk;
      r := AppendActive(rec);
      if r.Appended? {
        if flushed && config.flushMessages > 0 {
          OneMoreBut(recs, disk, active.recs[|recs|], active.disk, messagesSinceFlush);
        }
        CountFlush();
      }
    }

    /** The automatic flush: it changes nothing a reader or writer could tell, but what a crash can. */
    method CountFlush()
      requires Valid() && !closed
      modifies active.Repr, this`messagesSinceFlush
      ensures Valid() && !closed
      ensures (config.flushMessages > 0 ==> old(messagesSinceFlush < config.flushMessages && OnDiskBut(active.recs, active.disk, messagesSinceFlush + 1))) ==> Flushed()
    {
      hide WellFormed, Resting, Book, Wires, Size, EntriesIn;
      if config.flushMessages > 0 {
        messagesSinceFlush := messagesSinceFlush + 1;
        if messagesSinceFlush >= config.flushMessages {
          FlushActive();
          messagesSinceFlush := 0;
        }
      }
    }

    /** FlushWriter on the active segment. */
    method FlushActive()
      requires Valid() && !closed
      modifies active.Repr
      ensures Valid() && !closed && active.buf == [] && active.recs == old(active.recs)
      ensures OnDiskBut(active.recs, active.disk, 0) && (old(Flushed()) ==> Flushed())
    {
      hide WellFormed, Resting, Book, Wires, Size, EntriesIn;
      active.FlushWriter();
      assert active.disk + [] == active.disk;
      active.Soundness();
      assert active.recs[..|active.recs|] == active.recs;
      if 0 <= messagesSinceFlush <= |active.recs| {
        SizeMonotone(active.recs, |active.recs| - messagesSinceFlush, |active.recs|);
      }
    }

    method Append(rec: Option<Record>, now: int) returns (r: Result)
      requires Valid() && (!closed ==> Abs(views).Leo() < MAX_INT64)
      modifies Repr
      ensures Valid() && closed == old(closed) && fresh(Repr - old(Repr))
      ensures if closed then r == Err(LogClosed)
              else var o := AppendOne(old(View()), rec, config, now);
                   View() == o.st && r == (if o.result.Appended? then Offset(o.result.offset) else Err(Refusal(o.result.error)))
      ensures old(Flushed()) ==> Flushed()
    {
      hide WellFormed, Linked, Resting, AppendOne;
      if closed {
        return Err(LogClosed);
      }
      if rec.None? {
        NilIsRefused(View(), config, now);
        return Err(Refusal(NilRecord));
      }
      var a := AppendLocked(rec.value, now);
      r := if a.Appended? then Offset(a.offset) else Err(Refusal(a.error));
    }

    /** AppendBatch. `first` is what it returns as the base offset, next to the error if any. */
    method AppendBatch(recs: seq<Option<Record>>, nows: seq<int>) returns (first: int, err: Option<LogError>)
      requires Valid() && |nows| == |recs| && (!closed ==> Abs(views).Leo() + |recs| <= MAX_INT64)
      modifies Repr
      ensures Valid() && closed == old(closed) && fresh(Repr - old(Repr))
      ensures closed ==> err == Some(LogClosed) && View() == old(View())
      ensures !closed && recs == [] ==> err == Some(EmptyBatch) && View() == old(View())
      ensures !closed && recs != [] ==>
                var o := AppendAll(old(View()), recs, nows, config);
                && View() == o.st
                && err == (if o.error.Some? then Some(Refusal(o.error.value)) else None)
                && first == (if o.appended > 0 then old(Abs(views).Leo()) else 0)
      ensures old(Flushed()) ==> Flushed()
    {
      hide WellFormed, Linked, Resting, AppendOne, Abs;
      first := 0;
      if closed {
        return 0, Some(LogClosed);
      }
      if recs == [] {
        return 0, Some(EmptyBatch);
      }
      var i := 0;
      assert recs[0..] == recs && nows[0..] == nows;
      while i < |recs|
        invariant 0 <= i <= |recs|
        invariant Valid() && !closed && fresh(Repr - old(Repr)) && (old(Flushed()) ==> Flushed())
        invariant Abs(views).Leo() == old(Abs(views).Leo()) + i
        invariant AppendAll(old(View()), recs, nows, config)
                  == After(i, AppendAll(View(), recs[i..], nows[i..], config))
        invariant first == if i > 0 then old(Abs(views).Leo()) else 0
      {
        AppendRefines(View(), recs[i], config, nows[i]);
        BatchStep(View(), recs, nows, i, config);
        if recs[i].None? {
          NilIsRefused(View(), config, nows[i]);
          return first, Some(Refusal(NilRecord));
        }
        var a := AppendLocked(recs[i].value, nows[i]);
        if a.Rejected? {
          return first, Some(Refusal(a.error));
        }
        if i == 0 {
          first := a.offset;
        }
        i := i + 1;
      }
      err := None;
    }

    function BaseAt(i: nat): int
      requires i < |sealed| || active != null
      reads this, active
    {
      if i < |sealed| then sealed[i].base else active.BaseOffset
    }

    lemma {:induction false} BaseOfView(i: nat)
      requires Valid() && !closed && i <= |sealed|
      ensures BaseAt(i) == views[i].base
    {
      hide WellFormed, Book, Size, Wires, EntriesOf, EntriesIn;
    }

    /** LowestOffset and HighestOffset: where the stored records start and end. */
    method Bounds() returns (lowest: int, highest: int)
      requires Valid()
      ensures if closed then lowest == 0 && highest == 0 else lowest == Abs(views).start && highest == Abs(views).Leo()
    {
      hide WellFormed, Resting, Linked, SegOk, Concat;
      if closed {
        return 0, 0;
      }
      BaseOfView(0);
      LastOk(views, config);
      LinkedFacts(active, views[|sealed|], config);
      LeoIsActiveNext(views, config);
      lowest, highest := BaseAt(0), active.NextOffset;
    }

    /** findSegmentLocked: sort.Search for the first base above the offset, then one back. */
    method FindSegment(offset: int) returns (found: nat)
      requires Valid() && !closed && views[0].base <= offset
      ensures Covers(views, found, offset)
    {
      hide WellFormed, Resting, Linked;
      var lo, hi := 0, |sealed| + 1;
      BaseOfView(0);
      while lo < hi
        invariant 0 <= lo <= hi <= |sealed| + 1
        invariant lo > 0 ==> views[lo - 1].base <= offset
        invariant hi <= |sealed| ==> offset < views[hi].base
      {
        var mid := (lo + hi) / 2;
        BaseOfView(mid);
        if BaseAt(mid) > offset {
          hi := mid;
        } else {
          lo := mid + 1;
        }
      }
      found := lo - 1;
    }

    /** Read: exactly a lookup in the stored records. */
    method Read(offset: int) returns (r: ReadResult)
      requires Valid()
      modifies Repr
      ensures Valid() && View() == old(View()) && closed == old(closed) && Repr == old(Repr) && (old(Flushed()) ==> Flushed())
      ensures r == if closed then Unavailable else Lookup(Abs(views), offset)
    {
      hide WellFormed, Resting, Linked, Lookup, Rests, ReadIndexed, EntriesIn, SegOk, Abs;
      if closed {
        return Unavailable;
      }
      BaseOfView(0);
      if offset < BaseAt(0) {
        BelowStart(views, offset, config);
        return OutOfRange;
      }
      var i := FindSegment(offset);
      ReadRefines(views, i, offset, config);
      OkAt(views, i, config);
      if i == |sealed| {
        r := ReadActive(offset);
      } else {
        var z := sealed[i];
        assert Rests(z, views[i], config) by { RestingAt(sealed, views, i, config); }
        SealedReads(z, views[i], config, offset);
        r := ReadIndexed(z.log, EntriesIn(z.index, |z.index| / 8), z.base, offset);
      }
    }

    method ReadActive(offset: int) returns (r: ReadResult)
      requires Valid() && !closed && views[|sealed|].base <= offset
      modifies active.Repr
      ensures Valid() && !closed && (old(Flushed()) ==> Flushed())
      ensures var v := views[|sealed|];
              r == if offset < End(v) then Ok(v.recs[offset - v.base]) else NotFound
    {
      hide WellFormed, Resting, Book, Wires, Size, EntriesIn, WholeRecords;
      FlushActive();
      var v := active;
      assert v.disk + [] == v.disk;
      v.Soundness();
      WholeFile(v.recs);
      r := v.Read(offset);
    }

    method ReadActiveFrom(offset: int, maxBytes: int32) returns (r: RangeResult)
      requires Valid() && !closed && views[|sealed|].base <= offset
      modifies active.Repr
      ensures Valid() && !closed && (old(Flushed()) ==> Flushed())
      ensures r == Range(Taken(views[|sealed|], offset, maxBytes), None)
    {
      hide WellFormed, Resting, Book, Wires, Size, EntriesIn, WholeRecords, TakeRun, OnDiskFrom, From;
      FlushActive();
      var v := active;
      assert v.disk + [] == v.disk;
      v.Soundness();
      AllOnDisk(views[|sealed|], offset);
      r := v.ReadFrom(offset, maxBytes);
    }

    /** What segment i gives a range read, and the offset the read goes on from. */
    method ReadSegmentFrom(i: nat, offset: int, maxBytes: int32) returns (r: RangeResult, next: int)
      requires Valid() && !closed && i <= |sealed| && views[i].base <= offset
      modifies active.Repr
      ensures Valid() && !closed && (old(Flushed()) ==> Flushed())
      ensures r == Range(Taken(views[i], offset, maxBytes), None) && next == views[i].next
    {
      hide WellFormed, Resting, Linked, Taken, RangeIndexed, EntriesIn, SegOk;
      OkAt(views, i, config);
      if i == |sealed| {
        LinkedFacts(active, views[i], config);
        next := active.NextOffset;
        r := ReadActiveFrom(offset, maxBytes);
      } else {
        var z := sealed[i];
        RestingAt(sealed, views, i, config);
        SealedRanges(z, views[i], config, offset, maxBytes);
        next := z.next;
        r := RangeIndexed(z.log, EntriesIn(z.index, |z.index| / 8), z.base, offset, maxBytes);
      }
    }

    /** ReadFrom: a range read over all the segments. */
    method ReadFrom(from: int, maxBytes: int32) returns (r: RangeResult)
      requires Valid()
      modifies Repr
      ensures Valid() && View() == old(View()) && closed == old(closed) && Repr == old(Repr) && (old(Flushed()) ==> Flushed())
      ensures r == if closed then Range([], Some(Unavailable)) else ReadLog(views, from, maxBytes)
    {
      hide WellFormed, Resting, Linked, Taken, Rests, Wrap32, Accumulate, ReadRange, OnDiskBut;
      if closed {
        return Range([], Some(Unavailable));
      }
      if maxBytes <= 0 {
        return Range([], None);
      }
      BaseOfView(0);
      if from < BaseAt(0) {
        return Range([], Some(OutOfRange));
      }
      var out: seq<Record> := [];
      var accumulated: int32 := 0;
      var offset, i := from, 0;
      assert out + ReadRange(views, 0, from, maxBytes, 0) == ReadRange(views, 0, from, maxBytes, 0);
      while i <= |sealed|
        invariant 0 <= i <= |sealed| + 1
        invariant Valid() && !closed && View() == old(View()) && Repr == old(Repr) && active == old(active)
        invariant old(Flushed()) ==> Flushed()
        invariant ReadRange(views, 0, from, maxBytes, 0) == out + ReadRange(views, i, offset, maxBytes, accumulated)
      {
        RangeTurn(views, i, offset, maxBytes, accumulated);
        BaseOfView(i);
        if i < |sealed| {
          BaseOfView(i + 1);
        }
        if i < |sealed| && BaseAt(i + 1) >= 0 && offset >= BaseAt(i + 1) {
          i := i + 1;
          continue;
        }
        if offset < BaseAt(i) {
          assert out + [] == out;
          return Range(out, None);
        }
        var part, next := ReadSegmentFrom(i, offset, Wrap32(maxBytes - accumulated));
        accumulated := Accumulated(part.recs, accumulated);
        ghost var rest := ReadRange(views, i + 1, next, maxBytes, accumulated);
        assert out + (part.recs + rest) == (out + part.recs) + rest;
        out := out + part.recs;
        if accumulated >= maxBytes || next <= offset {
          return Range(out, None);
        }
        offset, i := next, i + 1;
      }
      RangeEnd(views, i, offset, maxBytes, accumulated);
      assert out + [] == out;
      r := Range(out, None);
    }

    /** The inner loop: add up the encoded sizes in int32. */
    static method Accumulated(recs: seq<Record>, from: int32) returns (acc: int32)
      ensures acc == Accumulate(recs, from)
    {
      hide Wrap32, EncodedSize;
      acc := from;
      assert recs[0..] == recs;
      for i := 0 to |recs|
        invariant Accumulate(recs, from) == Accumulate(recs[i..], acc)
      {
        assert recs[i..][1..] == recs[i + 1..];
        acc := Wrap32(acc + Wrap32(EncodedSize(recs[i])));
      }
    }

    /** rebuildSegment on the active segment: records at or above the stop are gone. */
    method RebuildActive(stop: int)
      requires Valid() && !closed
      modifies this, active
      ensures Valid() && !closed && fresh(Repr - old(Repr))
      ensures sealed == old(sealed) && activeCreatedAt == old(activeCreatedAt) && active.buf == []
      ensures views == old(views[..|sealed|]) + [RebuildSeg(old(views[|sealed|]), stop, config)]
    {
      hide WellFormed, Resting, Book, Wires, Size, EntriesIn, SegOk;
      ghost var n := |sealed|;
      ghost var v := views[n];
      LastOk(views, config);
      LinkedFacts(active, v, config);
      RebuildFits(v, stop, config);
      assert Wires(v.recs) + [] == Wires(v.recs);
      DecodeNothing();
      active.RebuildRecords(stop, v.recs, []);
      RebuildLast(views, stop, config);
      RestingReplace(sealed, views, RebuildSeg(v, stop, config), config);
      views := views[..n] + [RebuildSeg(v, stop, config)];
      Repr := Repr + active.Repr;
    }

    /** The sealed segments that start below the truncation point. */
    method KeepBelow(k: int) returns (kept: seq<Sealed>)
      requires Valid() && !closed
      ensures |kept| <= |sealed| && kept == sealed[..|kept|]
      ensures views[|sealed|].base >= k ==> |kept| == |LogMaintenance.Below(views, k)|
      ensures views[|sealed|].base < k ==> |LogMaintenance.Below(views, k)| == |sealed| + 1
    {
      hide WellFormed, Linked, LogMaintenance.Below, Rests;
      kept := [];
      BelowStart0(views, k);
      for i := 0 to |sealed|
        invariant |kept| <= i && kept == sealed[..|kept|]
        invariant |kept| == |LogMaintenance.Below(views[..i], k)|
      {
        BelowStep(views, i, k, config);
        RestingAt(sealed, views, i, config);
        BaseOfView(i);
        if sealed[i].base < k {
          kept := kept + [sealed[i]];
        }
      }
      BelowStep(views, |sealed|, k, config);
      assert views[..|sealed| + 1] == views;
    }

    method Truncate(k: int64, now: int) returns (err: Option<LogError>)
      requires Valid()
      modifies Repr
      ensures Valid() && closed == old(closed) && fresh(Repr - old(Repr))
      ensures err == if closed then Some(LogClosed) else None
      ensures !closed ==> View() == LogMaintenance.Truncate(old(View()), k, config, now) && Flushed()
    {
      hide WellFormed, Resting, Linked, Rests, RebuildSeg, LogMaintenance.Truncate, OnDiskBut, FreshSeg;
      if closed {
        return Some(LogClosed);
      }
      err := None;
      ghost var before := View();
      var kept := KeepBelow(k);
      TruncateShape(before, k, config, now);
      BaseOfView(|sealed|);
      if active.BaseOffset < k {
        RebuildActive(k);
        LinkedEmpty(active, views[|sealed|], config);
        activeCreatedAt, messagesSinceFlush := now, 0;
      } else if kept == [] {
        var seg := FreshSegment(k, config, now);
        RestingNone(FreshSeg(k, config, now), config);
        Install([], seg, [FreshSeg(k, config, now)], now);
      } else {
        var m := |kept| - 1;
        OkAt(views, m, config);
        RestingAt(sealed, views, m, config);
        var seg := Revive(kept[m], views[m], k, config);
        RestingTake(sealed, views, m, RebuildSeg(views[m], k, config), config);
        Install(sealed[..m], seg, views[..m] + [RebuildSeg(views[m], k, config)], now);
      }
    }

    /** Make a segment the active one. */
    method Install(rest: seq<Sealed>, seg: Segment, ghost vs: seq<Seg>, now: int)
      requires this in Repr && !closed && Usable(config)
      requires Resting(rest, vs, config) && |vs| == |rest| + 1 && WellFormed(vs, config)
      requires seg in seg.Repr && this !in seg.Repr && Linked(seg, vs[|rest|], config) && seg.buf == []
      modifies this
      ensures Valid() && !closed && Repr == old(Repr) + seg.Repr && View() == LogState(vs, now) && Flushed()
    {
      hide Resting, WellFormed, Linked;
      LinkedEmpty(seg, vs[|rest|], config);
      sealed, active, views, Repr := rest, seg, vs, Repr + seg.Repr;
      activeCreatedAt, messagesSinceFlush := now, 0;
    }

    /** The last segment kept by a truncation takes records again, once rebuilt. */
    static method Revive(z: Sealed, ghost v: Seg, stop: int, c: Config) returns (s: Segment)
      requires Rests(z, v, c) && SegOk(v, c) && Usable(c)
      ensures fresh(s) && fresh(s.Repr) && s in s.Repr
      ensures Linked(s, RebuildSeg(v, stop, c), c) && s.buf == []
    {
      hide Book, Wires, Size, EntriesIn, RecoveredEntries, Decode;
      var ix := Index.NewIndex(z.index, z.indexMax);
      s := new Segment.Open(z.base, z.log, ix.value, c.segmentBytes, c.indexIntervalBytes, z.created);
      RebuildFits(v, stop, c);
      assert Wires(v.recs) + [] == Wires(v.recs);
      DecodeNothing();
      s.RebuildRecords(stop, v.recs, []);
    }

    /** runRetention. It does to the segments what Retain says; the log stays well-formed when
        creation times are in order. */
    method RunRetention(now: int)
      requires Valid()
      modifies this`sealed, this`views
      ensures closed ==> Valid() && sealed == old(sealed)
      ensures !closed ==> View() == Retain(old(View()), config, now)
                          && Resting(sealed, views, config) && Linked(active, views[|sealed|], config)
      ensures !closed && old(CreatedInOrder(views)) ==> Valid()
    {
      hide WellFormed, Resting, Linked, CreatedInOrder, Unexpired, DropToFit, TotalSize, Size;
      if closed || |sealed| == 0 {
        return;
      }
      ghost var v := views[|sealed|];
      LinkedSize(active, v, config);
      assert views[..|sealed|] + [v] == views;
      var kept, vs := KeepUnexpired(sealed, views[..|sealed|], v, config, now);
      if config.retentionBytes > 0 {
        kept, vs := KeepFitting(kept, vs, v, active.bytesWritten, config);
      }
      if CreatedInOrder(views) {
        RetainKeeps(View(), config, now);
      }
      sealed, views := kept, vs + [v];
      assert (vs + [v])[|sealed|] == v;
    }

    static method KeepUnexpired(all: seq<Sealed>, ghost vs: seq<Seg>, ghost v: Seg, c: Config, now: int)
      returns (kept: seq<Sealed>, ghost ws: seq<Seg>)
      requires |vs| == |all| && Resting(all, vs + [v], c)
      ensures ws == Unexpired(vs, c, now) && Resting(kept, ws + [v], c) && |kept| == |ws|
    {
      hide Rests;
      kept, ws := [], [];
      for i := 0 to |all|
        invariant ws == Unexpired(vs[..i], c, now) && |kept| == |ws|
        invariant forall j :: 0 <= j < |kept| ==> Rests(kept[j], ws[j], c)
      {
        assert vs[..i + 1][..i] == vs[..i];
        assert Rests(all[i], (vs + [v])[i], c);
        RestsCreated(all[i], vs[i], c);
        if !(c.retentionMs > 0 && now - all[i].created >= c.retentionMs) {
          kept, ws := kept + [all[i]], ws + [vs[i]];
        }
      }
      assert vs[..|all|] == vs;
    }

    /** Byte-based retention: oldest first until the total fits. */
    static method KeepFitting(all: seq<Sealed>, ghost vs: seq<Seg>, ghost v: Seg, activeSize: nat, c: Config)
      returns (kept: seq<Sealed>, ghost ws: seq<Seg>)
      requires |vs| == |all| && Resting(all, vs + [v], c) && activeSize == Size(v.recs)
      ensures ws + [v] == DropToFit(vs + [v], c.retentionBytes) && Resting(kept, ws + [v], c) && |kept| == |ws|
    {
      hide Rests, Size;
      var total := SumSizes(all, vs, v, activeSize, c);
      kept, ws := all, vs;
      while total > c.retentionBytes && |kept| > 0
        invariant |ws| == |kept| && Resting(kept, ws + [v], c) && total == TotalSize(ws + [v])
        invariant DropToFit(vs + [v], c.retentionBytes) == DropToFit(ws + [v], c.retentionBytes)
        decreases |kept|
      {
        RestsSize(kept[0], (ws + [v])[0], c);
        assert (ws + [v])[1..] == ws[1..] + [v];
        RestingTail(kept, ws + [v], c);
        total := total - |kept[0].log|;
        kept, ws := kept[1..], ws[1..];
      }
    }

    /** totalSizeLocked. */
    static method SumSizes(all: seq<Sealed>, ghost vs: seq<Seg>, ghost v: Seg, activeSize: nat, c: Config)
      returns (total: nat)
      requires |vs| == |all| && Resting(all, vs + [v], c) && activeSize == Size(v.recs)
      ensures total == TotalSize(vs + [v])
    {
      hide Rests, Size;
      total := 0;
      for i := 0 to |all|
        invariant total + TotalSize((vs + [v])[i..]) == TotalSize(vs + [v])
      {
        RestingAt(all, vs + [v], i, c);
        RestsSize(all[i], (vs + [v])[i], c);
        assert (vs + [v])[i..][1..] == (vs + [v])[i + 1..];
        total := total + |all[i].log|;
      }
      assert (vs + [v])[|all|..] == [v] && [v][1..] == [];
      total := total + activeSize;
    }

    /** Close flushes and closes every segment: the files hold every record. */
    method Close() returns (files: seq<SegmentFile>)
      requires Valid()
      modifies Repr
      ensures Valid() && closed
      ensures old(closed) ==> files == []
      ensures !old(closed) ==>
                var n := old(|sealed|);
                && |files| == n + 1
                && (forall i :: 0 <= i < n + 1 ==> OnFile(files[i], old(views[i]), config))
    {
      hide WellFormed, Resting, OnFile, Book, Wires, Size, EntriesIn;
      if closed {
        return [];
      }
      FlushActive();
      files := FilesOf(sealed, views, config);
      var z := Rest(active, views[|sealed|], config);
      RestsOnFile(z, views[|sealed|], config);
      files := files + [SegmentFile(z.base, z.log, z.index, z.created)];
      closed, sealed, active := true, [], null;
    }

    static method FilesOf(all: seq<Sealed>, ghost vs: seq<Seg>, c: Config) returns (files: seq<SegmentFile>)
      requires Resting(all, vs, c)
      ensures |files| == |all| && forall j :: 0 <= j < |all| ==> OnFile(files[j], vs[j], c)
    {
      hide OnFile, Rests;
      files := [];
      for i := 0 to |all|
        invariant |files| == i && forall j :: 0 <= j < i ==> OnFile(files[j], vs[j], c)
      {
        RestsOnFile(all[i], vs[i], c);
        files := files + [SegmentFile(all[i].base, all[i].log, all[i].index, all[i].created)];
      }
    }

    constructor (cfg: Config, rest: seq<Sealed>, seg: Segment, ghost vs: seq<Seg>, now: int)
      requires Usable(cfg) && Resting(rest, vs, cfg) && |vs| == |rest| + 1 && WellFormed(vs, cfg)
      requires seg in seg.Repr && Linked(seg, vs[|rest|], cfg) && seg.buf == []
      ensures Valid() && !closed && View() == LogState(vs, now) && config == cfg && Repr == {this} + seg.Repr && Flushed()
    {
      hide WellFormed, Resting, Linked;
      LinkedEmpty(seg, vs[|rest|], cfg);
      config, sealed, active, activeCreatedAt, messagesSinceFlush, closed := cfg, rest, seg, now, 0, false;
      views, Repr := vs, {this} + seg.Repr;
    }

    /** NewLog over the segment files of a directory, in ascending order of base. It fails only for
        an index size below one entry; otherwise it is the log that was closed, or what a crash
        left of it. */
    static method NewLog(files: seq<SegmentFile>, cfg: Config, now: int,
                         ghost st: LogState, ghost w: nat, ghost tail: seq<byte>) returns (r: Option<Log>)
      requires files == [] || Left(files, st.segs, w, tail, WithDefaults(cfg))
      ensures r.None? <==> 0 < cfg.indexMaxBytes < 8
      ensures r.Some? ==>
                var l := r.value;
                var c := WithDefaults(cfg);
                && fresh(l) && fresh(l.Repr) && l.Valid() && !l.closed && l.Flushed() && l.config == c && Usable(c)
                && l.View() == if files == [] then LogState([FreshSeg(0, c, now)], now)
                               else Reopen(st, w, Times(files), c, now)
    {
      hide WellFormed, Resting, Linked, SegOk, Rests, Reopen, Left, Log.Valid;
      var c := WithDefaults(cfg);
      if c.indexMaxBytes < 8 {
        return None;
      }
      var l: Log;
      if files == [] {
        var seg := FreshSegment(0, c, now);
        FreshOk(0, c, now);
        RestingNone(FreshSeg(0, c, now), c);
        l := new Log(c, [], seg, [FreshSeg(0, c, now)], now);
      } else {
        l := OpenExisting(files, c, now, st, w, tail);
      }
      r := Some(l);
    }

    static method OpenExisting(files: seq<SegmentFile>, c: Config, now: int,
                               ghost st: LogState, ghost w: nat, ghost tail: seq<byte>) returns (l: Log)
      requires Usable(c) && files != [] && Left(files, st.segs, w, tail, c)
      ensures fresh(l) && fresh(l.Repr) && l.Valid() && !l.closed && l.Flushed() && l.config == c
      ensures l.View() == Reopen(st, w, Times(files), c, now)
    {
      hide WellFormed, Resting, Linked, SegOk, OnFile, Reopen, Log.Valid, Wires, Decode, Left, RecoverActive;
      LeftLast(files, st.segs, w, tail, c);
      ghost var re := Reopen(st, w, Times(files), c, now);
      ReopenRefines(st, w, Times(files), c, now);
      ReopenLast(st, w, Times(files), c, now);
      var rest := ReopenSegments(files, c, st, w, tail, now);
      var seg := RecoverSegment(files[|files| - 1], c, st.segs[|files| - 1], w, tail);
      l := new Log(c, rest, seg, re.segs, now);
    }

    /** Reopen every file but the last. */
    static method ReopenSegments(files: seq<SegmentFile>, c: Config,
                                 ghost st: LogState, ghost w: nat, ghost tail: seq<byte>, ghost now: int)
      returns (rest: seq<Sealed>)
      requires Usable(c) && files != [] && Left(files, st.segs, w, tail, c)
      ensures |rest| == |files| - 1 && Resting(rest, Reopen(st, w, Times(files), c, now).segs, c)
    {
      hide WellFormed, SegOk, OnFile, Rests, Reopen, Left, Wires, Decode, ReopenSealed;
      LeftLast(files, st.segs, w, tail, c);
      ghost var re := Reopen(st, w, Times(files), c, now).segs;
      assert |re| == |files| by { ReopenRefines(st, w, Times(files), c, now); ReopenLast(st, w, Times(files), c, now); }
      rest := [];
      for i := 0 to |files| - 1
        invariant |rest| == i
        invariant forall j :: 0 <= j < i ==> Rests(rest[j], re[j], c)
      {
        LeftAt(files, st.segs, w, tail, c, i);
        var z := ReopenSegment(files[i], c, st.segs[i]);
        ReopenAt(st, w, Times(files), c, now, i);
        rest := rest + [z];
      }
    }

    /** NewSegment over the files of a sealed segment. */
    static method ReopenSegment(f: SegmentFile, c: Config, ghost v: Seg) returns (z: Sealed)
      requires Usable(c) && OnFile(f, v, c) && SegOk(v, c) && v.recs != []
      ensures Rests(z, ReopenSealed(v, f.modified, c), c)
    {
      hide Book, Wires, Size, EntriesIn, RecoveredEntries;
      var ix := Index.NewIndex(f.index, c.indexMaxBytes);
      RecoverIndex(f, v, c);
      var index := ix.value.Close();
      z := Sealed(f.base, f.log, index, f.base, 0, ix.value.maxSize, f.modified);
    }

    /** NewSegment and rebuildSegment over the files of the last segment. */
    static method RecoverSegment(f: SegmentFile, c: Config, ghost v: Seg, ghost w: nat, ghost tail: seq<byte>)
      returns (s: Segment)
      requires Usable(c) && SegOk(v, c) && w <= |v.recs| && f.base == v.base
      requires f.log == Wires(v.recs[..w]) + tail && Decode(tail).Failed?
      ensures fresh(s) && fresh(s.Repr) && s in s.Repr && Linked(s, RecoverActive(v, w, f.modified, c), c) && s.buf == []
    {
      hide Book, Wires, Size, EntriesIn, RecoveredEntries, Decode;
      var ix := Index.NewIndex(f.index, c.indexMaxBytes);
      s := new Segment.Open(f.base, f.log, ix.value, c.segmentBytes, c.indexIntervalBytes, f.modified);
      RecoverFits(v, w, f.modified, c);
      assert v.recs[..w][..w] == v.recs[..w];
      s.RebuildRecords(-1, v.recs[..w], tail);
    }
  }

  /** The two files of a segment, and the log file's modification time. */
  datatype SegmentFile = SegmentFile(base: int64, log: seq<byte>, index: seq<byte>, modified: int)

  /** The files hold the segment: its encoded records, and its entries in front of nothing but zeros. */
  ghost predicate OnFile(f: SegmentFile, v: Seg, c: Config) {
    f.base == v.base && f.log == Wires(v.recs) && Holds(f.index, EntriesOf(v, c))
  }

  function Times(files: seq<SegmentFile>): (ts: seq<int>)
    ensures |ts| == |files| && forall i :: 0 <= i < |files| ==> ts[i] == files[i].modified
  {
    seq(|files|, i requires 0 <= i < |files| => files[i].modified)
  }

  /** What a log leaves behind: whole files, except that the last log file holds only its first w
      records followed by bytes that do not decode. */
  ghost predicate Left(files: seq<SegmentFile>, segs: seq<Seg>, w: nat, tail: seq<byte>, c: Config) {
    && WellFormed(segs, c) && |files| == |segs|
    && (forall i :: 0 <= i < |segs| - 1 ==> OnFile(files[i], segs[i], c))
    && var last := segs[|segs| - 1];
       var f := files[|segs| - 1];
       w <= |last.recs| && f.base == last.base && f.log == Wires(last.recs[..w]) + tail && Decode(tail).Failed?
  }

  lemma {:induction false} LeftLast(files: seq<SegmentFile>, segs: seq<Seg>, w: nat, tail: seq<byte>, c: Config)
    requires Left(files, segs, w, tail, c)
    ensures WellFormed(segs, c) && |files| == |segs| > 0
    ensures var f, last := files[|files| - 1], segs[|segs| - 1];
            SegOk(last, c) && w <= |last.recs| && f.base == last.base && f.log == Wires(last.recs[..w]) + tail && Decode(tail).Failed?
  {
    hide SegOk, OnFile, Wires, Decode, LogSpec.Live;
  }

  lemma {:induction false} LeftAt(files: seq<SegmentFile>, segs: seq<Seg>, w: nat, tail: seq<byte>, c: Config, i: nat)
    requires Left(files, segs, w, tail, c) && i < |segs| - 1
    ensures |files| == |segs| && OnFile(files[i], segs[i], c) && SegOk(segs[i], c) && segs[i].recs != []
  {
    hide SegOk, OnFile, Wires, Decode, LogSpec.Live;
  }

  ghost predicate AllOnFile(files: seq<SegmentFile>, segs: seq<Seg>, c: Config) {
    |files| == |segs| && forall i :: 0 <= i < |segs| ==> OnFile(files[i], segs[i], c)
  }

  /** The files with the last log file cut after k bytes. */
  function CutLast(files: seq<SegmentFile>, k: nat): seq<SegmentFile>
    requires files != [] && k <= |files[|files| - 1].log|
  {
    var n := |files| - 1;
    files[..n] + [files[n].(log := files[n].log[..k])]
  }

  /** A cut after k bytes leaves the records wholly before it, w of them, and all of them if there is
      nothing to cut. */
  ghost predicate LeftByCut(files: seq<SegmentFile>, segs: seq<Seg>, k: nat, w: nat, tail: seq<byte>, c: Config) {
    && |files| == |segs| > 0 && k <= |files[|files| - 1].log|
    && w == WholeRecords(segs[|segs| - 1].recs, k)
    && Left(CutLast(files, k), segs, w, tail, c)
    && (k == |files[|files| - 1].log| ==> w == |segs[|segs| - 1].recs|)
  }

  /** Closing leaves everything; cutting the last log file anywhere leaves the records wholly
      before the cut. */
  lemma {:induction false} CutLeaves(files: seq<SegmentFile>, segs: seq<Seg>, k: nat, c: Config)
    returns (w: nat, tail: seq<byte>)
    requires files != [] && k <= |files[|files| - 1].log| && AllOnFile(files, segs, c) && WellFormed(segs, c)
    ensures LeftByCut(files, segs, k, w, tail, c)
  {
    hide SegOk, LogSpec.Live, OnFile, WholeRecords, Wires, Decode;
    var n := |segs| - 1;
    OkAt(segs, n, c);
    w, tail := CutFile(files[n], segs[n], k, c);
  }

  lemma {:induction false} CutFile(f: SegmentFile, s: Seg, k: nat, c: Config) returns (w: nat, tail: seq<byte>)
    requires OnFile(f, s, c) && SegOk(s, c) && k <= |f.log|
    ensures w == WholeRecords(s.recs, k) <= |s.recs| && (k == |f.log| ==> w == |s.recs|)
    ensures f.base == s.base && f.log[..k] == Wires(s.recs[..w]) + tail && Decode(tail).Failed?
  {
    hide Size, Wires, WholeRecords, EntriesOf, Holds, Decode, LogSpec.Live;
    w := WholeRecords(s.recs, k);
    CutTail(s.recs, k);
    WholeFile(s.recs);
    tail := Wires(s.recs)[Size(s.recs[..w])..k];
  }

  lemma {:induction false} RestsOnFile(z: Sealed, v: Seg, c: Config)
    requires Rests(z, v, c)
    ensures OnFile(SegmentFile(z.base, z.log, z.index, z.created), v, c)
  {
    hide Wires, Book;
  }

  lemma {:induction false} ReopenAt(st: LogState, w: nat, created: seq<int>, c: Config, now: int, i: nat)
    requires st.segs != [] && w <= |st.segs[|st.segs| - 1].recs| && |created| == |st.segs| && i < |st.segs| - 1
    ensures Reopen(st, w, created, c, now).segs[i] == ReopenSealed(st.segs[i], created[i], c)
  {
  }

  lemma {:induction false} ReopenLast(st: LogState, w: nat, created: seq<int>, c: Config, now: int)
    requires st.segs != [] && w <= |st.segs[|st.segs| - 1].recs| && |created| == |st.segs|
    ensures var n := |st.segs| - 1;
            var re := Reopen(st, w, created, c, now);
            re.segs[n] == RecoverActive(st.segs[n], w, created[n], c) && re.activeSince == now
    ensures WellFormed(st.segs, c) ==> SegOk(st.segs[|st.segs| - 1], c)
  {
  }

  /** The index file of a sealed segment gives back its entries. */
  lemma {:induction false} RecoverIndex(f: SegmentFile, v: Seg, c: Config)
    requires Usable(c) && OnFile(f, v, c) && SegOk(v, c) && v.recs != []
    ensures RecoveredEntries(f.index, IndexCap(c)) == EntriesOf(v, c)
  {
    hide Wires, Fold, RecoveredEntries, Size;
    BookSound(v.recs, v.base, c.indexIntervalBytes);
    RecoverHeld(f.index, EntriesOf(v, c), IndexCap(c));
  }

  lemma {:induction false} RecoverFits(v: Seg, w: nat, created: int, c: Config)
    requires SegOk(v, c) && Usable(c) && w <= |v.recs|
    ensures var recs := v.recs[..w];
            && AllEncodable(recs) && Dense(recs, v.base) && v.base + |recs| <= MAX_INT64 && Addressable(recs)
            && 8 * |Book(recs, v.base, c.indexIntervalBytes).entries| <= IndexCap(c) && 8 <= IndexCap(c)
  {
    hide Size, Fold;
    RecoverActiveOk(v, w, created, c);
  }

  lemma {:induction false} LinkedSize(s: Segment, v: Seg, c: Config)
    requires Linked(s, v, c)
    ensures s.bytesWritten == Size(v.recs)
  {
    hide Book, Size, Wires;
    s.Soundness();
  }

  lemma {:induction false} RetainKeeps(st: LogState, c: Config, now: int)
    requires WellFormed(st.segs, c) && CreatedInOrder(st.segs)
    ensures WellFormed(Retain(st, c, now).segs, c)
  {
    hide SegOk, LogSpec.Live, CreatedInOrder, Retain, Concat;
    RetainRefines(st, c, now);
  }

  lemma {:induction false} RestsCreated(z: Sealed, v: Seg, c: Config)
    requires Rests(z, v, c)
    ensures z.created == v.created
  {
  }

  lemma {:induction false} RestsSize(z: Sealed, v: Seg, c: Config)
    requires Rests(z, v, c)
    ensures |z.log| == Size(v.recs)
  {
  }

  lemma {:induction false} RestingTail(sealed: seq<Sealed>, views: seq<Seg>, c: Config)
    requires Resting(sealed, views, c) && |sealed| > 0
    ensures Resting(sealed[1..], views[1..], c)
  {
    hide Rests;
  }

  /** Truncation, in terms of the number of segments that start below the point. */
  lemma {:induction false} TruncateShape(st: LogState, k: int, c: Config, now: int)
    requires WellFormed(st.segs, c) && Usable(c) && MIN_INT64 <= k <= MAX_INT64
    ensures var m := |LogMaintenance.Below(st.segs, k)|;
            && m <= |st.segs|
            && (m == 0 ==> LogMaintenance.Truncate(st, k, c, now) == LogState([FreshSeg(k, c, now)], now))
            && (m > 0 ==> LogMaintenance.Truncate(st, k, c, now)
                          == LogState(st.segs[..m - 1] + [RebuildSeg(st.segs[m - 1], k, c)], now))
            && WellFormed(LogMaintenance.Truncate(st, k, c, now).segs, c)
  {
    hide WellFormed, RebuildSeg, Abs;
    TruncateLeaves(st, k, c, now);
    BelowIsPrefix(st.segs, k, c);
  }

  lemma {:induction false} RestingNone(w: Seg, c: Config)
    ensures Resting([], [w], c)
  {
  }

  lemma {:induction false} RestingTake(sealed: seq<Sealed>, views: seq<Seg>, m: nat, w: Seg, c: Config)
    requires Resting(sealed, views, c) && m <= |sealed|
    ensures Resting(sealed[..m], views[..m] + [w], c)
  {
    hide Rests;
  }

  lemma {:induction false} BelowStart0(views: seq<Seg>, k: int)
    ensures LogMaintenance.Below(views[..0], k) == []
  {
  }

  lemma {:induction false} BelowStep(views: seq<Seg>, i: nat, k: int, c: Config)
    requires WellFormed(views, c) && i < |views|
    ensures var n := |LogMaintenance.Below(views[..i], k)|;
            |LogMaintenance.Below(views[..i + 1], k)| == (if views[i].base >= k then n else n + 1)
    ensures views[i].base < k ==> |LogMaintenance.Below(views[..i], k)| == i
  {
    hide SegOk, LogSpec.Live;
    assert views[..i + 1][..i] == views[..i];
    BelowPrefix(views, i, k, c);
    var n := |LogMaintenance.Below(views[..i], k)|;
    if n < i {
      BasesIncrease(views, n, i, c);
    }
  }

  /** What a rebuild needs to succeed holds of every segment of a log. */
  lemma {:induction false} RebuildFits(v: Seg, stop: int, c: Config)
    requires SegOk(v, c) && Usable(c)
    ensures var kept := v.recs[..KeptCount(|v.recs|, v.base, stop)];
            && Addressable(kept) && 8 <= v.indexMax
            && 8 * |Book(kept, v.base, c.indexIntervalBytes).entries| <= v.indexMax
    ensures AllEncodable(v.recs) && Dense(v.recs, v.base) && v.base + |v.recs| <= MAX_INT64
  {
    hide WellFormed, Size, Fold;
    var m := KeptCount(|v.recs|, v.base, stop);
    EntriesOfPrefix(v.recs, m, v.base, c.indexIntervalBytes);
    PrefixAddressable(v.recs, m);
  }

  lemma {:induction false} RebuildLast(segs: seq<Seg>, stop: int, c: Config)
    requires WellFormed(segs, c) && Usable(c)
    ensures WellFormed(segs[..|segs| - 1] + [RebuildSeg(segs[|segs| - 1], stop, c)], c)
  {
    hide SegOk, LogSpec.Live, Concat;
    var n := |segs| - 1;
    RebuildSegOk(segs[n], stop, c);
    Graft(segs, n, [RebuildSeg(segs[n], stop, c)], c);
  }

  lemma {:induction false} RangeEnd(segs: seq<Seg>, i: nat, offset: int, maxBytes: int32, acc: int32)
    requires i >= |segs|
    ensures ReadRange(segs, i, offset, maxBytes, acc) == []
  {
  }

  lemma {:induction false} RangeTurn(segs: seq<Seg>, i: nat, offset: int, maxBytes: int32, acc: int32)
    requires i < |segs|
    ensures ReadRange(segs, i, offset, maxBytes, acc) ==
            if Skips(segs, i, offset) then ReadRange(segs, i + 1, offset, maxBytes, acc)
            else if offset < segs[i].base then []
            else
              var taken := Taken(segs[i], offset, Wrap32(maxBytes - acc));
              var total := Accumulate(taken, acc);
              if total >= maxBytes || segs[i].next <= offset then taken
              else taken + ReadRange(segs, i + 1, segs[i].next, maxBytes, total)
  {
  }

  lemma {:induction false} BelowStart(segs: seq<Seg>, offset: int, c: Config)
    requires WellFormed(segs, c) && offset < segs[0].base
    ensures Lookup(Abs(segs), offset) == OutOfRange
  {
  }

  lemma {:induction false} OkAt(segs: seq<Seg>, i: nat, c: Config)
    requires WellFormed(segs, c) && i < |segs|
    ensures SegOk(segs[i], c)
  {
  }

  lemma {:induction false} RestingAt(sealed: seq<Sealed>, views: seq<Seg>, i: nat, c: Config)
    requires Resting(sealed, views, c) && i < |sealed|
    ensures Rests(sealed[i], views[i], c)
  {
  }

  lemma {:induction false} WholeFile(recs: seq<Record>)
    ensures WholeRecords(recs, Size(recs)) == |recs|
  {
  }

  lemma {:induction false} SealedFaithful(z: Sealed, v: Seg, c: Config)
    requires Rests(z, v, c) && SegOk(v, c) && Usable(c)
    ensures AllEncodable(v.recs) && Dense(v.recs, v.base) && Faithful(EntriesOf(v, c), v.recs) && |v.recs| <= MAX_UINT32 + 1
    ensures |z.index| % 8 == 0 && EntriesIn(z.index, |z.index| / 8) == EntriesOf(v, c)
    ensures z.base == v.base && z.log == Wires(v.recs)[..Size(v.recs)] && WholeRecords(v.recs, Size(v.recs)) == |v.recs|
  {
    hide Book, Wires, Size, WholeRecords, EntriesIn, Sound;
    BookSound(v.recs, v.base, c.indexIntervalBytes);
    SoundNonEmpty(Book(v.recs, v.base, c.indexIntervalBytes), v.recs, v.base, c.indexIntervalBytes);
    AddressableCount(v.recs);
    WholeFile(v.recs);
    assert Wires(v.recs)[..Size(v.recs)] == Wires(v.recs);
  }

  /** Reading a sealed segment through its index file. */
  lemma {:induction false} SealedReads(z: Sealed, v: Seg, c: Config, offset: int)
    requires Rests(z, v, c) && SegOk(v, c) && Usable(c) && v.base <= offset
    ensures |z.index| % 8 == 0
    ensures ReadIndexed(z.log, EntriesIn(z.index, |z.index| / 8), z.base, offset)
            == if offset < End(v) then Ok(v.recs[offset - v.base]) else NotFound
  {
    hide Rests, SegOk, Faithful, EntriesOf, Wires, Size, WholeRecords, ReadIndexed, EntriesIn, AllEncodable, Dense;
    SealedFaithful(z, v, c);
    IndexedReadIsLinear(v.recs, Size(v.recs), EntriesOf(v, c), v.base, offset);
  }

  lemma {:induction false} SealedRanges(z: Sealed, v: Seg, c: Config, offset: int, maxBytes: int32)
    requires Rests(z, v, c) && SegOk(v, c) && Usable(c) && v.base <= offset
    ensures |z.index| % 8 == 0
    ensures RangeIndexed(z.log, EntriesIn(z.index, |z.index| / 8), z.base, offset, maxBytes)
            == Range(Taken(v, offset, maxBytes), None)
  {
    hide Rests, SegOk, Faithful, EntriesOf, Wires, Size, WholeRecords, EntriesIn, AllEncodable, Dense, TakeRun;
    SealedFaithful(z, v, c);
    if maxBytes > 0 {
      IndexedRangeIsLinear(v.recs, Size(v.recs), EntriesOf(v, c), v.base, offset, maxBytes);
      AllOnDisk(v, offset);
    }
  }

  lemma {:induction false} AllOnDisk(v: Seg, offset: int)
    requires v.base <= offset
    ensures OnDiskFrom(v.recs, Size(v.recs), v.base, offset) == From(v, offset)
  {
    hide Size;
    WholeFile(v.recs);
  }

  datatype Result = Offset(offset: int) | Err(error: LogError)

  lemma {:induction false} NilIsRefused(st: LogState, c: Config, now: int)
    requires WellFormed(st.segs, c) && Usable(c)
    ensures AppendOne(st, None, c, now) == Outcome(st, Rejected(NilRecord))
  {
  }

  /** A batch's outcome when i records went in before. */
  function After(i: nat, o: BatchOutcome): BatchOutcome { o.(appended := o.appended + i) }

  lemma {:induction false} BatchStep(st: LogState, recs: seq<Option<Record>>, nows: seq<int>, i: nat, c: Config)
    requires WellFormed(st.segs, c) && Usable(c) && |nows| == |recs| && i < |recs|
    requires Abs(st.segs).Leo() + (|recs| - i) <= MAX_INT64
    ensures AppendRefined(st, recs[i], nows[i], c)
    ensures var o := AppendOne(st, recs[i], c, nows[i]);
            After(i, AppendAll(st, recs[i..], nows[i..], c)) ==
            if o.result.Rejected? then BatchOutcome(o.st, i, Some(o.result.error))
            else After(i + 1, AppendAll(o.st, recs[i + 1..], nows[i + 1..], c))
  {
    hide AppendOne, WellFormed, Abs;
    AppendRefines(st, recs[i], c, nows[i]);
    assert recs[i..][1..] == recs[i + 1..] && nows[i..][1..] == nows[i + 1..];
  }

  ghost predicate AppendRefined(st: LogState, rec: Option<Record>, now: int, c: Config)
    requires WellFormed(st.segs, c) && Usable(c)
  {
    var o := AppendOne(st, rec, c, now);
    && WellFormed(o.st.segs, c)
    && (o.result.Appended? ==> o.result.offset == Abs(st.segs).Leo() && Abs(o.st.segs).Leo() == Abs(st.segs).Leo() + 1)
  }

  lemma {:induction false} RestingReplace(sealed: seq<Sealed>, views: seq<Seg>, w: Seg, c: Config)
    requires Resting(sealed, views, c)
    ensures Resting(sealed, views[..|sealed|] + [w], c)
  {
    hide Rests;
  }

  lemma {:induction false} LiveNext(v: Seg, c: Config)
    requires SegOk(v, c) && LogSpec.Live(v, c)
    ensures MIN_INT64 <= v.next
  {
  }

  lemma {:induction false} LastOk(segs: seq<Seg>, c: Config)
    requires WellFormed(segs, c)
    ensures SegOk(segs[|segs| - 1], c) && LogSpec.Live(segs[|segs| - 1], c)
  {
  }
}
