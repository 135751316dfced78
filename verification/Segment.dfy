/** A log segment (internal/storage/segment.go) and its rebuild (internal/storage/log.go): a file
    behind a buffered writer, a sparse index, and the counters that tie them together. */
module Segments {
  import opened Bytes
  import opened Records
  import opened OffsetIndex
  import opened IndexAccounting
  import opened SegmentReads

  /** Capacity of the segment's bufio.Writer. */
  const WRITER_SIZE: int := 256 * 1024

  function Stamp(r: Record, offset: int64): Record { r.(offset := offset) }

  datatype AppendError = SegmentClosed | NilRecord | PositionOverflow | RecordTooLarge | IndexExhausted

  datatype AppendResult = Appended(offset: int) | Rejected(error: AppendError)

  // ---- Rebuilding from frames -----------------------------------------------------------------------

  /** The frames a rebuild keeps: all of them, or those before the first offset at or above a
      non-negative stop. */
  function Kept(fs: seq<Frame>, stop: int): (ks: seq<Frame>)
    ensures ks <= fs
  {
    if fs == [] || (stop >= 0 && fs[0].rec.offset >= stop) then [] else [fs[0]] + Kept(fs[1..], stop)
  }

  /** How many of a segment's records a rebuild keeps. */
  function KeptCount(count: nat, base: int, stop: int): nat {
    if stop < 0 then count else Min(Max(stop - base, 0), count)
  }

  lemma {:induction false} KeptOfDense(recs: seq<Record>, base: int, stop: int)
    requires Dense(recs, base)
    ensures Kept(FramesOf(recs), stop) == FramesOf(recs[..KeptCount(|recs|, base, stop)])
    decreases |recs|
  {
    hide EncodedSize;
    var m := KeptCount(|recs|, base, stop);
    if recs != [] && m > 0 {
      assert FramesOf(recs)[1..] == FramesOf(recs[1..]);
      KeptOfDense(recs[1..], base + 1, stop);
      assert recs[..m] == [recs[0]] + recs[1..][..m - 1];
    }
  }

  /** Recovery equals re-appending: scanning encoded records plus any bytes that do not decode
      gives the account that appending the kept records to a fresh segment gives. */
  lemma {:induction false} RebuildIsReappend(recs: seq<Record>, tail: seq<byte>, base: int, interval: int, stop: int)
    requires AllEncodable(recs) && Dense(recs, base) && Decode(tail).Failed?
    ensures var m := KeptCount(|recs|, base, stop);
            Fold(Kept(Frames(Wires(recs) + tail), stop), base, interval) == Book(recs[..m], base, interval)
  {
    hide Wires, Decode, Fold, Kept, Frames;
    FramesOfWires(recs, tail);
    KeptOfDense(recs, base, stop);
  }

  /** A file cut at any byte recovers exactly its longest whole-record prefix. */
  lemma {:induction false} RecoverCut(recs: seq<Record>, k: nat, base: int, interval: int)
    requires AllEncodable(recs) && Dense(recs, base) && k <= Size(recs)
    ensures Fold(Kept(Frames(Wires(recs)[..k]), -1), base, interval) == Book(recs[..WholeRecords(recs, k)], base, interval)
  {
    hide Wires, Decode, Fold, Kept, Frames, Size, WholeRecords;
    var whole := recs[..WholeRecords(recs, k)];
    FramesOfCut(recs, k);
    KeptOfDense(whole, base, -1);
    assert whole[..|whole|] == whole;
  }

  /** Rebuilding a rebuilt segment changes nothing. */
  lemma {:induction false} RebuildIdempotent(recs: seq<Record>, tail: seq<byte>, base: int, interval: int, stop: int)
    requires AllEncodable(recs) && Dense(recs, base) && Decode(tail).Failed?
    ensures var m := KeptCount(|recs|, base, stop);
            var file' := Wires(recs[..m]);
            && file' <= Wires(recs) + tail
            && Fold(Kept(Frames(file'), stop), base, interval) == Book(recs[..m], base, interval)
            && Fold(Kept(Frames(file'), -1), base, interval) == Book(recs[..m], base, interval)
  {
    hide Wires, Decode, Fold, Kept, Frames, Size;
    var m := KeptCount(|recs|, base, stop);
    var kept := recs[..m];
    WiresSplit(recs, m);
    DecodeNothing();
    assert Wires(kept) + [] == Wires(kept);
    RebuildIsReappend(kept, [], base, interval, stop);
    RebuildIsReappend(kept, [], base, interval, -1);
    assert kept[..m] == kept && KeptCount(|kept|, base, stop) == m;
  }

  /** The counters grow frame by frame. */
  lemma {:induction false} FoldStep(fs: seq<Frame>, f: Frame, base: int, interval: int)
    ensures Fold(fs + [f], base, interval) == Step(Fold(fs, base, interval), f, base, interval)
  {
    hide Step;
    assert (fs + [f])[..|fs|] == fs;
  }

  // ---- The segment -------------------------------------------------------------------------------------

  /** What a segment amounts to: its records and the counters readers and writers depend on. */
  datatype Seg = Seg(base: int, recs: seq<Record>, next: int, since: nat, indexMax: nat, created: int)

  class Segment {
    const BaseOffset: int64
    var NextOffset: int
    var disk: seq<byte>
    var buf: seq<byte>
    var index: Index
    const maxBytes: int
    const indexInterval: int
    var bytesWritten: nat
    var bytesSinceLastIndex: nat
    const CreatedAt: int
    var closed: bool
    ghost var recs: seq<Record>

    ghost var Repr: set<object>

    /** The file behind the writer holds exactly the records, and the index is the one appending
        them would have built. */
    ghost predicate Valid()
      reads this, Repr
    {
      && this in Repr && index in Repr && index.mmap != null && index.mmap in Repr
      && index.Valid() && indexInterval > 0
      && |buf| <= WRITER_SIZE
      && AllEncodable(recs) && Dense(recs, BaseOffset) && Addressable(recs)
      && BaseOffset + |recs| <= MAX_INT64
      && disk + buf == Wires(recs)
      && bytesWritten == |disk| + |buf|
      && index.Entries() == Book(recs, BaseOffset, indexInterval).entries
    }

    /** The write-side counters are current: true of every segment but a reopened sealed one. */
    ghost predicate Live()
      reads this
    {
      && NextOffset == BaseOffset + |recs|
      && bytesSinceLastIndex == Book(recs, BaseOffset, indexInterval).since
    }

    ghost function View(): Seg
      requires Valid()
      reads this, Repr
    {
      Seg(BaseOffset, recs, NextOffset, bytesSinceLastIndex, index.maxSize, CreatedAt)
    }

    /** NewSegment over existing file contents: the counters start from the file size, and
        NextOffset from the base, whatever the file holds. */
    constructor Open(base: int64, file: seq<byte>, ix: Index, segmentBytes: int, interval: int, created: int)
      ensures BaseOffset == base && NextOffset == base && maxBytes == segmentBytes && indexInterval == interval
      ensures disk == file && buf == [] && index == ix && CreatedAt == created && !closed
      ensures bytesWritten == |file| && bytesSinceLastIndex == 0 && recs == []
      ensures Repr == {this, ix} + ix.Repr()
    {
      BaseOffset := base;
      NextOffset := base;
      disk := file;
      buf := [];
      index := ix;
      maxBytes := segmentBytes;
      indexInterval := interval;
      bytesWritten := |file|;
      bytesSinceLastIndex := 0;
      CreatedAt := created;
      closed := false;
      recs := [];
      new;
      Repr := {this, ix} + ix.Repr();
    }

    /** bufio.Writer.Write: fill and flush, or pass large writes straight through. */
    method Write(p: seq<byte>)
      requires |buf| <= WRITER_SIZE
      modifies this`disk, this`buf
      ensures |buf| <= WRITER_SIZE
      ensures disk + buf == old(disk + buf) + p && old(disk) <= disk
    {
      var rest := p;
      while |rest| > WRITER_SIZE - |buf|
        invariant |buf| <= WRITER_SIZE
        invariant disk + buf + rest == old(disk + buf) + p && old(disk) <= disk
        decreases |rest|, |buf|
      {
        if |buf| == 0 {
          disk := disk + rest;
          rest := [];
        } else {
          var n := WRITER_SIZE - |buf|;
          assert buf + rest[..n] + rest[n..] == buf + rest;
          disk := disk + (buf + rest[..n]);
          buf := [];
          rest := rest[n..];
        }
      }
      buf := buf + rest;
    }

    /** FlushWriter: what is buffered becomes visible to readers. */
    method FlushWriter()
      requires |buf| <= WRITER_SIZE
      modifies this`disk, this`buf
      ensures disk == old(disk + buf) && buf == []
    {
      disk := disk + buf;
      buf := [];
    }

    /** What rotation does to the outgoing segment: nothing buffered, no slack in the index. */
    method Seal()
      requires Valid() && recs != []
      modifies this`disk, this`buf, this`Repr, index
      ensures Valid() && buf == []
      ensures fresh(Repr - old(Repr)) && this in Repr
      ensures View() == old(View()).(indexMax := index.size) && index.size == old(index.size)
    {
      hide Wires, Fold, EntriesIn, Size;
      Soundness();
      FlushWriter();
      index.Seal();
      Repr := Repr + {index.mmap};
      assert disk + buf == old(disk + buf);
    }

    lemma {:induction false} Soundness()
      requires Valid()
      ensures Sound(Book(recs, BaseOffset, indexInterval), recs, BaseOffset, indexInterval)
      ensures bytesWritten == Size(recs)
      ensures Live() ==> Counters() == Book(recs, BaseOffset, indexInterval)
      ensures |recs| <= MAX_UINT32 + 1
      ensures disk == Wires(recs)[..|disk|] && |disk| <= Size(recs)
      ensures recs != [] ==> index.size > 0
    {
      hide Book, Sound, Wires;
      BookSound(recs, BaseOffset, indexInterval);
      AddressableCount(recs);
      SoundNonEmpty(Book(recs, BaseOffset, indexInterval), recs, BaseOffset, indexInterval);
    }

    /** The counters as an account; the next offset is kept by the callers. */
    ghost function Counters(): Account
      requires index.Valid()
      reads this, index, index.mmap
    {
      Account(bytesWritten, bytesSinceLastIndex, index.Entries(), NextOffset)
    }

    /** Count one record of n bytes and index it if it is due. Appending and rebuilding share this
        bookkeeping; it fails when an entry is due and there is no room. */
    method CountRecord(rec: Record, n: nat) returns (ok: bool)
      requires index.Valid()
      modifies this`bytesWritten, this`bytesSinceLastIndex, this`NextOffset, index`size, index.mmap
      ensures index.Valid() && index.mmap == old(index.mmap) && index.maxSize == old(index.maxSize)
      ensures var due := old(index.size) < 8 || old(bytesSinceLastIndex) + n >= indexInterval;
              ok == !(due && old(index.size) + 8 > index.maxSize)
      ensures bytesWritten == old(bytesWritten) + n
      ensures ok ==> Counters() == Step(old(Counters()), Frame(rec, n), BaseOffset, indexInterval)
      ensures !ok ==> NextOffset == old(NextOffset) && index.Entries() == old(index.Entries())
    {
      var position := ToUint32(bytesWritten);
      bytesWritten := bytesWritten + n;
      bytesSinceLastIndex := bytesSinceLastIndex + n;
      if index.size / ENTRY_SIZE == 0 || bytesSinceLastIndex >= indexInterval {
        var err := index.Append(ToUint32(rec.offset - BaseOffset), position);
        if err.Some? {
          return false;
        }
        bytesSinceLastIndex := 0;
      }
      NextOffset := rec.offset + 1;
      ok := true;
    }

    /** Append, including the path on which the index has no room: the bytes are already written
        and counted, but the offset is not consumed. */
    method Append(rec: Option<Record>) returns (r: AppendResult)
      requires Valid() && Live() && NextOffset < MAX_INT64
      modifies this`NextOffset, this`disk, this`buf, this`bytesWritten, this`bytesSinceLastIndex, this`recs
      modifies index`size, index.mmap
      ensures index.mmap == old(index.mmap) && index.maxSize == old(index.maxSize)
      ensures r == AppendOutcome(old(closed), rec, old(bytesWritten), old(index.size), index.maxSize,
                                 old(bytesSinceLastIndex), indexInterval, old(NextOffset))
      ensures r.Appended? ==> Valid() && Live() && recs == old(recs) + [Stamp(rec.value, r.offset)]
      ensures r.Rejected? && !r.error.IndexExhausted? ==>
                && Valid() && Live() && recs == old(recs) && disk == old(disk) && buf == old(buf)
      ensures r.Rejected? && r.error.IndexExhausted? ==>
                && disk + buf == old(disk + buf) + Wire(Stamp(rec.value, old(NextOffset)))
                && bytesWritten == old(bytesWritten) + EncodedSize(rec.value)
                && NextOffset == old(NextOffset) && index.Valid() && index.Entries() == old(index.Entries())
      ensures old(disk) <= disk
    {
      var refusal := Refusal(rec);
      if refusal.Some? {
        return Rejected(refusal.value);
      }
      StampSize(rec.value, NextOffset);
      r := Commit(Stamp(rec.value, NextOffset));
    }

    /** The checks Append makes before it touches anything. */
    method Refusal(rec: Option<Record>) returns (e: Option<AppendError>)
      ensures e == if closed then Some(SegmentClosed) else if rec.None? then Some(NilRecord)
                   else if bytesWritten > MAX_UINT32 then Some(PositionOverflow)
                   else if !Encodable(rec.value) then Some(RecordTooLarge) else None
    {
      if closed {
        return Some(SegmentClosed);
      }
      if rec.None? {
        return Some(NilRecord);
      }
      if bytesWritten > MAX_UINT32 {
        return Some(PositionOverflow);
      }
      e := if EncodedSize(rec.value) > MAX_RECORD_SIZE then Some(RecordTooLarge) else None;
    }

    /** Write an admissible record and count it. */
    method Commit(stamped: Record) returns (r: AppendResult)
      requires Valid() && Live() && NextOffset < MAX_INT64 && bytesWritten <= MAX_UINT32
      requires Encodable(stamped) && stamped.offset == NextOffset
      modifies this`NextOffset, this`disk, this`buf, this`bytesWritten, this`bytesSinceLastIndex, this`recs
      modifies index`size, index.mmap
      ensures index.mmap == old(index.mmap) && index.maxSize == old(index.maxSize)
      ensures var due := old(index.size) < 8 || old(bytesSinceLastIndex) + EncodedSize(stamped) >= indexInterval;
              r == if due && old(index.size) + 8 > index.maxSize then Rejected(IndexExhausted) else Appended(stamped.offset)
      ensures r.Appended? ==> Valid() && Live() && recs == old(recs) + [stamped]
      ensures r.Rejected? ==>
                && disk + buf == old(disk + buf) + Wire(stamped)
                && bytesWritten == old(bytesWritten) + EncodedSize(stamped)
                && NextOffset == old(NextOffset) && index.Valid() && index.Entries() == old(index.Entries())
      ensures old(disk) <= disk
    {
      hide Wire, Wires, EncodedSize, Fold, Sound, Step, EntriesIn;
      Soundness();
      ghost var before := recs;
      Grow(before, stamped, BaseOffset, indexInterval);
      assert Counters() == Book(before, BaseOffset, indexInterval);
      Write(Wire(stamped));
      var ok := CountRecord(stamped, EncodedSize(stamped));
      if !ok {
        return Rejected(IndexExhausted);
      }
      recs := before + [stamped];
      r := Appended(stamped.offset);
    }

    /** readAt. */
    method ReadAtPosition(position: nat, target: int) returns (r: ReadResult)
      ensures r == ReadAt(disk, position, target)
    {
      hide Decode;
      match Decode(Seek(disk, position)) {
        case Failed(e) => r := EndOfScan(e);
        case Decoded(rec, n) =>
          if rec.offset != target {
            r := ScanFrom(position, target);
          } else {
            r := Ok(rec);
          }
      }
    }

    /** scanFrom. */
    method ScanFrom(position: nat, target: int) returns (r: ReadResult)
      ensures r == ScanFor(Seek(disk, position), target)
    {
      hide Decode;
      var data := Seek(disk, position);
      while true
        invariant ScanFor(Seek(disk, position), target) == ScanFor(data, target)
        decreases |data|
      {
        match Decode(data) {
          case Failed(e) => return EndOfScan(e);
          case Decoded(rec, n) =>
            if rec.offset == target {
              return Ok(rec);
            }
            if rec.offset > target {
              return NotFound;
            }
            data := data[n..];
        }
      }
    }

    /** Read returns the stored record exactly when it has reached the file. */
    method Read(offset: int) returns (r: ReadResult)
      requires Valid()
      ensures r == if closed then Unavailable else if offset < BaseOffset then OutOfRange
                   else ReadSpec(recs, |disk|, BaseOffset, offset)
    {
      if closed {
        return Unavailable;
      }
      if offset < BaseOffset {
        return OutOfRange;
      }
      Soundness();
      hide Book, Wires, Size, ReadSpec, ScanFor, ReadAt, Nearest;
      IndexedReadIsLinear(recs, |disk|, index.Entries(), BaseOffset, offset);
      var found := index.Lookup(ToUint32(offset - BaseOffset));
      if found.None? {
        return Unavailable;
      }
      var f := found.value;
      if f.exact {
        r := ReadAtPosition(f.position, offset);
      } else {
        r := ScanFrom(f.position, offset);
      }
    }

    /** ReadFrom: the run of stored records from the offset on, as far as the budget loop goes. */
    method ReadFrom(offset: int, maxBytes: int32) returns (r: RangeResult)
      requires Valid()
      ensures r == if closed then Range([], Some(Unavailable)) else if maxBytes <= 0 then Range([], None)
                   else if offset < BaseOffset then Range([], Some(OutOfRange))
                   else Range(TakeRun(OnDiskFrom(recs, |disk|, BaseOffset, offset), maxBytes), None)
    {
      if closed {
        return Range([], Some(Unavailable));
      }
      if maxBytes <= 0 {
        return Range([], None);
      }
      if offset < BaseOffset {
        return Range([], Some(OutOfRange));
      }
      Soundness();
      hide Book, Wires, Size, TakeRun, OnDiskFrom, Collect, Nearest;
      IndexedRangeIsLinear(recs, |disk|, index.Entries(), BaseOffset, offset, maxBytes);
      var found := index.Lookup(ToUint32(offset - BaseOffset));
      if found.None? {
        return Range([], Some(Unavailable));
      }
      r := CollectLoop(Seek(disk, found.value.position), offset, maxBytes);
    }

    static method CollectLoop(start: seq<byte>, offset: int, maxBytes: int32) returns (r: RangeResult)
      ensures r == Collect(start, offset, maxBytes, 0)
    {
      hide Decode, Wrap32;
      var data := start;
      var records: seq<Record> := [];
      var accumulated: int32 := 0;
      while true
        invariant var rest := Collect(data, offset, maxBytes, accumulated);
                  Collect(start, offset, maxBytes, 0) == Range(records + rest.recs, rest.error)
        decreases |data|
      {
        match Decode(data) {
          case Failed(e) =>
            assert records + [] == records;
            if EndOfScan(e).NotFound? {
              return Range(records, None);
            }
            return Range(records, Some(Undecodable(e)));
          case Decoded(rec, n) =>
            if rec.offset >= offset {
              var total := Wrap32(accumulated + Wrap32(n));
              if accumulated > 0 && total > maxBytes {
                assert records + [] == records;
                return Range(records, None);
              }
              ghost var rest := Collect(data[n..], offset, maxBytes, total).recs;
              assert records + ([rec] + rest) == (records + [rec]) + rest;
              records := records + [rec];
              accumulated := total;
            }
            data := data[n..];
        }
      }
    }

    method IsFull() returns (full: bool)
      requires index.Valid()
      ensures full == (closed || bytesWritten >= maxBytes || index.size + 8 > index.maxSize)
    {
      if closed {
        return true;
      }
      if bytesWritten >= maxBytes {
        return true;
      }
      full := index.size + ENTRY_SIZE > index.maxSize;
    }

    /** rebuildSegment: forget the index, scan the file from the start, keep what decodes below the
        stop, truncate the rest. It fails only when the entries do not fit the old index size. */
    method Rebuild(stop: int) returns (ok: bool)
      requires index.Valid() && |buf| <= WRITER_SIZE && !closed
      modifies this`NextOffset, this`disk, this`buf, this`index, this`bytesWritten, this`bytesSinceLastIndex, this`recs, this`Repr
      ensures var account := Fold(Kept(Frames(old(disk + buf)), stop), BaseOffset, indexInterval);
              && ok == (old(index.maxSize) >= 8 && 8 * |account.entries| <= old(index.maxSize))
              && (ok ==>
                    && fresh(index.Repr()) && index.Valid() && index.mmap != null && Repr == {this} + index.Repr()
                    && index.maxSize == old(index.maxSize)
                    && index.Entries() == account.entries
                    && account.bytes <= |old(disk + buf)|
                    && disk == old(disk + buf)[..account.bytes] && buf == []
                    && bytesWritten == account.bytes
                    && bytesSinceLastIndex == account.since
                    && NextOffset == account.next
                    && recs == FramesRecords(Kept(Frames(old(disk + buf)), stop)))
    {
      hide Frames, Kept, Fold, FramesRecords, RecoveredEntries;
      FlushWriter();
      var reopened := Index.NewIndex([], index.maxSize);
      if reopened.None? {
        return false;
      }
      NothingRecovered(index.maxSize);
      index := reopened.value;
      bytesWritten := 0;
      bytesSinceLastIndex := 0;
      NextOffset := BaseOffset;
      ok := Rescan(stop);
      if ok {
        disk := disk[..bytesWritten];
        recs := FramesRecords(Kept(Frames(old(disk + buf)), stop));
        Repr := {this} + index.Repr();
      }
    }

    /** Rebuilding a file of encoded records and an undecodable tail: the segment is as if the kept
        records had just been appended to a fresh one. */
    method RebuildRecords(stop: int, ghost rs: seq<Record>, ghost tail: seq<byte>)
      requires index.Valid() && |buf| <= WRITER_SIZE && !closed && indexInterval > 0
      requires AllEncodable(rs) && Dense(rs, BaseOffset) && BaseOffset + |rs| <= MAX_INT64
      requires disk + buf == Wires(rs) + tail && Decode(tail).Failed?
      requires Addressable(rs[..KeptCount(|rs|, BaseOffset, stop)])
      requires 8 <= index.maxSize
      requires 8 * |Book(rs[..KeptCount(|rs|, BaseOffset, stop)], BaseOffset, indexInterval).entries| <= index.maxSize
      modifies this`NextOffset, this`disk, this`buf, this`index, this`bytesWritten, this`bytesSinceLastIndex, this`recs, this`Repr
      ensures Valid() && Live() && fresh(Repr - {this}) && buf == []
      ensures recs == rs[..KeptCount(|rs|, BaseOffset, stop)] && index.maxSize == old(index.maxSize)
    {
      hide Wires, Frames, Kept, Fold, Decode, EntriesIn, Size, FramesRecords;
      ghost var m := KeptCount(|rs|, BaseOffset, stop);
      RebuildIsReappend(rs, tail, BaseOffset, indexInterval, stop);
      FramesOfWires(rs, tail);
      KeptOfDense(rs, BaseOffset, stop);
      UnframeRecords(rs[..m]);
      BookSound(rs[..m], BaseOffset, indexInterval);
      SoundNonEmpty(Book(rs[..m], BaseOffset, indexInterval), rs[..m], BaseOffset, indexInterval);
      WiresSplit(rs, m);
      var ok := Rebuild(stop);
      assert disk == Wires(rs[..m]);
    }

    /** The scan loop: count every record it keeps, from byte 0. */
    method Rescan(stop: int) returns (ok: bool)
      requires index.Valid() && Counters() == Account(0, 0, [], BaseOffset)
      modifies this`NextOffset, this`bytesWritten, this`bytesSinceLastIndex, index`size, index.mmap
      ensures index.Valid() && index.mmap == old(index.mmap) && index.maxSize == old(index.maxSize)
      ensures var account := Fold(Kept(Frames(disk), stop), BaseOffset, indexInterval);
              && ok == (8 * |account.entries| <= index.maxSize)
              && (ok ==> Counters() == account && account.bytes <= |disk|)
    {
      hide Decode, Step, Fold, Frames, Kept, Remaining, EntriesIn;
      RemainingAll(disk, stop);
      ghost var all := Remaining(disk, 0, stop);
      ghost var done := 0;
      FoldNothing(BaseOffset, indexInterval);
      assert all[0..] == all && all[..0] == [];
      ok := true;
      while ok
        invariant bytesWritten <= |disk|
        invariant index.Valid() && index.mmap == old(index.mmap) && index.maxSize == old(index.maxSize)
        invariant done <= |all|
        invariant ok ==> all[done..] == Remaining(disk, bytesWritten, stop)
        invariant ok ==> Counters() == Fold(all[..done], BaseOffset, indexInterval)
        invariant !ok ==> index.maxSize < 8 * |Fold(all, BaseOffset, indexInterval).entries|
        decreases ok, |disk| - bytesWritten
      {
        RemainingHead(disk, bytesWritten, stop);
        var d := Decode(disk[bytesWritten..]);
        if d.Failed? || (stop >= 0 && d.rec.offset >= stop) {
          assert all[..done] == all;
          break;
        }
        NextFrame(all, done, Frame(d.rec, d.n), Remaining(disk, bytesWritten + d.n, stop), BaseOffset, indexInterval);
        ok := CountRecord(d.rec, d.n);
        done := done + 1;
      }
    }
  }

  /** Every way Segment.Append can end. */
  function AppendOutcome(closed: bool, rec: Option<Record>, bytesWritten: nat, indexSize: nat, indexMax: nat,
                         since: nat, interval: int, next: int): AppendResult
  {
    if closed then Rejected(SegmentClosed)
    else if rec.None? then Rejected(NilRecord)
    else if bytesWritten > MAX_UINT32 then Rejected(PositionOverflow)
    else if !Encodable(rec.value) then Rejected(RecordTooLarge)
    else if (indexSize < 8 || since + EncodedSize(rec.value) >= interval) && indexSize + 8 > indexMax then Rejected(IndexExhausted)
    else Appended(next)
  }

  lemma {:induction false} StampSize(r: Record, offset: int64)
    ensures EncodedSize(Stamp(r, offset)) == EncodedSize(r)
  {
  }

  lemma {:induction false} WiresSnoc(recs: seq<Record>, r: Record)
    ensures Wires(recs + [r]) == Wires(recs) + Wire(r)
    ensures Size(recs + [r]) == Size(recs) + EncodedSize(r)
  {
    hide Wire, EncodedSize;
    assert (recs + [r])[..|recs|] == recs;
  }

  /** One more stamped record keeps everything a segment's records promise. */
  lemma {:induction false} Grow(recs: seq<Record>, r: Record, base: int, interval: int)
    requires AllEncodable(recs) && Dense(recs, base) && Size(recs) <= MAX_UINT32
    requires Encodable(r) && r.offset == base + |recs|
    ensures AllEncodable(recs + [r]) && Dense(recs + [r], base) && Addressable(recs + [r])
    ensures Wires(recs + [r]) == Wires(recs) + Wire(r)
    ensures Book(recs + [r], base, interval) == Step(Book(recs, base, interval), FrameOf(r), base, interval)
    ensures interval > 0 ==> Book(recs + [r], base, interval).next == base + |recs + [r]|
  {
    hide Wire, Wires, Size, Fold, Step;
    WiresSnoc(recs, r);
    GrownAddressable(recs, r);
    BookStep(recs, r, base, interval);
    if interval > 0 {
      BookSound(recs + [r], base, interval);
    }
  }

  lemma {:induction false} GrownAddressable(recs: seq<Record>, r: Record)
    requires Size(recs) <= MAX_UINT32
    ensures Addressable(recs + [r])
  {
    hide Size;
    assert (recs + [r])[..|recs|] == recs;
  }

  lemma {:induction false} AddressableCount(recs: seq<Record>)
    requires Addressable(recs)
    ensures |recs| <= MAX_UINT32 + 1
  {
    if recs != [] {
      SizeBound(recs[..|recs| - 1]);
    }
  }

  lemma {:induction false} SoundNonEmpty(a: Account, recs: seq<Record>, base: int, interval: int)
    requires Sound(a, recs, base, interval)
    ensures a.bytes == Size(recs) && a.next == base + |recs| && (recs != [] ==> a.entries != [])
    ensures Faithful(a.entries, recs)
  {
  }

  lemma {:induction false} NothingRecovered(max: nat)
    ensures RecoveredEntries([], max) == []
  {
  }

  lemma {:induction false} UnframeRecords(recs: seq<Record>)
    ensures FramesRecords(FramesOf(recs)) == recs
  {
  }

  function FramesRecords(fs: seq<Frame>): (rs: seq<Record>)
    ensures |rs| == |fs| && forall i :: 0 <= i < |fs| ==> rs[i] == fs[i].rec
  {
    seq(|fs|, i requires 0 <= i < |fs| => fs[i].rec)
  }

  /** What a rebuild standing at byte p still keeps. */
  function Remaining(file: seq<byte>, p: nat, stop: int): seq<Frame>
    requires p <= |file|
  {
    Kept(Frames(file[p..]), stop)
  }

  lemma {:induction false} RemainingAll(file: seq<byte>, stop: int)
    ensures Remaining(file, 0, stop) == Kept(Frames(file), stop)
  {
    assert file[0..] == file;
  }

  /** One turn of the rebuild loop. */
  lemma {:induction false} RemainingHead(file: seq<byte>, p: nat, stop: int)
    requires p <= |file|
    ensures match Decode(file[p..])
            case Failed(_) => Remaining(file, p, stop) == []
            case Decoded(rec, n) =>
              if stop >= 0 && rec.offset >= stop then Remaining(file, p, stop) == []
              else Remaining(file, p, stop) == [Frame(rec, n)] + Remaining(file, p + n, stop)
  {
    hide Decode;
    match Decode(file[p..])
    case Failed(_) =>
    case Decoded(rec, n) =>
      assert file[p..][n..] == file[p + n..];
      assert Frames(file[p..])[1..] == Frames(file[p + n..]);
  }

  lemma {:induction false} NextFrame(all: seq<Frame>, done: nat, f: Frame, rest: seq<Frame>, base: int, interval: int)
    requires done <= |all| && all[done..] == [f] + rest
    ensures done < |all| && all[done] == f && all[done + 1..] == rest
    ensures var a := Fold(all[..done], base, interval);
            && Fold(all[..done + 1], base, interval) == Step(a, f, base, interval)
            && (a.entries == [] || a.since + f.n >= interval ==> |a.entries| < |Fold(all, base, interval).entries|)
  {
    hide Step, Fold;
    assert all[done..][0] == all[done] && all[done..][1..] == all[done + 1..];
    assert all[..done + 1] == all[..done] + [f];
    assert all[..done + 1] + all[done + 1..] == all;
    FoldStep(all[..done], f, base, interval);
    TakeStep(Fold(all[..done], base, interval), f, base, interval);
    EntriesGrow(all[..done + 1], rest, base, interval);
  }

  lemma {:induction false} FoldNothing(base: int, interval: int)
    ensures Fold([], base, interval) == Account(0, 0, [], base)
  {
  }

  lemma {:induction false} TakeStep(a: Account, f: Frame, base: int, interval: int)
    ensures var s := Step(a, f, base, interval);
            && s.bytes == a.bytes + f.n && s.next == f.rec.offset + 1
            && (if a.entries == [] || a.since + f.n >= interval
                then s.since == 0 && s.entries == a.entries + [Entry(ToUint32(f.rec.offset - base), ToUint32(a.bytes))]
                else s.since == a.since + f.n && s.entries == a.entries)
  {
  }

  /** Later frames only add entries. */
  lemma {:induction false} EntriesGrow(fs: seq<Frame>, more: seq<Frame>, base: int, interval: int)
    ensures Fold(fs, base, interval).entries <= Fold(fs + more, base, interval).entries
    decreases |more|
  {
    if more == [] {
      assert fs + more == fs;
    } else {
      var front := more[..|more| - 1];
      EntriesGrow(fs, front, base, interval);
      assert (fs + more)[..|fs + more| - 1] == fs + front;
    }
  }
}
