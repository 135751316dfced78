/** Batches, truncation, retention and reopening of a partition log (internal/storage/log.go), each
    shown to do to the stored records what it promises, and exactly when it does. */
module LogMaintenance {
  import opened Bytes
  import opened Records
  import opened IndexAccounting
  import opened SegmentReads
  import opened Segments
  import opened LogSpec

  // ---- Batches ----------------------------------------------------------------------------------------

  datatype BatchOutcome = BatchOutcome(st: LogState, appended: nat, error: Option<AppendError>)

  /** AppendBatch: one by one, stopping at the first refusal. `nows[i]` is the clock at record i. */
  function AppendAll(st: LogState, recs: seq<Option<Record>>, nows: seq<int>, c: Config): BatchOutcome
    requires WellFormed(st.segs, c) && Usable(c) && |nows| == |recs|
    requires Abs(st.segs).Leo() + |recs| <= MAX_INT64
    decreases |recs|
  {
    if recs == [] then BatchOutcome(st, 0, None)
    else
      AppendRefines(st, recs[0], c, nows[0]);
      var o := AppendOne(st, recs[0], c, nows[0]);
      if o.result.Rejected? then BatchOutcome(o.st, 0, Some(o.result.error))
      else
        var rest := AppendAll(o.st, recs[1..], nows[1..], c);
        rest.(appended := rest.appended + 1)
  }

  /** The records a batch stores: the given ones under consecutive offsets. */
  function Stamped(recs: seq<Option<Record>>, from: int): (out: seq<Record>)
    requires forall i :: 0 <= i < |recs| ==> recs[i].Some?
    requires MIN_INT64 <= from && from + |recs| <= MAX_INT64
    ensures |out| == |recs|
    ensures forall i :: 0 <= i < |recs| ==> out[i] == Stamp(recs[i].value, from + i)
  {
    seq(|recs|, i requires 0 <= i < |recs| => Stamp(recs[i].value, from + i))
  }

  predicate Admissible(rec: Option<Record>) { rec.Some? && Encodable(rec.value) }

  /** A batch stores exactly its records up to the first refused one, under consecutive offsets
      from the old end; it reports no error exactly when it stored them all; and with segments of
      at most 4 GiB the first refused record is the first nil or oversized one. */
  lemma {:induction false} AppendAllRefines(st: LogState, recs: seq<Option<Record>>, nows: seq<int>, c: Config)
    requires WellFormed(st.segs, c) && Usable(c) && |nows| == |recs|
    requires MIN_INT64 <= Abs(st.segs).Leo() && Abs(st.segs).Leo() + |recs| <= MAX_INT64
    ensures var o := AppendAll(st, recs, nows, c);
            var before := Abs(st.segs);
            && WellFormed(o.st.segs, c)
            && o.appended <= |recs|
            && (forall i :: 0 <= i < o.appended ==> Admissible(recs[i]))
            && Abs(o.st.segs) == before.(recs := before.recs + Stamped(recs[..o.appended], before.Leo()))
            && (o.error.None? <==> o.appended == |recs|)
            && (o.error.Some? && c.segmentBytes <= MAX_UINT32 ==> !Admissible(recs[o.appended]))
    decreases |recs|
  {
    hide AppendOne, SegOk, Live, Concat, EncodedSize, Stamped;
    var before := Abs(st.segs);
    if recs == [] {
      NothingStamped(recs, before);
    } else {
      AppendRefines(st, recs[0], c, nows[0]);
      var first := AppendOne(st, recs[0], c, nows[0]);
      if first.result.Appended? {
        AppendAllRefines(first.st, recs[1..], nows[1..], c);
        var rest := AppendAll(first.st, recs[1..], nows[1..], c);
        assert forall i :: 0 <= i < |recs| - 1 ==> recs[1..][i] == recs[i + 1];
        StampedCons(recs, rest.appended, before);
      } else {
        NothingStamped(recs, before);
      }
    }
  }

  lemma {:induction false} NothingStamped(recs: seq<Option<Record>>, s: Stored)
    requires MIN_INT64 <= s.Leo() <= MAX_INT64
    ensures s.(recs := s.recs + Stamped(recs[..0], s.Leo())) == s
  {
  }

  lemma {:induction false} StampedCons(recs: seq<Option<Record>>, m: nat, s: Stored)
    requires m < |recs| && forall i :: 0 <= i <= m ==> recs[i].Some?
    requires MIN_INT64 <= s.Leo() && s.Leo() + m < MAX_INT64
    ensures var one := s.(recs := s.recs + [Stamp(recs[0].value, s.Leo())]);
            one.recs + Stamped(recs[1..][..m], one.Leo()) == s.recs + Stamped(recs[..m + 1], s.Leo())
  {
    var one := s.(recs := s.recs + [Stamp(recs[0].value, s.Leo())]);
    assert Stamped(recs[..m + 1], s.Leo()) == [Stamp(recs[0].value, s.Leo())] + Stamped(recs[1..][..m], one.Leo());
  }

  // ---- Truncation -------------------------------------------------------------------------------------

  /** rebuildSegment on a segment's records, keeping those below the stop. */
  function RebuildSeg(s: Seg, stop: int, c: Config): Seg {
    var recs := s.recs[..KeptCount(|s.recs|, s.base, stop)];
    s.(recs := recs, next := s.base + |recs|, since := Book(recs, s.base, c.indexIntervalBytes).since)
  }

  /** The segments that start below the truncation point, in order. */
  function Below(segs: seq<Seg>, k: int): (kept: seq<Seg>)
    ensures |kept| <= |segs|
  {
    if segs == [] then []
    else
      var front := Below(segs[..|segs| - 1], k);
      if segs[|segs| - 1].base >= k then front else front + [segs[|segs| - 1]]
  }

  function Truncate(st: LogState, k: int, c: Config, now: int): LogState
    requires Usable(c)
  {
    var kept := Below(st.segs, k);
    if kept == [] then LogState([FreshSeg(k, c, now)], now)
    else
      var n := |kept| - 1;
      LogState(kept[..n] + [RebuildSeg(kept[n], k, c)], now)
  }

  /** With increasing bases the kept segments are a prefix. */
  lemma {:induction false} BelowIsPrefix(segs: seq<Seg>, k: int, c: Config)
    requires WellFormed(segs, c)
    ensures var n := |Below(segs, k)|;
            && Below(segs, k) == segs[..n]
            && (n > 0 ==> segs[n - 1].base < k)
            && (n < |segs| ==> k <= segs[n].base)
  {
    hide SegOk, Live;
    BelowPrefix(segs, |segs|, k, c);
    assert segs[..|segs|] == segs;
  }

  lemma {:induction false} BelowSnoc(segs: seq<Seg>, m: nat, k: int)
    requires m < |segs|
    ensures Below(segs[..m + 1], k) == if segs[m].base >= k then Below(segs[..m], k) else Below(segs[..m], k) + [segs[m]]
  {
    assert segs[..m + 1][..m] == segs[..m];
  }

  lemma {:induction false} NoneBelow(k: int)
    ensures Below([], k) == []
  {
  }

  lemma {:induction false} BelowPrefix(segs: seq<Seg>, m: nat, k: int, c: Config)
    requires WellFormed(segs, c) && m <= |segs|
    ensures var n := |Below(segs[..m], k)|;
            && n <= m && Below(segs[..m], k) == segs[..n]
            && (n > 0 ==> segs[n - 1].base < k)
            && (n < m ==> k <= segs[n].base)
  {
    hide SegOk, Live, Below;
    NoneBelow(k);
    if m > 0 {
      BelowPrefix(segs, m - 1, k, c);
      BelowSnoc(segs, m - 1, k);
      var n := |Below(segs[..m - 1], k)|;
      if n < m - 1 {
        BasesIncrease(segs, n, m - 1, c);
      }
    } else {
      assert segs[..0] == [];
    }
  }

  lemma {:induction false} RebuildSegOk(s: Seg, stop: int, c: Config)
    requires SegOk(s, c) && Usable(c)
    ensures WellFormed([RebuildSeg(s, stop, c)], c)
  {
    hide Size, EncodedSize, Fold;
    var m := KeptCount(|s.recs|, s.base, stop);
    EntriesOfPrefix(s.recs, m, s.base, c.indexIntervalBytes);
    PrefixAddressable(s.recs, m);
  }

  lemma {:induction false} PrefixAddressable(recs: seq<Record>, m: nat)
    requires Addressable(recs) && m <= |recs|
    ensures Addressable(recs[..m])
  {
    hide Size;
    if m > 0 {
      SizeMonotone(recs, m - 1, |recs| - 1);
      assert recs[..m][..m - 1] == recs[..m - 1];
    }
  }

  /** What truncation is for: exactly the records below k remain, and k caps the end offset. */
  function Cut(s: Stored, k: int): Stored {
    if k <= s.start then Stored(k, []) else Stored(s.start, s.recs[..Min(k - s.start, |s.recs|)])
  }

  /** What truncation leaves, in full: when the cut point falls inside a segment and is negative,
      the rebuild does not see it as a stop, and that segment keeps all its records. */
  lemma {:induction false} TruncateLeaves(st: LogState, k: int, c: Config, now: int)
    requires WellFormed(st.segs, c) && Usable(c) && MIN_INT64 <= k <= MAX_INT64
    ensures WellFormed(Truncate(st, k, c, now).segs, c)
    ensures var kept := Below(st.segs, k);
            Abs(Truncate(st, k, c, now).segs) ==
            if kept == [] || k >= 0 then Cut(Abs(st.segs), k)
            else Cut(Abs(st.segs), End(kept[|kept| - 1]))
  {
    hide SegOk, Concat, EntriesOf, Live;
    BelowIsPrefix(st.segs, k, c);
    var kept := Below(st.segs, k);
    if kept == [] {
      FreshOk(k, c, now);
      ConcatOne(FreshSeg(k, c, now));
    } else {
      var n := |kept| - 1;
      var last := st.segs[n];
      var rebuilt := RebuildSeg(last, k, c);
      RebuildSegOk(last, k, c);
      Graft(st.segs, n, [rebuilt], c);
      ConcatOne(rebuilt);
      assert kept[..n] == st.segs[..n];
      SegmentPlace(st.segs, n, c);
      CutAt(Abs(st.segs), Concat(st.segs[..n]), last.recs, Concat(st.segs[n + 1..]), |rebuilt.recs|);
      EndAfter(st.segs, n, k, c);
      if n > 0 {
        BasesIncrease(st.segs, 0, n, c);
      }
    }
  }

  lemma {:induction false} CutAt(s: Stored, a: seq<Record>, b: seq<Record>, rest: seq<Record>, m: nat)
    requires s.recs == a + b + rest && m <= |b|
    ensures s.recs[..|a| + m] == a + b[..m]
  {
  }

  lemma {:induction false} EndAfter(segs: seq<Seg>, n: nat, k: int, c: Config)
    requires WellFormed(segs, c) && n < |segs| && (n + 1 < |segs| ==> k <= segs[n + 1].base)
    ensures n + 1 < |segs| ==> k <= End(segs[n]) <= Abs(segs).Leo()
    ensures n + 1 == |segs| ==> End(segs[n]) == Abs(segs).Leo()
  {
    hide SegOk, Concat;
    LeoIsActiveNext(segs, c);
    if n + 1 < |segs| {
      BasesIncrease(segs, n, |segs| - 1, c);
    }
  }

  /** Truncate(k) keeps exactly the records below k, with end offset min(LEO, k), exactly when k is
      not negative, or no segment starts below it, or it falls on the end of one. */
  lemma {:induction false} TruncateExactIff(st: LogState, k: int, c: Config, now: int)
    requires WellFormed(st.segs, c) && Usable(c) && MIN_INT64 <= k <= MAX_INT64
    ensures var kept := Below(st.segs, k);
            (Abs(Truncate(st, k, c, now).segs) == Cut(Abs(st.segs), k))
            <==> (k >= 0 || kept == [] || End(kept[|kept| - 1]) <= k)
    ensures Cut(Abs(st.segs), k).Leo() == Min(Abs(st.segs).Leo(), k)
  {
    hide SegOk, Concat, EntriesOf, Live, Truncate;
    TruncateLeaves(st, k, c, now);
    BelowIsPrefix(st.segs, k, c);
    var kept := Below(st.segs, k);
    if kept != [] {
      var n := |kept| - 1;
      EndAfter(st.segs, n, k, c);
      if n > 0 {
        BasesIncrease(st.segs, 0, n, c);
      }
      EndInRange(st.segs[n], c);
      if k < 0 && k < End(st.segs[n]) {
        assert Cut(Abs(st.segs), End(st.segs[n])).Leo() == End(st.segs[n]) > k;
      }
    }
  }

  /** Two records in one segment from offset -2 on: dropping everything from -1 on keeps both. */
  lemma {:induction false} KeepsBoth(s: Seg, since: int, c: Config, now: int)
    requires WellFormed([s], c) && Usable(c) && s.base == -2 && |s.recs| == 2
    ensures Abs(Truncate(LogState([s], since), -1, c, now).segs) == Abs([s])
    ensures Cut(Abs([s]), -1) == Stored(-2, s.recs[..1])
  {
    hide SegOk, EntriesOf, Live;
    assert [s][..0] == [];
    ConcatOne(s);
    assert Below([s], -1) == [s];
    TruncateLeaves(LogState([s], since), -1, c, now);
    assert s.recs[..2] == s.recs;
  }

  /** An append to a log of one segment that is not due for rotation leaves one segment. */
  lemma {:induction false} StaysOne(st: LogState, r: Record, c: Config, now: int)
    requires WellFormed(st.segs, c) && Usable(c) && |st.segs| == 1 && !RotationDue(st, c, now)
    ensures var st' := AppendOne(st, Some(r), c, now).st;
            |st'.segs| == 1 && st'.segs[0].indexMax == st.segs[0].indexMax && st'.activeSince == st.activeSince
  {
    hide SegOk, EntriesOf, Live, RotationDue, Refused;
    RoomAfterRotation(st, c, now);
  }

  /** One record does not fill a segment with room for any record and for two index entries. */
  lemma {:induction false} OneIsNotFull(s: Seg, c: Config, now: int)
    requires SegOk(s, c) && |s.recs| == 1 && s.indexMax >= 16 && c.segmentBytes > MAX_RECORD_SIZE
    ensures !RotationDue(LogState([s], now), c, now)
  {
    hide EncodedSize, Live;
    var r := s.recs[0];
    assert s.recs == [] + [r] && FramesOf([]) == [] && s.recs[..0] == [];
    BookStep([], r, s.base, c.indexIntervalBytes);
    SizeSnoc([], r);
  }

  lemma {:induction false} NothingBelow(segs: seq<Seg>, k: int, c: Config)
    requires WellFormed(segs, c) && k <= segs[0].base
    ensures Below(segs, k) == []
  {
    hide SegOk, Live;
    BelowIsPrefix(segs, k, c);
    var n := |Below(segs, k)|;
    if n > 1 {
      BasesIncrease(segs, 0, n - 1, c);
    }
  }

  lemma {:induction false} EmptiedBelow(st: LogState, c: Config, now: int)
    requires WellFormed(st.segs, c) && Abs(st.segs).start >= 0 && Usable(c)
    ensures var emptied := Truncate(st, -2, c, now);
            && WellFormed(emptied.segs, c) && Abs(emptied.segs) == Stored(-2, []) && |emptied.segs| == 1
            && emptied.segs[0].indexMax == IndexCap(c) && emptied.activeSince == now && !RotationDue(emptied, c, now)
  {
    hide SegOk, EntriesOf, Live, Full;
    NothingBelow(st.segs, -2, c);
    FreshOk(-2, c, now);
    ConcatOne(FreshSeg(-2, c, now));
  }

  lemma {:induction false} LoneRecord(st: LogState, c: Config, now: int)
    requires WellFormed(st.segs, c) && |st.segs| == 1 && |Abs(st.segs).recs| == 1 && st.activeSince == now
    requires st.segs[0].indexMax == IndexCap(c) && c.indexMaxBytes >= 16 && c.segmentBytes > MAX_RECORD_SIZE
    ensures !RotationDue(st, c, now)
  {
    hide EntriesOf, Live, SegOk, RotationDue;
    ConcatOne(st.segs[0]);
    assert st == LogState([st.segs[0]], now);
    OneIsNotFull(st.segs[0], c, now);
  }

  lemma {:induction false} AllOfTwo(st: LogState, x: Record, y: Record, c: Config, now: int)
    requires WellFormed(st.segs, c) && Usable(c) && Abs(st.segs).Leo() == -2
    requires AppendOne(st, Some(x), c, now).result.Appended?
    ensures WellFormed(AppendOne(st, Some(x), c, now).st.segs, c)
    ensures AppendAll(st, [Some(x), Some(y)], [now, now], c).st == AppendOne(AppendOne(st, Some(x), c, now).st, Some(y), c, now).st
  {
    hide SegOk, Live, AppendOne, Concat;
    AppendRefines(st, Some(x), c, now);
    var one := AppendOne(st, Some(x), c, now).st;
    AppendRefines(one, Some(y), c, now);
    AllOfOne(one, y, c, now);
    assert [Some(x), Some(y)][1..] == [Some(y)] && [now, now][1..] == [now];
  }

  lemma {:induction false} AllOfOne(st: LogState, y: Record, c: Config, now: int)
    requires WellFormed(st.segs, c) && Usable(c) && Abs(st.segs).Leo() < MAX_INT64
    ensures AppendAll(st, [Some(y)], [now], c).st == AppendOne(st, Some(y), c, now).st
  {
    hide SegOk, Live, AppendOne, Concat;
    AppendRefines(st, Some(y), c, now);
    assert [Some(y)][1..] == [];
  }

  /** Truncating with a negative point can keep too much. Any log of records from 0 on, emptied down to
      -2, given two records and told to drop everything from -1 on, keeps both. */
  lemma {:induction false} NegativeTruncateKeepsTooMuch(st: LogState, x: Record, y: Record, c: Config, now: int)
    requires WellFormed(st.segs, c) && Abs(st.segs).start >= 0 && Encodable(x) && Encodable(y)
    requires Usable(c) && MAX_RECORD_SIZE < c.segmentBytes <= MAX_UINT32 && c.indexMaxBytes >= 16
    ensures var emptied := Truncate(st, -2, c, now);
            && WellFormed(emptied.segs, c) && Abs(emptied.segs) == Stored(-2, [])
            && var filled := AppendAll(emptied, [Some(x), Some(y)], [now, now], c).st;
               && WellFormed(filled.segs, c) && Abs(filled.segs) == Stored(-2, [Stamp(x, -2), Stamp(y, -1)])
               && Abs(Truncate(filled, -1, c, now).segs) == Abs(filled.segs)
               && Cut(Abs(filled.segs), -1) == Stored(-2, [Stamp(x, -2)])
  {
    hide SegOk, EntriesOf, Live, AppendOne, RotationDue, Truncate, Encodable, MaybeRotate;
    var emptied := Truncate(st, -2, c, now);
    EmptiedBelow(st, c, now);
    AppendRefines(emptied, Some(x), c, now);
    StaysOne(emptied, x, c, now);
    var one := AppendOne(emptied, Some(x), c, now);
    AppendRefines(one.st, Some(y), c, now);
    LoneRecord(one.st, c, now);
    StaysOne(one.st, y, c, now);
    var two := AppendOne(one.st, Some(y), c, now);
    AllOfTwo(emptied, x, y, c, now);
    ConcatOne(two.st.segs[0]);
    assert two.st.segs == [two.st.segs[0]];
    KeepsBoth(two.st.segs[0], two.st.activeSince, c, now);
  }

  // ---- Retention --------------------------------------------------------------------------------------

  predicate Expired(s: Seg, c: Config, now: int) {
    c.retentionMs > 0 && now - s.created >= c.retentionMs
  }

  function Unexpired(segs: seq<Seg>, c: Config, now: int): seq<Seg> {
    if segs == [] then []
    else
      var front := Unexpired(segs[..|segs| - 1], c, now);
      var last := segs[|segs| - 1];
      if Expired(last, c, now) then front else front + [last]
  }

  /** Younger than the retention time, or kept for ever. */
  predicate Young(s: Seg, c: Config, now: int) { c.retentionMs <= 0 || now < s.created + c.retentionMs }

  lemma {:induction false} UnexpiredMembers(segs: seq<Seg>, c: Config, now: int)
    ensures forall s :: s in Unexpired(segs, c, now) <==> s in segs && Young(s, c, now)
    decreases |segs|
  {
    if segs != [] {
      UnexpiredMembers(segs[..|segs| - 1], c, now);
      assert segs == segs[..|segs| - 1] + [segs[|segs| - 1]];
    }
  }

  lemma {:induction false} NoneUnexpired(segs: seq<Seg>, c: Config, now: int)
    requires forall i :: 0 <= i < |segs| ==> Expired(segs[i], c, now)
    ensures Unexpired(segs, c, now) == []
    decreases |segs|
  {
    hide Expired;
    if segs != [] {
      NoneUnexpired(segs[..|segs| - 1], c, now);
    }
  }

  function TotalSize(segs: seq<Seg>): nat {
    if segs == [] then 0 else Size(segs[0].recs) + TotalSize(segs[1..])
  }

  /** Oldest first, until the total fits or only the active segment is left. */
  function DropToFit(segs: seq<Seg>, limit: int): (kept: seq<Seg>)
    ensures segs != [] ==> kept != []
  {
    if TotalSize(segs) > limit && |segs| > 1 then DropToFit(segs[1..], limit) else segs
  }

  /** The time-based pass: expired segments go, the active one stays. */
  function TimeRetained(segs: seq<Seg>, c: Config, now: int): (kept: seq<Seg>)
    requires segs != []
    ensures kept != []
  {
    Unexpired(segs[..|segs| - 1], c, now) + [segs[|segs| - 1]]
  }

  /** runRetention. The active segment is never dropped. */
  function Retain(st: LogState, c: Config, now: int): LogState
    requires st.segs != []
  {
    if |st.segs| <= 1 then st
    else
      var kept := TimeRetained(st.segs, c, now);
      st.(segs := if c.retentionBytes > 0 then DropToFit(kept, c.retentionBytes) else kept)
  }

  /** Segments created no later than their successors. */
  ghost predicate CreatedInOrder(segs: seq<Seg>) {
    forall i, j :: 0 <= i < j < |segs| ==> segs[i].created <= segs[j].created
  }

  ghost predicate ExpiredFirst(segs: seq<Seg>, c: Config, now: int) {
    forall i, j :: 0 <= i < j < |segs| && Young(segs[i], c, now) ==> Young(segs[j], c, now)
  }

  ghost predicate Suffix(a: seq<Seg>, b: seq<Seg>) {
    exists d :: 0 <= d <= |b| && a == b[d..]
  }

  ghost predicate Distinct(segs: seq<Seg>) {
    forall i, j :: 0 <= i < j < |segs| ==> segs[i] != segs[j]
  }

  /** If expired segments come first, the unexpired ones are the segments from some place on. */
  lemma {:induction false} UnexpiredFrom(segs: seq<Seg>, c: Config, now: int) returns (d: nat)
    requires ExpiredFirst(segs, c, now)
    ensures d <= |segs| && Unexpired(segs, c, now) == segs[d..]
    ensures forall i :: 0 <= i < |segs| ==> (d <= i <==> !Expired(segs[i], c, now))
    decreases |segs|
  {
    hide Expired, ExpiredFirst;
    if segs == [] {
      d := 0;
    } else {
      var front := segs[..|segs| - 1];
      var last := segs[|segs| - 1];
      ExpiredFront(segs, c, now);
      assert forall i | 0 <= i < |front| :: front[i] == segs[i];
      if Expired(last, c, now) {
        NoneUnexpired(front, c, now);
        d := |segs|;
      } else {
        d := UnexpiredFrom(front, c, now);
        assert segs[d..] == front[d..] + [last];
      }
    }
  }

  lemma {:induction false} ExpiredFront(segs: seq<Seg>, c: Config, now: int)
    requires ExpiredFirst(segs, c, now) && segs != []
    ensures var front := segs[..|segs| - 1];
            && ExpiredFirst(front, c, now)
            && (Expired(segs[|segs| - 1], c, now) ==> forall i :: 0 <= i < |front| ==> Expired(front[i], c, now))
  {
  }

  /** Time-based retention drops a prefix exactly when no expired segment follows a fresh one. */
  lemma {:induction false} RetentionDropsPrefixIff(segs: seq<Seg>, c: Config, now: int)
    requires Distinct(segs)
    ensures Suffix(Unexpired(segs, c, now), segs) <==> ExpiredFirst(segs, c, now)
  {
    if ExpiredFirst(segs, c, now) {
      var d := UnexpiredFrom(segs, c, now);
    }
    UnexpiredMembers(segs, c, now);
    if Suffix(Unexpired(segs, c, now), segs) {
      var d :| 0 <= d <= |segs| && Unexpired(segs, c, now) == segs[d..];
      forall i, j | 0 <= i < j < |segs| && Young(segs[i], c, now) ensures Young(segs[j], c, now) {
        assert segs[i] in segs[d..];
      }
    }
  }

  /** Creation times in order is enough, whatever the clock says. */
  lemma {:induction false} InOrderExpiresFirst(segs: seq<Seg>, c: Config, now: int)
    requires CreatedInOrder(segs)
    ensures ExpiredFirst(segs, c, now)
  {
  }

  /** Two sealed segments out of order: the younger record survives the older one's neighbour. */
  lemma {:induction false} RetentionCanLeaveAHole(a: Seg, b: Seg, c: Config)
    requires c.retentionMs > 0 && a.created == 0 && b.created == -c.retentionMs
    ensures Unexpired([a, b], c, 0) == [a]
  {
    assert [a, b][..1] == [a] && [a][..0] == [];
    assert Unexpired([a], c, 0) == [a];
  }

  /** A non-empty suffix of the segments stores a suffix of the records. */
  lemma {:induction false} SuffixRefines(segs: seq<Seg>, d: nat, c: Config)
    requires WellFormed(segs, c) && d < |segs|
    ensures WellFormed(segs[d..], c)
    ensures var s := Abs(segs);
            var n := segs[d].base - s.start;
            0 <= n <= |s.recs| && Abs(segs[d..]) == Stored(s.start + n, s.recs[n..])
  {
    hide SegOk, Concat, Live;
    SegmentPlace(segs, d, c);
    assert segs == segs[..d] + segs[d..];
    ConcatSplit(segs[..d], segs[d..]);
    if d > 0 {
      BasesIncrease(segs, 0, d, c);
    }
  }

  /** How many bytes of records the log holds from segment i on. */
  function BytesFrom(segs: seq<Seg>, i: nat): nat
    requires i <= |segs|
  {
    Size(Concat(segs[i..]))
  }

  lemma {:induction false} TotalIsSize(segs: seq<Seg>)
    ensures TotalSize(segs) == Size(Concat(segs))
  {
    hide Size;
    if segs == [] {
      SizeEmpty();
    } else {
      TotalIsSize(segs[1..]);
      assert segs == [segs[0]] + segs[1..];
      ConcatSplit([segs[0]], segs[1..]);
      ConcatOne(segs[0]);
      SizeConcat(segs[0].recs, Concat(segs[1..]));
    }
  }

  /** The retention policy, when it keeps the segments from d on: what is kept besides the active segment
      is young, and all of it within the byte limit unless it is the active segment alone; and every
      segment dropped was old, or had the limit exceeded from it on. */
  ghost predicate KeptFrom(segs: seq<Seg>, d: nat, c: Config, now: int) {
    && d < |segs|
    && (forall i :: d <= i < |segs| - 1 ==> Young(segs[i], c, now))
    && (c.retentionBytes > 0 ==> d == |segs| - 1 || BytesFrom(segs, d) <= c.retentionBytes)
    && (forall i :: 0 <= i < d ==> !Young(segs[i], c, now) || 0 < c.retentionBytes < BytesFrom(segs, i))
  }

  lemma {:induction false} TimeKept(segs: seq<Seg>, c: Config, now: int) returns (d: nat)
    requires |segs| > 1 && CreatedInOrder(segs)
    ensures d < |segs| && TimeRetained(segs, c, now) == segs[d..]
    ensures forall i :: 0 <= i < |segs| - 1 ==> (d <= i <==> Young(segs[i], c, now))
  {
    hide Unexpired, ExpiredFirst, CreatedInOrder;
    var sealed := segs[..|segs| - 1];
    InOrderFront(segs);
    InOrderExpiresFirst(sealed, c, now);
    d := UnexpiredFrom(sealed, c, now);
    forall i | 0 <= i < |segs| - 1 ensures d <= i <==> Young(segs[i], c, now) {
      assert sealed[i] == segs[i];
    }
  }

  lemma {:induction false} InOrderFront(segs: seq<Seg>)
    requires CreatedInOrder(segs) && segs != []
    ensures CreatedInOrder(segs[..|segs| - 1])
  {
  }

  /** With creation times in order, retention keeps exactly what the policy says: a suffix of the
      segments. */
  lemma {:induction false} RetainIsSuffix(st: LogState, c: Config, now: int) returns (d: nat)
    requires st.segs != [] && CreatedInOrder(st.segs)
    ensures KeptFrom(st.segs, d, c, now) && Retain(st, c, now) == st.(segs := st.segs[d..])
  {
    hide TimeRetained, DropToFit, CreatedInOrder, Young, BytesFrom;
    if |st.segs| == 1 {
      d := 0;
      assert st.segs[0..] == st.segs;
    } else {
      d := TimeKept(st.segs, c, now);
      if c.retentionBytes > 0 {
        var y := d;
        var e := Fitting(st.segs[y..], c.retentionBytes);
        DropTwice(st.segs, y, e);
        d := y + e;
        forall i | y <= i <= d ensures BytesFrom(st.segs, i) == TotalSize(st.segs[y..][i - y..]) {
          DropTwice(st.segs, y, i - y);
          BytesAre(st.segs, i);
        }
      }
    }
  }

  lemma {:induction false} BytesAre(segs: seq<Seg>, i: nat)
    requires i <= |segs|
    ensures BytesFrom(segs, i) == TotalSize(segs[i..])
  {
    TotalIsSize(segs[i..]);
  }

  /** Byte-based retention drops the fewest oldest segments that make the total fit, but never the
      last segment. */
  lemma {:induction false} Fitting(segs: seq<Seg>, limit: int) returns (e: nat)
    requires segs != []
    ensures e < |segs| && DropToFit(segs, limit) == segs[e..]
    ensures TotalSize(segs[e..]) <= limit || e == |segs| - 1
    ensures forall d :: 0 <= d < e ==> TotalSize(segs[d..]) > limit
    decreases |segs|
  {
    hide TotalSize;
    assert segs[0..] == segs;
    if TotalSize(segs) > limit && |segs| > 1 {
      var rest := Fitting(segs[1..], limit);
      e := rest + 1;
      assert segs[1..][rest..] == segs[e..];
      forall d | 0 <= d < e ensures TotalSize(segs[d..]) > limit {
        if d > 0 {
          assert segs[1..][d - 1..] == segs[d..];
        }
      }
    } else {
      e := 0;
    }
  }

  lemma {:induction false} DropTwice(segs: seq<Seg>, d: nat, e: nat)
    requires d + e <= |segs|
    ensures segs[d..][e..] == segs[d + e..]
  {
  }

  /** What retention does to the stored records: the records of the kept segments stay, from the first
      one's base on. */
  ghost predicate Aged(st: LogState, c: Config, now: int, s': Stored)
    requires st.segs != []
  {
    var s := Abs(st.segs);
    exists d: nat ::
      && KeptFrom(st.segs, d, c, now)
      && 0 <= st.segs[d].base - s.start <= |s.recs|
      && s' == Stored(st.segs[d].base, s.recs[st.segs[d].base - s.start..])
  }

  /** With creation times in order, retention drops exactly the records the policy says, keeps the
      active segment, and keeps the order. */
  lemma {:induction false} RetainRefines(st: LogState, c: Config, now: int)
    requires WellFormed(st.segs, c) && CreatedInOrder(st.segs)
    ensures WellFormed(Retain(st, c, now).segs, c)
    ensures CreatedInOrder(Retain(st, c, now).segs)
    ensures Aged(st, c, now, Abs(Retain(st, c, now).segs))
    ensures Retain(st, c, now).segs[|Retain(st, c, now).segs| - 1] == st.segs[|st.segs| - 1]
  {
    hide SegOk, Concat, Live, Retain, KeptFrom;
    var d := RetainIsSuffix(st, c, now);
    assert d < |st.segs| by { KeptPlace(st.segs, d, c, now); }
    SuffixRefines(st.segs, d, c);
  }

  lemma {:induction false} KeptPlace(segs: seq<Seg>, d: nat, c: Config, now: int)
    requires KeptFrom(segs, d, c, now)
    ensures d < |segs|
  {
    hide Young, BytesFrom;
  }

  // ---- Reopening --------------------------------------------------------------------------------------

  /** A sealed segment reopened from its files: the records and index are back, the counters are not. */
  function ReopenSealed(s: Seg, created: int, c: Config): Seg {
    s.(next := s.base, since := 0, indexMax := IndexCap(c), created := created)
  }

  /** The active segment recovered from a file that still holds its first w records whole. */
  function RecoverActive(s: Seg, w: nat, created: int, c: Config): Seg
    requires w <= |s.recs|
  {
    var recs := s.recs[..w];
    Seg(s.base, recs, s.base + w, Book(recs, s.base, c.indexIntervalBytes).since, IndexCap(c), created)
  }

  /** NewLog over the files of a log. */
  function Reopen(st: LogState, w: nat, created: seq<int>, c: Config, now: int): (st': LogState)
    requires st.segs != [] && w <= |st.segs[|st.segs| - 1].recs| && |created| == |st.segs|
    ensures |st'.segs| == |st.segs|
  {
    var n := |st.segs| - 1;
    LogState(seq(n, i requires 0 <= i < n => ReopenSealed(st.segs[i], created[i], c))
             + [RecoverActive(st.segs[n], w, created[n], c)], now)
  }

  /** Closing and reopening loses nothing; a crash that cuts the active file loses exactly the
      records that were not wholly written. */
  lemma {:induction false} ReopenRefines(st: LogState, w: nat, created: seq<int>, c: Config, now: int)
    requires WellFormed(st.segs, c) && Usable(c)
    requires w <= |st.segs[|st.segs| - 1].recs| && |created| == |st.segs|
    ensures var st' := Reopen(st, w, created, c, now);
            var s := Abs(st.segs);
            var lost := |st.segs[|st.segs| - 1].recs| - w;
            && WellFormed(st'.segs, c)
            && lost <= |s.recs| && Abs(st'.segs) == s.(recs := s.recs[..|s.recs| - lost])
            && (forall i :: 0 <= i < |st'.segs| - 1 ==> Stale(st'.segs[i]))
            && (forall i :: 0 <= i < |st'.segs| ==> st'.segs[i].created == created[i]) && st'.activeSince == now
  {
    hide SegOk, Concat, EntriesOf;
    var st' := Reopen(st, w, created, c, now);
    var n := |st.segs| - 1;
    forall i | 0 <= i < |st'.segs| ensures SegOk(st'.segs[i], c) {
      if i < n {
        ReopenSealedOk(st.segs[i], created[i], c);
      } else {
        RecoverActiveOk(st.segs[n], w, created[n], c);
      }
    }
    ConcatSame(st.segs[..n], st'.segs[..n]);
    ConcatLast(st.segs);
    ConcatLast(st'.segs);
  }

  lemma {:induction false} ReopenSealedOk(s: Seg, created: int, c: Config)
    requires SegOk(s, c) && Usable(c)
    ensures SegOk(ReopenSealed(s, created, c), c)
  {
  }

  lemma {:induction false} RecoverActiveOk(s: Seg, w: nat, created: int, c: Config)
    requires SegOk(s, c) && Usable(c) && w <= |s.recs|
    ensures SegOk(RecoverActive(s, w, created, c), c)
    ensures Live(RecoverActive(s, w, created, c), c)
  {
    hide Size, EncodedSize, Fold;
    EntriesOfPrefix(s.recs, w, s.base, c.indexIntervalBytes);
    PrefixAddressable(s.recs, w);
  }

  lemma {:induction false} ConcatSame(a: seq<Seg>, b: seq<Seg>)
    requires |a| == |b| && forall i :: 0 <= i < |a| ==> a[i].recs == b[i].recs
    ensures Concat(a) == Concat(b)
    decreases |a|
  {
    if a != [] {
      ConcatSame(a[..|a| - 1], b[..|b| - 1]);
    }
  }
}
