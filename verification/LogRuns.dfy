/** Whole runs of a partition log: every interleaving of appends, truncations, retention passes and
    reopenings refines one abstract object, and a stored record stays readable, unchanged, for
    as long as nothing that may remove it has happened. */
module LogRuns {
  import opened Bytes
  import opened Records
  import opened SegmentReads
  import opened Segments
  import opened LogSpec
  import opened LogMaintenance
  import opened LogRangeReads

  /** `now`, `nows` and `created` are what the clock and the file system report. A reopening finds
      the first `w` records of the active segment whole. */
  datatype Op =
    | Append(recs: seq<Option<Record>>, nows: seq<int>)
    | Truncating(k: int, now: int)
    | Retention(now: int)
    | Reopening(w: nat, created: seq<int>, now: int)

  function Active(st: LogState): Seg
    requires st.segs != []
  {
    st.segs[|st.segs| - 1]
  }

  /** What a caller may do: offsets stay within int64 and truncation points are not negative. */
  ghost predicate Enabled(st: LogState, op: Op, c: Config) {
    && WellFormed(st.segs, c)
    && match op
       case Append(recs, nows) => |nows| == |recs| && Abs(st.segs).Leo() + |recs| <= MAX_INT64
       case Truncating(k, now) => 0 <= k <= MAX_INT64
       case Retention(now) => true
       case Reopening(w, created, now) => w <= |Active(st).recs| && |created| == |st.segs|
  }

  ghost function Next(st: LogState, op: Op, c: Config): LogState
    requires Enabled(st, op, c) && Usable(c)
  {
    match op
    case Append(recs, nows) => AppendAll(st, recs, nows, c).st
    case Truncating(k, now) => Truncate(st, k, c, now)
    case Retention(now) => Retain(st, c, now)
    case Reopening(w, created, now) => LogMaintenance.Reopen(st, w, created, c, now)
  }

  // ---- Time -------------------------------------------------------------------------------------------

  /** Segments were created in order, none after `clock`. */
  ghost predicate Timely(st: LogState, clock: int) {
    && CreatedInOrder(st.segs)
    && forall i :: 0 <= i < |st.segs| ==> st.segs[i].created <= clock
  }

  /** The times an operation sees do not run backwards from `clock`, and end at `clock'`. */
  ghost predicate Ticks(op: Op, clock: int, clock': int) {
    && clock <= clock'
    && match op
       case Append(recs, nows) =>
         && (forall i :: 0 <= i < |nows| ==> clock <= nows[i] <= clock')
         && (forall i, j :: 0 <= i < j < |nows| ==> nows[i] <= nows[j])
       case Truncating(k, now) => now == clock'
       case Retention(now) => now == clock'
       case Reopening(w, created, now) =>
         && now == clock'
         && (forall i :: 0 <= i < |created| ==> created[i] <= clock')
         && (forall i, j :: 0 <= i < j < |created| ==> created[i] <= created[j])
  }

  /** Cutting a log short and changing its last segment, but not when that was created. */
  lemma {:induction false} TimelyWithLast(segs: seq<Seg>, n: nat, last: Seg, since: int, clock: int, clock': int)
    requires n < |segs| && last.created == segs[n].created
    requires Timely(LogState(segs, since), clock) && clock <= clock'
    ensures Timely(LogState(segs[..n] + [last], since), clock')
  {
    var all := segs[..n] + [last];
    assert forall i :: 0 <= i < |all| ==> all[i].created == segs[i].created;
  }

  lemma {:induction false} TimelyWithFresh(segs: seq<Seg>, extra: Seg, since: int, clock: int)
    requires Timely(LogState(segs, since), clock) && extra.created == clock
    ensures Timely(LogState(segs + [extra], since), clock)
  {
  }

  lemma {:induction false} RotateTimely(st: LogState, c: Config, now: int, clock: int)
    requires WellFormed(st.segs, c) && Usable(c) && Timely(st, clock) && clock <= now
    ensures MaybeRotate(st, c, now).segs != [] && Timely(MaybeRotate(st, c, now), now)
  {
    hide SegOk, Live, RotationDue, EntriesOf, Timely;
    assert Timely(st, now) by { TimelyLater(st, clock, now); }
    if RotationDue(st, c, now) {
      var n := |st.segs| - 1;
      var active := st.segs[n];
      var sealed := active.(indexMax := 8 * |EntriesOf(active, c)|);
      var fresh' := FreshSeg(active.next, c, now);
      assert LogState(st.segs, st.activeSince) == st;
      TimelyWithLast(st.segs, n, sealed, st.activeSince, clock, now);
      TimelyWithFresh(st.segs[..n] + [sealed], fresh', st.activeSince, now);
      assert st.segs[..n] + [sealed] + [fresh'] == st.segs[..n] + [sealed, fresh'];
      TimelySince(st.segs[..n] + [sealed, fresh'], st.activeSince, now, now);
    }
  }

  lemma {:induction false} TimelyLater(st: LogState, clock: int, clock': int)
    requires Timely(st, clock) && clock <= clock'
    ensures Timely(st, clock')
  {
  }

  lemma {:induction false} TimelySince(segs: seq<Seg>, since: int, since': int, clock: int)
    requires Timely(LogState(segs, since), clock)
    ensures Timely(LogState(segs, since'), clock)
  {
  }

  lemma {:induction false} AppendOneTimely(st: LogState, rec: Option<Record>, c: Config, now: int, clock: int)
    requires WellFormed(st.segs, c) && Usable(c) && Timely(st, clock) && clock <= now
    ensures Timely(AppendOne(st, rec, c, now).st, now)
  {
    hide SegOk, Live, MaybeRotate, EntriesOf, Encodable, Size, Timely, Full, Concat;
    TimelyLater(st, clock, now);
    if rec.Some? {
      RoomAfterRotation(st, c, now);
      RotateTimely(st, c, now, clock);
      var rotated := MaybeRotate(st, c, now);
      var n := |rotated.segs| - 1;
      if Refused(rotated.segs[n], rec).None? {
        assert LogState(rotated.segs, rotated.activeSince) == rotated;
        TimelyWithLast(rotated.segs, n, AppendToSeg(rotated.segs[n], rec.value, c), rotated.activeSince, now, now);
      }
    }
  }

  lemma {:induction false} TruncateTimely(st: LogState, k: int, c: Config, now: int, clock: int)
    requires WellFormed(st.segs, c) && Usable(c) && Timely(st, clock) && clock <= now
    ensures Timely(Truncate(st, k, c, now), now)
  {
    hide SegOk, Live, EntriesOf;
    BelowIsPrefix(st.segs, k, c);
    var kept := Below(st.segs, k);
    if kept != [] {
      var n := |kept| - 1;
      assert kept[..n] == st.segs[..n];
      TimelyWithLast(st.segs, n, RebuildSeg(kept[n], k, c), st.activeSince, clock, now);
    }
  }

  lemma {:induction false} AppendTimely(st: LogState, recs: seq<Option<Record>>, nows: seq<int>, c: Config, clock: int, clock': int)
    requires WellFormed(st.segs, c) && Usable(c) && |nows| == |recs| && Abs(st.segs).Leo() + |recs| <= MAX_INT64
    requires Timely(st, clock) && Ticks(Append(recs, nows), clock, clock')
    ensures Timely(AppendAll(st, recs, nows, c).st, clock')
    decreases |recs|
  {
    hide AppendOne, SegOk, Live, Concat;
    if recs != [] {
      AppendOneTimely(st, recs[0], c, nows[0], clock);
      AppendRefines(st, recs[0], c, nows[0]);
      var o := AppendOne(st, recs[0], c, nows[0]);
      if o.result.Appended? {
        AppendTimely(o.st, recs[1..], nows[1..], c, nows[0], clock');
      }
    }
  }

  lemma {:induction false} NextTimely(st: LogState, op: Op, c: Config, clock: int, clock': int)
    requires Enabled(st, op, c) && Usable(c) && Timely(st, clock) && Ticks(op, clock, clock')
    ensures Timely(Next(st, op, c), clock')
  {
    hide SegOk, Live, Concat, EntriesOf, AppendAll, Retain, Truncate;
    match op
    case Append(recs, nows) =>
      AppendTimely(st, recs, nows, c, clock, clock');
    case Truncating(k, now) =>
      TruncateTimely(st, k, c, now, clock);
    case Retention(now) =>
      var d := RetainIsSuffix(st, c, now);
    case Reopening(w, created, now) =>
      ReopenRefines(st, w, created, c, now);
  }

  // ---- One step ------------------------------------------------------------------------------------------

  /** What each operation does to the stored records. Retention drops what the policy says, and a
      reopening loses the records of the active segment that were not wholly on file. */
  ghost predicate Effect(st: LogState, op: Op, s': Stored, c: Config)
    requires st.segs != []
  {
    var s := Abs(st.segs);
    match op
    case Append(recs, _) =>
      exists n ::
        && 0 <= n <= |recs| && MIN_INT64 <= s.Leo() && s.Leo() + n <= MAX_INT64
        && (forall i :: 0 <= i < n ==> Admissible(recs[i]))
        && (n < |recs| && c.segmentBytes <= MAX_UINT32 ==> !Admissible(recs[n]))
        && s' == s.(recs := s.recs + Stamped(recs[..n], s.Leo()))
    case Truncating(k, _) => s' == Cut(s, k)
    case Retention(now) => Aged(st, c, now, s')
    case Reopening(w, _, _) => w <= |Active(st).recs| && LastLost(s, |Active(st).recs| - w, s')
  }

  /** The last `lost` records are gone, and no others. */
  ghost predicate LastLost(s: Stored, lost: nat, s': Stored) {
    lost <= |s.recs| && s' == s.(recs := s.recs[..|s.recs| - lost])
  }

  lemma {:induction false} StepRefines(st: LogState, op: Op, c: Config)
    requires Enabled(st, op, c) && Usable(c) && CreatedInOrder(st.segs) && Abs(st.segs).start >= 0
    ensures var st' := Next(st, op, c);
            && WellFormed(st'.segs, c) && Abs(st'.segs).start >= 0
            && Effect(st, op, Abs(st'.segs), c)
  {
    hide SegOk, Live, Concat, EntriesOf, AppendAll, Retain, Truncate, LogMaintenance.Reopen, Stamped;
    match op
    case Append(recs, nows) =>
      AppendAllRefines(st, recs, nows, c);
    case Truncating(k, now) =>
      TruncateLeaves(st, k, c, now);
    case Retention(now) =>
      RetainRefines(st, c, now);
    case Reopening(w, created, now) =>
      ReopenRefines(st, w, created, c, now);
  }

  // ---- Runs ------------------------------------------------------------------------------------------------

  /** A run from an empty directory. */
  ghost predicate Run(states: seq<LogState>, ops: seq<Op>, clocks: seq<int>, c: Config) {
    && |states| == |ops| + 1 == |clocks| && Usable(c)
    && states[0] == LogState([FreshSeg(0, c, clocks[0])], clocks[0])
    && forall i :: 0 <= i < |ops| ==>
         && Enabled(states[i], ops[i], c) && Ticks(ops[i], clocks[i], clocks[i + 1])
         && states[i + 1] == Next(states[i], ops[i], c)
  }

  lemma {:induction false} RunInvariant(states: seq<LogState>, ops: seq<Op>, clocks: seq<int>, c: Config, i: nat)
    requires Run(states, ops, clocks, c) && i < |states|
    ensures WellFormed(states[i].segs, c) && Timely(states[i], clocks[i]) && Abs(states[i].segs).start >= 0
  {
    hide SegOk, Live, Concat, EntriesOf, Next, Ticks;
    if i == 0 {
      FreshOk(0, c, clocks[0]);
    } else {
      RunInvariant(states, ops, clocks, c, i - 1);
      assert states[i] == Next(states[i - 1], ops[i - 1], c);
      StepRefines(states[i - 1], ops[i - 1], c);
      NextTimely(states[i - 1], ops[i - 1], c, clocks[i - 1], clocks[i]);
    }
  }

  /** The partition log refines the abstract one: in every run, every operation has exactly its
      promised effect on the stored records. */
  lemma {:induction false} RunRefines(states: seq<LogState>, ops: seq<Op>, clocks: seq<int>, c: Config, i: nat)
    requires Run(states, ops, clocks, c) && i < |ops|
    ensures WellFormed(states[i].segs, c) && WellFormed(states[i + 1].segs, c)
    ensures Effect(states[i], ops[i], Abs(states[i + 1].segs), c)
  {
    hide SegOk, Live, Concat, EntriesOf, Next, Ticks, Effect;
    RunInvariant(states, ops, clocks, c, i);
    StepRefines(states[i], ops[i], c);
  }

  // ---- Logs that were never reopened ---------------------------------------------------------------------

  lemma {:induction false} RotateLive(st: LogState, c: Config, now: int)
    requires st.segs != [] && Usable(c) && AllLive(st.segs, c)
    ensures AllLive(MaybeRotate(st, c, now).segs, c)
  {
    hide RotationDue;
    assert FramesOf([]) == [];
  }

  lemma {:induction false} AppendOneLive(st: LogState, rec: Option<Record>, c: Config, now: int)
    requires WellFormed(st.segs, c) && Usable(c) && AllLive(st.segs, c) && Abs(st.segs).Leo() < MAX_INT64
    ensures AllLive(AppendOne(st, rec, c, now).st.segs, c)
  {
    hide SegOk, Live, MaybeRotate, EntriesOf, Concat, Refused, AppendToSeg;
    RotateLive(st, c, now);
    RoomAfterRotation(st, c, now);
    AppendRefines(st, rec, c, now);
    var o, rotated := AppendOne(st, rec, c, now), MaybeRotate(st, c, now);
    if o.result.Appended? {
      LastReplacedLive(rotated.segs, o.st.segs, c);
    }
  }

  lemma {:induction false} LastReplacedLive(segs: seq<Seg>, segs': seq<Seg>, c: Config)
    requires AllLive(segs, c) && WellFormed(segs', c) && |segs'| == |segs| && segs'[..|segs| - 1] == segs[..|segs| - 1]
    ensures AllLive(segs', c)
  {
    hide SegOk, Live;
    assert forall i | 0 <= i < |segs| - 1 :: segs'[i] == segs'[..|segs| - 1][i] == segs[i];
  }

  lemma {:induction false} AppendLive(st: LogState, recs: seq<Option<Record>>, nows: seq<int>, c: Config)
    requires WellFormed(st.segs, c) && Usable(c) && AllLive(st.segs, c)
    requires |nows| == |recs| && Abs(st.segs).Leo() + |recs| <= MAX_INT64
    ensures AllLive(AppendAll(st, recs, nows, c).st.segs, c)
    decreases |recs|
  {
    hide AppendOne, SegOk, Live, Concat, AllLive;
    if recs != [] {
      AppendOneLive(st, recs[0], c, nows[0]);
      AppendRefines(st, recs[0], c, nows[0]);
      var o := AppendOne(st, recs[0], c, nows[0]);
      if o.result.Appended? {
        AppendLive(o.st, recs[1..], nows[1..], c);
      }
    }
  }

  lemma {:induction false} TruncateLive(st: LogState, k: int, c: Config, now: int)
    requires WellFormed(st.segs, c) && Usable(c) && AllLive(st.segs, c)
    requires WellFormed(Truncate(st, k, c, now).segs, c)
    ensures AllLive(Truncate(st, k, c, now).segs, c)
  {
    hide SegOk, Live, RebuildSeg;
    BelowIsPrefix(st.segs, k, c);
  }

  lemma {:induction false} NextLive(st: LogState, op: Op, c: Config)
    requires Enabled(st, op, c) && Usable(c) && CreatedInOrder(st.segs) && Abs(st.segs).start >= 0
    requires AllLive(st.segs, c) && !op.Reopening?
    ensures AllLive(Next(st, op, c).segs, c)
  {
    hide SegOk, Live, Concat, EntriesOf, AppendAll, Retain, Truncate, Effect;
    match op
    case Append(recs, nows) =>
      AppendLive(st, recs, nows, c);
    case Truncating(k, now) =>
      StepRefines(st, op, c);
      TruncateLive(st, k, c, now);
    case Retention(now) =>
      var d := RetainIsSuffix(st, c, now);
  }

  /** Until its first reopening a log keeps the counters of all its segments. */
  lemma {:induction false} NeverReopenedLive(states: seq<LogState>, ops: seq<Op>, clocks: seq<int>, c: Config, i: nat)
    requires Run(states, ops, clocks, c) && i < |states| && (forall m :: 0 <= m < i ==> !ops[m].Reopening?)
    ensures AllLive(states[i].segs, c)
  {
    hide SegOk, Live, Concat, EntriesOf, Next, Ticks, AllLive;
    if i == 0 {
      FreshOk(0, c, clocks[0]);
      LoneLive(states[0].segs, c);
    } else {
      NeverReopenedLive(states, ops, clocks, c, i - 1);
      RunInvariant(states, ops, clocks, c, i - 1);
      NextLive(states[i - 1], ops[i - 1], c);
    }
  }

  lemma {:induction false} LoneLive(segs: seq<Seg>, c: Config)
    requires WellFormed(segs, c) && |segs| == 1
    ensures AllLive(segs, c)
  {
  }

  /** In every run without a reopening, however often the log was rotated, truncated or aged out, a
      budget that covers the rest of the log reads exactly the rest of the log. */
  lemma {:induction false} NeverReopenedReadsAll(states: seq<LogState>, ops: seq<Op>, clocks: seq<int>, c: Config, i: nat, offset: int, maxBytes: int32)
    requires Run(states, ops, clocks, c) && i < |states| && (forall m :: 0 <= m < i ==> !ops[m].Reopening?)
    requires states[i].segs != [] && maxBytes > 0
    requires var s := Abs(states[i].segs); s.start <= offset <= s.Leo() && Size(s.recs[offset - s.start..]) <= maxBytes
    ensures ReadLog(states[i].segs, offset, maxBytes) == Range(Abs(states[i].segs).recs[offset - Abs(states[i].segs).start..], None)
  {
    hide SegOk, Live, Concat, EntriesOf, Next, Ticks, AllLive, ReadLog, Size, Run;
    NeverReopenedLive(states, ops, clocks, c, i);
    RunInvariant(states, ops, clocks, c, i);
    var segs := states[i].segs;
    var at := FindCovering(segs, offset, |segs| - 1, c);
    ReadsWholeSuffix(segs, at, offset, maxBytes, c);
  }

  // ---- What stays ------------------------------------------------------------------------------------------

  /** Neither truncates at or below the offset nor loses records at a reopening. */
  ghost predicate Spares(st: LogState, op: Op, offset: int)
    requires st.segs != []
  {
    match op
    case Truncating(k, _) => offset < k
    case Reopening(w, _, _) => w == |Active(st).recs|
    case _ => true
  }

  /** An operation that spares an offset leaves the record there as it was, or drops it from the
      front of the log. */
  lemma {:induction false} SparedStep(st: LogState, op: Op, c: Config, offset: int)
    requires Enabled(st, op, c) && Usable(c) && CreatedInOrder(st.segs) && Abs(st.segs).start >= 0
    requires Spares(st, op, offset) && Lookup(Abs(st.segs), offset).Ok?
    requires Next(st, op, c).segs != []
    ensures var s := Abs(st.segs);
            var s' := Abs(Next(st, op, c).segs);
            s'.start <= offset ==> Lookup(s', offset) == Lookup(s, offset)
    ensures Abs(st.segs).start <= Abs(Next(st, op, c).segs).start
  {
    hide SegOk, Live, Concat, EntriesOf, AppendAll, Retain, Truncate, LogMaintenance.Reopen, Stamped;
    StepRefines(st, op, c);
    if op.Reopening? {
      ReopenRefines(st, op.w, op.created, c, op.now);
    }
  }

  /** Log immutability over whole runs: between two moments with no truncation at or below an offset
      and no lossy crash, a record stored under that offset is still there, unchanged, unless
      retention has moved the start of the log past it. */
  lemma {:induction false} StoredRecordsStay(states: seq<LogState>, ops: seq<Op>, clocks: seq<int>, c: Config, i: nat, j: nat, offset: int)
    requires Run(states, ops, clocks, c) && i <= j < |states|
    requires forall m :: i <= m < j ==> states[m].segs != [] && Spares(states[m], ops[m], offset)
    requires states[i].segs != [] && states[j].segs != []
    requires Lookup(Abs(states[i].segs), offset).Ok?
    ensures Abs(states[j].segs).start <= offset ==> Lookup(Abs(states[j].segs), offset) == Lookup(Abs(states[i].segs), offset)
    ensures Abs(states[i].segs).start <= Abs(states[j].segs).start || offset < Abs(states[j].segs).start
    decreases j - i
  {
    hide SegOk, Live, Concat, EntriesOf, Next, Ticks, Spares, Lookup;
    if i < j {
      RunInvariant(states, ops, clocks, c, j - 1);
      StoredRecordsStay(states, ops, clocks, c, i, j - 1, offset);
      var st := states[j - 1];
      assert states[j] == Next(st, ops[j - 1], c);
      if Abs(st.segs).start <= offset {
        SparedStep(st, ops[j - 1], c, offset);
      } else {
        GoneStays(st, ops[j - 1], c, offset);
      }
    }
  }

  /** The start of the log does not come back down unless a truncation brings it down. */
  lemma {:induction false} GoneStays(st: LogState, op: Op, c: Config, offset: int)
    requires Enabled(st, op, c) && Usable(c) && CreatedInOrder(st.segs) && Abs(st.segs).start >= 0
    requires Spares(st, op, offset) && offset < Abs(st.segs).start
    requires Next(st, op, c).segs != []
    ensures offset < Abs(Next(st, op, c).segs).start
  {
    hide SegOk, Live, Concat, EntriesOf, AppendAll, Retain, Truncate, LogMaintenance.Reopen, Stamped;
    StepRefines(st, op, c);
  }
}
