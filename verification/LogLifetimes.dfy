/** When segments begin and end over whole runs of a partition log: when an append rotates, how large
    segments get, and that every segment is dated by the clock at which it was opened. */
module LogLifetimes {
  import opened Bytes
  import opened Records
  import opened IndexAccounting
  import opened SegmentReads
  import opened Segments
  import opened LogSpec
  import opened LogMaintenance
  import opened LogRuns

  // ---- Rotation --------------------------------------------------------------------------------------

  /** The active segment has reached its size, has no room for another index entry, or holds records and
      was opened too long ago. */
  predicate Outgrown(s: Seg, since: int, c: Config, now: int) {
    || Size(s.recs) >= c.segmentBytes
    || s.indexMax / 8 <= |EntriesOf(s, c)|
    || (s.recs != [] && c.segmentMs > 0 && since + c.segmentMs <= now)
  }

  /** An append opens a new segment exactly when the active one is outgrown, and then at the end of the
      log; the record goes to the last segment in either case. */
  lemma {:induction false} RotatesIff(st: LogState, rec: Record, c: Config, now: int)
    requires WellFormed(st.segs, c) && Usable(c) && Abs(st.segs).Leo() < MAX_INT64
    ensures var st' := AppendOne(st, Some(rec), c, now).st;
            var n := |st.segs| - 1;
            if Outgrown(Active(st), st.activeSince, c, now)
            then && |st'.segs| == n + 2 && st'.segs[n] == Active(st).(indexMax := 8 * |EntriesOf(Active(st), c)|)
                 && st'.segs[n + 1].base == Abs(st.segs).Leo() && st'.activeSince == st'.segs[n + 1].created == now
            else && |st'.segs| == n + 1 && st'.segs[n].base == Active(st).base && Active(st).recs <= st'.segs[n].recs
                 && st'.activeSince == st.activeSince && st'.segs[n].created == Active(st).created
  {
    hide Size, EncodedSize, EntriesOf, Concat;
    var s := Active(st);
    assert SegOk(s, c);
    RoomAfterRotation(st, c, now);
  }

  // ---- Sizes -----------------------------------------------------------------------------------------

  /** Without its last record the segment is below its size. */
  ghost predicate Bounded(s: Seg, c: Config) {
    forall n :: 0 <= n < |s.recs| ==> Size(s.recs[..n]) < c.segmentBytes
  }

  ghost predicate AllBounded(segs: seq<Seg>, c: Config) {
    forall i :: 0 <= i < |segs| ==> Bounded(segs[i], c)
  }

  lemma {:induction false} CutBounded(s: Seg, s': Seg, c: Config)
    requires Bounded(s, c) && s'.recs <= s.recs
    ensures Bounded(s', c)
  {
    hide Size;
    forall n | 0 <= n < |s'.recs| ensures Size(s'.recs[..n]) < c.segmentBytes {
      assert s'.recs[..n] == s.recs[..n];
    }
  }

  lemma {:induction false} GrownBounded(s: Seg, s': Seg, r: Record, c: Config)
    requires Bounded(s, c) && s'.recs == s.recs + [r] && Size(s.recs) < c.segmentBytes
    ensures Bounded(s', c)
  {
    hide Size;
    forall n | 0 <= n < |s'.recs| ensures Size(s'.recs[..n]) < c.segmentBytes {
      if n < |s.recs| {
        assert s'.recs[..n] == s.recs[..n];
      } else {
        assert s'.recs[..n] == s.recs;
      }
    }
  }

  lemma {:induction false} NoRecordsBounded(s: Seg, c: Config)
    requires s.recs == []
    ensures Bounded(s, c)
  {
  }

  lemma {:induction false} RotateBounded(st: LogState, c: Config, now: int)
    requires WellFormed(st.segs, c) && Usable(c) && AllBounded(st.segs, c)
    ensures AllBounded(MaybeRotate(st, c, now).segs, c)
  {
    hide SegOk, Live, Bounded, EntriesOf, RotationDue;
    if RotationDue(st, c, now) {
      var active := st.segs[|st.segs| - 1];
      CutBounded(active, SealedSeg(active, c), c);
      NoRecordsBounded(FreshSeg(active.next, c, now), c);
    }
  }

  lemma {:induction false} AppendOneBounded(st: LogState, rec: Option<Record>, c: Config, now: int)
    requires WellFormed(st.segs, c) && Usable(c) && AllBounded(st.segs, c)
    ensures AllBounded(AppendOne(st, rec, c, now).st.segs, c)
  {
    hide SegOk, Live, Bounded, EntriesOf, MaybeRotate, Size;
    RotateBounded(st, c, now);
    if rec.Some? {
      RoomAfterRotation(st, c, now);
      var rotated := MaybeRotate(st, c, now);
      var active := rotated.segs[|rotated.segs| - 1];
      GrownBounded(active, AppendToSeg(active, rec.value, c), Stamp(rec.value, active.next), c);
    }
  }

  lemma {:induction false} AppendBounded(st: LogState, recs: seq<Option<Record>>, nows: seq<int>, c: Config)
    requires WellFormed(st.segs, c) && Usable(c) && AllBounded(st.segs, c)
    requires |nows| == |recs| && Abs(st.segs).Leo() + |recs| <= MAX_INT64
    ensures AllBounded(AppendAll(st, recs, nows, c).st.segs, c)
    decreases |recs|
  {
    hide AppendOne, SegOk, Live, Concat, AllBounded;
    if recs != [] {
      AppendOneBounded(st, recs[0], c, nows[0]);
      AppendRefines(st, recs[0], c, nows[0]);
      var o := AppendOne(st, recs[0], c, nows[0]);
      if o.result.Appended? {
        AppendBounded(o.st, recs[1..], nows[1..], c);
      }
    }
  }

  lemma {:induction false} TruncateBounded(st: LogState, k: int, c: Config, now: int)
    requires WellFormed(st.segs, c) && Usable(c) && AllBounded(st.segs, c)
    ensures AllBounded(Truncate(st, k, c, now).segs, c)
  {
    hide SegOk, Live, Bounded;
    BelowIsPrefix(st.segs, k, c);
    var kept := Below(st.segs, k);
    if kept == [] {
      NoRecordsBounded(FreshSeg(k, c, now), c);
    } else {
      var n := |kept| - 1;
      CutBounded(kept[n], RebuildSeg(kept[n], k, c), c);
    }
  }

  lemma {:induction false} ReopenBounded(st: LogState, w: nat, created: seq<int>, c: Config, now: int)
    requires st.segs != [] && AllBounded(st.segs, c) && w <= |Active(st).recs| && |created| == |st.segs|
    ensures AllBounded(LogMaintenance.Reopen(st, w, created, c, now).segs, c)
  {
    hide Bounded;
    var st' := LogMaintenance.Reopen(st, w, created, c, now);
    forall i | 0 <= i < |st'.segs| ensures Bounded(st'.segs[i], c) {
      CutBounded(st.segs[i], st'.segs[i], c);
    }
  }

  lemma {:induction false} NextBounded(st: LogState, op: Op, c: Config)
    requires Enabled(st, op, c) && Usable(c) && CreatedInOrder(st.segs) && AllBounded(st.segs, c)
    ensures AllBounded(Next(st, op, c).segs, c)
  {
    hide SegOk, Live, Concat, EntriesOf, AppendAll, Retain, Truncate, LogMaintenance.Reopen, Bounded, KeptFrom;
    match op
    case Append(recs, nows) => AppendBounded(st, recs, nows, c);
    case Truncating(k, now) => TruncateBounded(st, k, c, now);
    case Retention(now) =>
      var d := RetainIsSuffix(st, c, now);
      KeptPlace(st.segs, d, c, now);
    case Reopening(w, created, now) => ReopenBounded(st, w, created, c, now);
  }

  /** Over every run no segment ever outgrows its size by more than its last record. */
  lemma {:induction false} SegmentsBounded(states: seq<LogState>, ops: seq<Op>, clocks: seq<int>, c: Config, i: nat)
    requires Run(states, ops, clocks, c) && i < |states|
    ensures AllBounded(states[i].segs, c)
  {
    hide SegOk, Live, Concat, EntriesOf, Next, Ticks, AllBounded;
    if i == 0 {
      EmptyBounded(states[0].segs, c);
    } else {
      SegmentsBounded(states, ops, clocks, c, i - 1);
      RunInvariant(states, ops, clocks, c, i - 1);
      NextBounded(states[i - 1], ops[i - 1], c);
    }
  }

  lemma {:induction false} EmptyBounded(segs: seq<Seg>, c: Config)
    requires |segs| == 1 && segs[0].recs == []
    ensures AllBounded(segs, c)
  {
  }

  // ---- Dates -----------------------------------------------------------------------------------------

  /** The segment was there before, or is dated between the two clock readings. */
  ghost predicate Dated(s: Seg, before: seq<Seg>, clock: int, clock': int) {
    || (exists m :: 0 <= m < |before| && before[m].base == s.base && before[m].created == s.created)
    || clock <= s.created <= clock'
  }

  ghost predicate AllDated(segs: seq<Seg>, before: seq<Seg>, clock: int, clock': int) {
    forall i :: 0 <= i < |segs| ==> Dated(segs[i], before, clock, clock')
  }

  /** The active segment's age is counted from when it was opened. */
  ghost predicate SinceDated(st: LogState, st': LogState, clock: int, clock': int)
    requires st.segs != [] && st'.segs != []
  {
    (st'.activeSince == st.activeSince && Active(st').base == Active(st).base) || clock <= st'.activeSince <= clock'
  }

  lemma {:induction false} DatedTwice(a: seq<Seg>, b: seq<Seg>, d: seq<Seg>, t: int, u: int, v: int)
    requires AllDated(b, a, t, u) && AllDated(d, b, u, v) && t <= u <= v
    ensures AllDated(d, a, t, v)
  {
    forall i | 0 <= i < |d| ensures Dated(d[i], a, t, v) {
      assert Dated(d[i], b, u, v);
      if m :| 0 <= m < |b| && b[m].base == d[i].base && b[m].created == d[i].created {
        assert Dated(b[m], a, t, u);
      }
    }
  }

  lemma {:induction false} AppendOneDated(st: LogState, rec: Option<Record>, c: Config, now: int)
    requires WellFormed(st.segs, c) && Usable(c)
    ensures var st' := AppendOne(st, rec, c, now).st;
            st'.segs != [] && AllDated(st'.segs, st.segs, now, now) && SinceDated(st, st', now, now)
  {
    hide SegOk, Live, EntriesOf, MaybeRotate, Refused, AllDated;
    if rec.Some? {
      RoomAfterRotation(st, c, now);
      RotateDated(st, c, now);
      var rotated, st' := MaybeRotate(st, c, now), AppendOne(st, rec, c, now).st;
      assert forall i | 0 <= i < |st'.segs| :: st'.segs[i].base == rotated.segs[i].base && st'.segs[i].created == rotated.segs[i].created;
      SameDates(st'.segs, rotated.segs, st.segs, now, now);
    } else {
      StillDated(st.segs, now, now);
    }
  }

  lemma {:induction false} SameDates(a: seq<Seg>, b: seq<Seg>, before: seq<Seg>, t: int, u: int)
    requires |a| == |b| && (forall i :: 0 <= i < |a| ==> a[i].base == b[i].base && a[i].created == b[i].created)
    requires AllDated(b, before, t, u)
    ensures AllDated(a, before, t, u)
  {
    forall i | 0 <= i < |a| ensures Dated(a[i], before, t, u) {
      assert Dated(b[i], before, t, u);
    }
  }

  lemma {:induction false} RotateDated(st: LogState, c: Config, now: int)
    requires st.segs != [] && Usable(c)
    ensures var st' := MaybeRotate(st, c, now);
            st'.segs != [] && AllDated(st'.segs, st.segs, now, now) && SinceDated(st, st', now, now)
  {
    hide RotationDue, EntriesOf;
    var st' := MaybeRotate(st, c, now);
    forall i | 0 <= i < |st'.segs| ensures Dated(st'.segs[i], st.segs, now, now) {
      if i < |st.segs| {
        assert st.segs[i].base == st'.segs[i].base && st.segs[i].created == st'.segs[i].created;
      }
    }
  }

  lemma {:induction false} AppendDated(st: LogState, recs: seq<Option<Record>>, nows: seq<int>, c: Config, clock: int, clock': int)
    requires WellFormed(st.segs, c) && Usable(c) && |nows| == |recs| && Abs(st.segs).Leo() + |recs| <= MAX_INT64
    requires Ticks(Append(recs, nows), clock, clock')
    ensures var st' := AppendAll(st, recs, nows, c).st;
            st'.segs != [] && AllDated(st'.segs, st.segs, clock, clock') && SinceDated(st, st', clock, clock')
    decreases |recs|
  {
    hide AppendOne, SegOk, Live, Concat, AllDated, WellFormed;
    NonEmpty(st.segs, c);
    if recs == [] {
      StillDated(st.segs, clock, clock');
    } else {
      AppendOneDated(st, recs[0], c, nows[0]);
      AppendRefines(st, recs[0], c, nows[0]);
      var o := AppendOne(st, recs[0], c, nows[0]);
      Widened(o.st.segs, st.segs, nows[0], nows[0], clock, nows[0]);
      if o.result.Appended? {
        AppendDated(o.st, recs[1..], nows[1..], c, nows[0], clock');
        var st' := AppendAll(o.st, recs[1..], nows[1..], c).st;
        DatedTwice(st.segs, o.st.segs, st'.segs, clock, nows[0], clock');
      } else {
        Widened(o.st.segs, st.segs, nows[0], nows[0], clock, clock');
      }
    }
  }

  lemma {:induction false} NonEmpty(segs: seq<Seg>, c: Config)
    requires WellFormed(segs, c)
    ensures segs != []
  {
  }

  lemma {:induction false} StillDated(segs: seq<Seg>, t: int, u: int)
    ensures AllDated(segs, segs, t, u)
  {
    assert forall i | 0 <= i < |segs| :: Dated(segs[i], segs, t, u);
  }

  lemma {:induction false} Widened(segs: seq<Seg>, before: seq<Seg>, t: int, u: int, t': int, u': int)
    requires AllDated(segs, before, t, u) && t' <= t && u <= u'
    ensures AllDated(segs, before, t', u')
  {
    forall i | 0 <= i < |segs| ensures Dated(segs[i], before, t', u') {
      assert Dated(segs[i], before, t, u);
    }
  }

  lemma {:induction false} NextDated(st: LogState, op: Op, c: Config, clock: int, clock': int)
    requires Enabled(st, op, c) && Usable(c) && CreatedInOrder(st.segs) && Ticks(op, clock, clock') && !op.Reopening?
    ensures var st' := Next(st, op, c);
            st'.segs != [] && AllDated(st'.segs, st.segs, clock, clock') && SinceDated(st, st', clock, clock')
  {
    hide SegOk, Live, Concat, EntriesOf, AppendAll, Retain, KeptFrom, RebuildSeg;
    match op
    case Append(recs, nows) => AppendDated(st, recs, nows, c, clock, clock');
    case Truncating(k, now) => TruncateDated(st, k, c, now, clock);
    case Retention(now) =>
      var d := RetainIsSuffix(st, c, now);
      KeptPlace(st.segs, d, c, now);
      StillDated(st.segs, clock, clock');
  }

  lemma {:induction false} TruncateDated(st: LogState, k: int, c: Config, now: int, clock: int)
    requires WellFormed(st.segs, c) && Usable(c) && clock <= now
    ensures var st' := Truncate(st, k, c, now);
            st'.segs != [] && AllDated(st'.segs, st.segs, clock, now) && SinceDated(st, st', clock, now)
  {
    hide SegOk, Live, RebuildSeg, WellFormed;
    BelowIsPrefix(st.segs, k, c);
    var kept, st' := Below(st.segs, k), Truncate(st, k, c, now);
    if kept != [] {
      RebuildDate(kept[|kept| - 1], k, c);
      StillDated(st.segs, clock, now);
      SameDates(st'.segs, st.segs[..|kept|], st.segs, clock, now);
    }
  }

  lemma {:induction false} RebuildDate(s: Seg, k: int, c: Config)
    ensures RebuildSeg(s, k, c).base == s.base && RebuildSeg(s, k, c).created == s.created
  {
  }

  /** Between any two moments of a run without a reopening, every segment that was not there at the
      first is dated by a clock reading in between. With the retention policy this says how long a
      segment is safe: nothing opened from that moment on goes by age within the retention time. */
  lemma {:induction false} SegmentsDated(states: seq<LogState>, ops: seq<Op>, clocks: seq<int>, c: Config, i: nat, j: nat)
    requires Run(states, ops, clocks, c) && i <= j < |states| && (forall m :: i <= m < j ==> !ops[m].Reopening?)
    ensures clocks[i] <= clocks[j] && states[j].segs != [] && states[i].segs != []
    ensures AllDated(states[j].segs, states[i].segs, clocks[i], clocks[j])
    decreases j
  {
    hide SegOk, Live, Concat, EntriesOf, Next, AllDated, SinceDated;
    RunInvariant(states, ops, clocks, c, j);
    if i == j {
      StillDated(states[j].segs, clocks[i], clocks[j]);
    } else {
      SegmentsDated(states, ops, clocks, c, i, j - 1);
      RunInvariant(states, ops, clocks, c, j - 1);
      assert Ticks(ops[j - 1], clocks[j - 1], clocks[j]);
      NextDated(states[j - 1], ops[j - 1], c, clocks[j - 1], clocks[j]);
      DatedTwice(states[i].segs, states[j - 1].segs, states[j].segs, clocks[i], clocks[j - 1], clocks[j]);
    }
  }

  /** So a log that is never reopened and has no byte limit loses nothing to retention within the
      retention time of its first opening. */
  lemma {:induction false} NothingAgesEarly(states: seq<LogState>, ops: seq<Op>, clocks: seq<int>, c: Config, j: nat)
    requires Run(states, ops, clocks, c) && j < |ops| && (forall m :: 0 <= m < j ==> !ops[m].Reopening?)
    requires ops[j].Retention? && c.retentionBytes <= 0 && (c.retentionMs <= 0 || ops[j].now - clocks[0] < c.retentionMs)
    ensures states[j + 1] == states[j]
  {
    hide SegOk, Live, Concat, EntriesOf, Retain, KeptFrom, AllDated;
    SegmentsDated(states, ops, clocks, c, 0, j);
    RunInvariant(states, ops, clocks, c, j);
    var d := RetainIsSuffix(states[j], c, ops[j].now);
    AllYoung(states[j].segs, states[0].segs[0], d, c, ops[j].now, clocks[0], clocks[j]);
  }

  lemma {:induction false} AllYoung(segs: seq<Seg>, first: Seg, d: nat, c: Config, now: int, clock: int, clock': int)
    requires AllDated(segs, [first], clock, clock') && first.created == clock && KeptFrom(segs, d, c, now)
    requires c.retentionBytes <= 0 && (c.retentionMs <= 0 || now - clock < c.retentionMs)
    ensures d == 0 && segs[d..] == segs
  {
    assert segs != [] ==> Dated(segs[0], [first], clock, clock');
  }
}
