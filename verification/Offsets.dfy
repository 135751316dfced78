/** Committed consumer offsets (internal/coordinator/offsets.go): a cache over logs, and the replay
    that rebuilds it. */
module Offsets {
  import opened Bytes
  import opened Records
  import opened Names
  import opened OffsetKeys
  import opened IndexAccounting
  import opened SegmentReads
  import opened Segments
  import opened LogSpec
  import opened LogMaintenance
  import opened LogRangeReads

  /** FNV-1a, of which only the result's range matters here. */
  const Fnv32a: seq<byte> -> uint32

  /** Start's read budget. */
  const REPLAY_BYTES: int32 := 0x4000_0000

  type Cache = map<Name, int>

  datatype Commit = Commit(group: Name, topic: Name, partition: int32, offset: int64, timestamp: int64, now: int)

  datatype Store = Store(cache: Cache, logs: seq<LogState>)

  /** The log a group's commits go to. */
  function Home(group: Name, n: nat): (i: nat)
    requires n > 0
    ensures i < n
  {
    Fnv32a(group) % n
  }

  function KeyOf(m: Commit): Name { Key(m.group, m.topic, m.partition) }

  function RecordOf(m: Commit): Record { Record(0, m.timestamp, 0, Some(KeyOf(m)), Some(PutI64(m.offset))) }

  /** Undo the cache update of a commit whose append failed. */
  function RolledBack(cache: Cache, key: Name, before: Cache): Cache {
    if key in before then cache[key := before[key]] else cache - {key}
  }

  lemma {:induction false} RollbackRestores(before: Cache, key: Name, value: int)
    ensures RolledBack(before[key := value], key, before) == before
  {
  }

  ghost predicate LogsOk(logs: seq<LogState>, c: Config) {
    && Usable(c) && |logs| > 0
    && forall i :: 0 <= i < |logs| ==>
         WellFormed(logs[i].segs, c) && Abs(logs[i].segs).start == 0 && Abs(logs[i].segs).Leo() < MAX_INT64
  }

  function Committed(s: Store, m: Commit, c: Config): Store
    requires LogsOk(s.logs, c)
  {
    var i := Home(m.group, |s.logs|);
    var o := AppendOne(s.logs[i], Some(RecordOf(m)), c, m.now);
    var cached := s.cache[KeyOf(m) := m.offset as int];
    Store(if o.result.Appended? then cached else RolledBack(cached, KeyOf(m), s.cache), s.logs[i := o.st])
  }

  // ---- Replay ----------------------------------------------------------------------------------------

  /** One record of the replay: records without a key or a full value are passed over. */
  function Applied(cache: Cache, r: Record): Cache {
    if r.key.None? || |r.key.value| == 0 || r.value.None? || |r.value.value| < 8 then cache
    else cache[r.key.value := GetI64(r.value.value[..8]) as int]
  }

  function Replayed(cache: Cache, recs: seq<Record>): Cache {
    if recs == [] then cache else Applied(Replayed(cache, recs[..|recs| - 1]), recs[|recs| - 1])
  }

  /** The first k logs, one after another. */
  function ReplayedLogs(logs: seq<seq<Record>>, k: nat): Cache
    requires k <= |logs|
  {
    if k == 0 then map[] else Replayed(ReplayedLogs(logs, k - 1), logs[k - 1])
  }

  lemma {:induction false} ReplayedConcat(cache: Cache, a: seq<Record>, b: seq<Record>)
    ensures Replayed(cache, a + b) == Replayed(Replayed(cache, a), b)
    decreases |b|
  {
    hide Applied;
    if b == [] {
      assert a + b == a;
    } else {
      ReplayedConcat(cache, a, b[..|b| - 1]);
      assert (a + b)[..|a + b| - 1] == a + b[..|b| - 1];
    }
  }

  lemma {:induction false} CommitApplies(cache: Cache, m: Commit, offset: int64)
    ensures Applied(cache, Stamp(RecordOf(m), offset)) == cache[KeyOf(m) := m.offset as int]
  {
    hide Key, GetI64, PutI64;
    assert PutI64(m.offset)[..8] == PutI64(m.offset);
    I64RoundTrip(m.offset);
  }

  // ---- Each key has one log --------------------------------------------------------------------------

  /** The key belongs to log i: some group hashed there commits it under a colon-free topic. */
  ghost predicate KeyAt(k: Name, i: nat, n: nat)
    requires n > 0
  {
    exists g: Name, t: Name, p: int :: COLON !in t && k == Key(g, t, p) && Home(g, n) == i
  }

  lemma {:induction false} OneHome(k: Name, i: nat, j: nat, n: nat)
    requires n > 0 && KeyAt(k, i, n) && KeyAt(k, j, n)
    ensures i == j
  {
    hide Key;
    var g: Name, t: Name, p: int :| COLON !in t && k == Key(g, t, p) && Home(g, n) == i;
    var g': Name, t': Name, p': int :| COLON !in t' && k == Key(g', t', p') && Home(g', n) == j;
    KeyInjective(g, t, p, g', t', p');
  }

  /** Every record of log i carries a key that belongs there. */
  ghost predicate AtHome(recs: seq<Record>, i: nat, n: nat)
    requires n > 0
  {
    forall k :: 0 <= k < |recs| ==> recs[k].key.Some? && KeyAt(recs[k].key.value, i, n)
  }

  function Stored(logs: seq<LogState>): (rs: seq<seq<Record>>)
    requires forall i :: 0 <= i < |logs| ==> logs[i].segs != []
    ensures |rs| == |logs| && forall i :: 0 <= i < |logs| ==> rs[i] == Abs(logs[i].segs).recs
  {
    seq(|logs|, i requires 0 <= i < |logs| => Abs(logs[i].segs).recs)
  }

  /** The record sets a key of the cache. */
  predicate Writes(r: Record, key: Name) {
    r.key == Some(key) && |key| > 0 && r.value.Some? && |r.value.value| >= 8
  }

  ghost predicate WrittenIn(recs: seq<Record>, key: Name) {
    exists n :: 0 <= n < |recs| && Writes(recs[n], key)
  }

  /** Some log after log i, among the first k, sets the key. */
  ghost predicate WrittenBeyond(logs: seq<seq<Record>>, i: nat, k: nat, key: Name)
    requires k <= |logs|
  {
    exists j :: i < j < k && WrittenIn(logs[j], key)
  }

  /** Replaying records over a cache that differs in one key: they overwrite it or leave it. */
  lemma {:induction false} ReplayOver(cache: Cache, recs: seq<Record>, key: Name, value: int)
    ensures Replayed(cache[key := value], recs)
            == if WrittenIn(recs, key) then Replayed(cache, recs) else Replayed(cache, recs)[key := value]
    decreases |recs|
  {
    hide GetI64;
    if recs != [] {
      var front, last := recs[..|recs| - 1], recs[|recs| - 1];
      ReplayOver(cache, front, key, value);
      assert WrittenIn(recs, key) <==> WrittenIn(front, key) || Writes(last, key) by { WrittenSnoc(recs, key); }
    }
  }

  lemma {:induction false} WrittenSnoc(recs: seq<Record>, key: Name)
    requires recs != []
    ensures WrittenIn(recs, key) <==> WrittenIn(recs[..|recs| - 1], key) || Writes(recs[|recs| - 1], key)
  {
    var front := recs[..|recs| - 1];
    if WrittenIn(front, key) {
      var n :| 0 <= n < |front| && Writes(front[n], key);
      assert Writes(recs[n], key);
    }
    if WrittenIn(recs, key) && !Writes(recs[|recs| - 1], key) {
      var n :| 0 <= n < |recs| && Writes(recs[n], key);
      assert front[n] == recs[n];
    }
  }

  /** One more commit in log i, replayed: the whole replay gains that entry, unless a later log sets
      the key again. */
  lemma {:induction false} ReplayGains(logs: seq<seq<Record>>, i: nat, m: Commit, offset: int64, k: nat)
    requires i < |logs| && k <= |logs|
    ensures ReplayedLogs(logs[i := logs[i] + [Stamp(RecordOf(m), offset)]], k)
            == if k <= i || WrittenBeyond(logs, i, k, KeyOf(m)) then ReplayedLogs(logs, k)
               else ReplayedLogs(logs, k)[KeyOf(m) := m.offset as int]
  {
    hide Applied, Key, WrittenIn;
    var r := Stamp(RecordOf(m), offset);
    if k > 0 {
      ReplayGains(logs, i, m, offset, k - 1);
      if k - 1 == i {
        assert (logs[i] + [r])[..|logs[i]|] == logs[i];
        CommitApplies(Replayed(ReplayedLogs(logs, i), logs[i]), m, offset);
      } else if k - 1 > i {
        ReplayOver(ReplayedLogs(logs, k - 1), logs[k - 1], KeyOf(m), m.offset);
        BeyondSnoc(logs, i, k, KeyOf(m));
      }
    }
  }

  lemma {:induction false} BeyondSnoc(logs: seq<seq<Record>>, i: nat, k: nat, key: Name)
    requires i < k - 1 < |logs|
    ensures WrittenBeyond(logs, i, k, key) <==> WrittenBeyond(logs, i, k - 1, key) || WrittenIn(logs[k - 1], key)
  {
    hide WrittenIn;
  }

  /** A colon-free key is set in no log but its own. */
  lemma {:induction false} OnlyAtHome(logs: seq<seq<Record>>, i: nat, m: Commit)
    requires i < |logs| && COLON !in m.topic && Home(m.group, |logs|) == i
    requires forall j :: 0 <= j < |logs| ==> AtHome(logs[j], j, |logs|)
    ensures !WrittenBeyond(logs, i, |logs|, KeyOf(m))
  {
    hide Key, Home, AtHome;
    forall j | i < j < |logs| ensures !WrittenIn(logs[j], KeyOf(m)) {
      OtherKeys(logs[j], j, |logs|, i, m);
    }
  }

  lemma {:induction false} OtherKeys(recs: seq<Record>, j: nat, n: nat, i: nat, m: Commit)
    requires n > 0 && AtHome(recs, j, n) && j != i && COLON !in m.topic && Home(m.group, n) == i
    ensures !WrittenIn(recs, KeyOf(m))
  {
    hide Key, Home;
    assert KeyAt(KeyOf(m), i, n);
    forall k | 0 <= k < |recs| ensures recs[k].key != Some(KeyOf(m)) {
      if recs[k].key == Some(KeyOf(m)) {
        OneHome(KeyOf(m), i, j, n);
        assert false;
      }
    }
  }

  // ---- Runs ------------------------------------------------------------------------------------------

  /** The cache is what a replay of the stored records gives. */
  ghost predicate Mirrors(s: Store, c: Config) {
    LogsOk(s.logs, c) && s.cache == ReplayedLogs(Stored(s.logs), |s.logs|)
  }

  /** And every record is in the log its key belongs to. */
  ghost predicate Durable(s: Store, c: Config) {
    Mirrors(s, c) && forall i :: 0 <= i < |s.logs| ==> AtHome(Abs(s.logs[i].segs).recs, i, |s.logs|)
  }

  /** What a commit does to the log it goes to. */
  lemma {:induction false} CommitStores(s: Store, m: Commit, c: Config)
    requires LogsOk(s.logs, c)
    requires Abs(s.logs[Home(m.group, |s.logs|)].segs).Leo() < MAX_INT64 - 1
    ensures var i := Home(m.group, |s.logs|);
            var o := AppendOne(s.logs[i], Some(RecordOf(m)), c, m.now);
            var recs := Abs(s.logs[i].segs).recs;
            && o.st.segs != [] && LogsOk(s.logs[i := o.st], c)
            && Stored(s.logs[i := o.st]) == Stored(s.logs)[i := Abs(o.st.segs).recs]
            && (o.result.Appended? ==> MIN_INT64 <= o.result.offset <= MAX_INT64 && Abs(o.st.segs).recs == recs + [Stamp(RecordOf(m), o.result.offset)])
            && (o.result.Rejected? ==> Abs(o.st.segs).recs == recs)
  {
    hide SegOk, LogSpec.Live, Concat, AppendOne, Encodable, Key, Home;
    var i := Home(m.group, |s.logs|);
    AppendRefines(s.logs[i], Some(RecordOf(m)), c, m.now);
  }

  /** The log will not take the commit: its record is too large, or the log's active segment, not due
      for rotation, ends past 4 GiB, which takes a segment size above that. */
  ghost predicate Unstorable(st: LogState, m: Commit, c: Config)
    requires st.segs != []
  {
    !Encodable(RecordOf(m)) || (Size(st.segs[|st.segs| - 1].recs) > MAX_UINT32 && !RotationDue(st, c, m.now))
  }

  /** A commit, whatever its topic, keeps the cache equal to its replay exactly when its record cannot
      be stored, or no later log holds the key, or the key already had that offset. */
  lemma {:induction false} CommitMirrorsIff(s: Store, m: Commit, c: Config)
    requires Mirrors(s, c) && Abs(s.logs[Home(m.group, |s.logs|)].segs).Leo() < MAX_INT64 - 1
    ensures var i := Home(m.group, |s.logs|);
            Mirrors(Committed(s, m, c), c) <==>
              || Unstorable(s.logs[i], m, c)
              || !WrittenBeyond(Stored(s.logs), i, |s.logs|, KeyOf(m))
              || (KeyOf(m) in s.cache && s.cache[KeyOf(m)] == m.offset)
  {
    hide SegOk, LogSpec.Live, AppendOne, Key, Home, ReplayedLogs, Applied, Abs, WrittenBeyond, RecordOf, RotationDue, Size, Encodable;
    var n := |s.logs|;
    var i := Home(m.group, n);
    CommitStores(s, m, c);
    RejectedIff(s.logs[i], RecordOf(m), c, m.now);
    var o := AppendOne(s.logs[i], Some(RecordOf(m)), c, m.now);
    RollbackRestores(s.cache, KeyOf(m), m.offset);
    if o.result.Appended? {
      ReplayGains(Stored(s.logs), i, m, o.result.offset, n);
      SameEntry(s.cache, KeyOf(m), m.offset);
    } else {
      assert Stored(s.logs[i := o.st]) == Stored(s.logs);
    }
  }

  lemma {:induction false} SameEntry(cache: Cache, key: Name, value: int)
    ensures cache[key := value] == cache <==> key in cache && cache[key] == value
  {
    assert cache[key := value][key] == value;
  }

  /** So every commit with a colon-free topic does. */
  lemma {:induction false} CommitDurable(s: Store, m: Commit, c: Config)
    requires Durable(s, c) && COLON !in m.topic
    requires Abs(s.logs[Home(m.group, |s.logs|)].segs).Leo() < MAX_INT64 - 1
    ensures Durable(Committed(s, m, c), c)
  {
    hide SegOk, LogSpec.Live, AppendOne, Key, Home, ReplayedLogs, Applied, Abs, WrittenBeyond;
    var n := |s.logs|;
    var i := Home(m.group, n);
    CommitStores(s, m, c);
    var o := AppendOne(s.logs[i], Some(RecordOf(m)), c, m.now);
    OnlyAtHome(Stored(s.logs), i, m);
    CommitMirrorsIff(s, m, c);
    assert KeyAt(KeyOf(m), i, n);
  }

  /** A restart finds the first kept[i] records of log i's active segment whole. */
  datatype Step = Committing(m: Commit) | Restarting(kept: seq<nat>)

  /** A store started on empty logs, then commits and restarts in any order. */
  ghost predicate Run(ss: seq<Store>, steps: seq<Step>, c: Config) {
    && |ss| == |steps| + 1 && |steps| < MAX_INT64 - 1 && LogsOk(ss[0].logs, c)
    && ss[0].cache == map[] && (forall i :: 0 <= i < |ss[0].logs| ==> Abs(ss[0].logs[i].segs).recs == [])
    && forall k :: 0 <= k < |steps| && LogsOk(ss[k].logs, c) ==> Follows(ss[k], steps[k], ss[k + 1], c)
  }

  ghost predicate Follows(s: Store, step: Step, s': Store, c: Config)
    requires LogsOk(s.logs, c)
  {
    match step
    case Committing(m) => s' == Committed(s, m, c)
    case Restarting(kept) => Restarted(s, kept, s', c)
  }

  /** The logs are opened again, after a close or a crash, and the cache is what their replay gives. */
  ghost predicate Restarted(s: Store, kept: seq<nat>, s': Store, c: Config) {
    && |kept| == |s'.logs| == |s.logs|
    && (forall i :: 0 <= i < |s.logs| ==> Reopened(s.logs[i], kept[i], s'.logs[i], c))
    && s'.cache == ReplayedLogs(Stored(s'.logs), |s'.logs|)
  }

  ghost predicate Reopened(st: LogState, kept: nat, st': LogState, c: Config) {
    && st.segs != [] && st'.segs != []
    && exists created: seq<int>, now: int :: ReopenedAs(st, kept, st', created, now, c)
  }

  predicate ReopenedAs(st: LogState, kept: nat, st': LogState, created: seq<int>, now: int, c: Config)
    requires st.segs != []
  {
    kept <= |st.segs[|st.segs| - 1].recs| && |created| == |st.segs| && st' == Reopen(st, kept, created, c, now)
  }

  /** Nothing was lost: every active segment came back whole. */
  ghost predicate Clean(logs: seq<LogState>, kept: seq<nat>) {
    |kept| == |logs| && forall i :: 0 <= i < |logs| ==> logs[i].segs != [] && kept[i] == |logs[i].segs[|logs[i].segs| - 1].recs|
  }

  /** Each log holds a prefix of what it held. */
  ghost predicate Prefixes(logs: seq<LogState>, logs': seq<LogState>) {
    && |logs'| == |logs|
    && forall i :: 0 <= i < |logs| ==> logs[i].segs != [] && logs'[i].segs != [] && Abs(logs'[i].segs).recs <= Abs(logs[i].segs).recs
  }

  ghost predicate Shorter(logs: seq<LogState>, n: int)
    requires forall i :: 0 <= i < |logs| ==> logs[i].segs != []
  {
    forall i :: 0 <= i < |logs| ==> |Abs(logs[i].segs).recs| <= n
  }

  lemma {:induction false} EmptyDurable(s: Store, c: Config)
    requires LogsOk(s.logs, c) && s.cache == map[] && (forall i :: 0 <= i < |s.logs| ==> Abs(s.logs[i].segs).recs == [])
    ensures Durable(s, c)
  {
    hide SegOk, LogSpec.Live, Abs;
    EmptyReplay(Stored(s.logs), |s.logs|);
  }

  lemma {:induction false} EmptyReplay(logs: seq<seq<Record>>, k: nat)
    requires k <= |logs| && forall i :: 0 <= i < |logs| ==> logs[i] == []
    ensures ReplayedLogs(logs, k) == map[]
  {
    if k > 0 {
      EmptyReplay(logs, k - 1);
    }
  }

  lemma {:induction false} ReopenedPrefix(st: LogState, kept: nat, st': LogState, c: Config)
    requires WellFormed(st.segs, c) && Usable(c) && Reopened(st, kept, st', c)
    ensures WellFormed(st'.segs, c) && JustRecovered(st'.segs)
    ensures Abs(st'.segs).start == Abs(st.segs).start && Abs(st'.segs).recs <= Abs(st.segs).recs
    ensures kept == |st.segs[|st.segs| - 1].recs| ==> Abs(st'.segs) == Abs(st.segs)
  {
    hide SegOk, LogSpec.Live, Concat, Reopen;
    var created: seq<int>, now: int :| ReopenedAs(st, kept, st', created, now, c);
    ReopenRefines(st, kept, created, c, now);
    assert Abs(st.segs).recs[..|Abs(st.segs).recs|] == Abs(st.segs).recs;
  }

  /** Reopening every log and replaying rebuilds exactly the cache if nothing was lost, and in any
      case a store as good as before over what is left. */
  lemma {:induction false} ReplayRebuilds(s: Store, kept: seq<nat>, s': Store, c: Config)
    requires Durable(s, c) && Restarted(s, kept, s', c)
    ensures Durable(s', c) && (forall i :: 0 <= i < |s'.logs| ==> JustRecovered(s'.logs[i].segs))
    ensures Prefixes(s.logs, s'.logs) && (Clean(s.logs, kept) ==> s'.cache == s.cache)
  {
    hide SegOk, LogSpec.Live, Concat, ReplayedLogs, Reopened, JustRecovered, KeyAt;
    forall i | 0 <= i < |s.logs|
      ensures WellFormed(s'.logs[i].segs, c) && JustRecovered(s'.logs[i].segs) && Abs(s'.logs[i].segs).start == 0
      ensures Abs(s'.logs[i].segs).recs <= Abs(s.logs[i].segs).recs
      ensures kept[i] == |s.logs[i].segs[|s.logs[i].segs| - 1].recs| ==> Abs(s'.logs[i].segs) == Abs(s.logs[i].segs)
    {
      ReopenedPrefix(s.logs[i], kept[i], s'.logs[i], c);
    }
    if Clean(s.logs, kept) {
      assert Stored(s'.logs) == Stored(s.logs);
    }
  }

  /** Over every run of commits with colon-free topics and of restarts, clean or after a crash, the
      cache is its own replay. */
  lemma {:induction false} RunDurable(ss: seq<Store>, steps: seq<Step>, c: Config, k: nat)
    requires Run(ss, steps, c) && k < |ss| && forall j :: 0 <= j < |steps| && steps[j].Committing? ==> COLON !in steps[j].m.topic
    ensures Durable(ss[k], c) && Shorter(ss[k].logs, k)
  {
    hide SegOk, LogSpec.Live, Abs, AtHome, ReplayedLogs, AppendOne, Key, Home, Restarted, JustRecovered;
    if k == 0 {
      EmptyDurable(ss[0], c);
    } else {
      RunDurable(ss, steps, c, k - 1);
      assert Follows(ss[k - 1], steps[k - 1], ss[k], c);
      match steps[k - 1]
      case Committing(m) =>
        RoomFor(ss[k - 1], Home(m.group, |ss[k - 1].logs|), k - 1, c);
        CommitDurable(ss[k - 1], m, c);
        CommitStores(ss[k - 1], m, c);
      case Restarting(kept) =>
        ReplayRebuilds(ss[k - 1], kept, ss[k], c);
    }
  }

  lemma {:induction false} RoomFor(s: Store, i: nat, n: int, c: Config)
    requires LogsOk(s.logs, c) && Shorter(s.logs, n) && i < |s.logs| && n < MAX_INT64 - 1
    ensures Abs(s.logs[i].segs).Leo() < MAX_INT64 - 1
  {
    hide SegOk, LogSpec.Live, Concat;
  }

  // ---- Reading the logs back -------------------------------------------------------------------------

  /** One turn of Start's loop on a log that was just reopened: the next stretch of records, and
      nothing only at the end. */
  lemma {:induction false} NextStretch(segs: seq<Seg>, offset: int, c: Config)
    requires WellFormed(segs, c) && segs[0].base == 0 && JustRecovered(segs) && 0 <= offset <= Abs(segs).Leo()
    ensures var r := ReadLog(segs, offset, REPLAY_BYTES);
            && r.error.None?
            && r.recs <= Abs(segs).recs[offset..]
            && (r.recs == [] <==> offset == Abs(segs).Leo())
            && (r.recs != [] ==> r.recs[|r.recs| - 1].offset + 1 == offset + |r.recs|)
  {
    hide SegOk, LogSpec.Live, ReadRange, TakeRun, From, Concat;
    var i := FindCovering(segs, offset, |segs| - 1, c);
    RecoveredReadIsOneRun(segs, i, offset, REPLAY_BYTES, c);
    ContiguousReadIsStretch(segs, offset, REPLAY_BYTES, c);
  }

  // ---- When topics contain colons --------------------------------------------------------------------

  lemma {:induction false} CommitAccepted(s: Store, m: Commit, c: Config)
    requires LogsOk(s.logs, c) && Encodable(RecordOf(m)) && c.segmentBytes <= MAX_UINT32
    ensures AppendOne(s.logs[Home(m.group, |s.logs|)], Some(RecordOf(m)), c, m.now).result.Appended?
  {
    hide SegOk, LogSpec.Live, Concat, AppendOne, EncodedSize, Key, Home;
    AppendRefines(s.logs[Home(m.group, |s.logs|)], Some(RecordOf(m)), c, m.now);
  }

  lemma {:induction false} EmptyTail(logs: seq<seq<Record>>, j: nat, k: nat)
    requires j < k <= |logs| && forall l :: j < l < |logs| ==> logs[l] == []
    ensures ReplayedLogs(logs, k) == ReplayedLogs(logs, j + 1)
  {
    if k > j + 1 {
      EmptyTail(logs, j, k - 1);
    }
  }

  /** Two groups that share a key through a colon in a topic, hashed to different logs: when the later
      commit sits in the earlier log, the replay ends with the older value. */
  lemma {:induction false} ColonReplaysStale(ss: seq<Store>, older: Commit, newer: Commit, c: Config)
    requires Run(ss, [Committing(older), Committing(newer)], c) && c.segmentBytes <= MAX_UINT32 && Encodable(RecordOf(older)) && Encodable(RecordOf(newer))
    requires KeyOf(older) == KeyOf(newer) && older.offset != newer.offset
    requires Home(newer.group, |ss[0].logs|) < Home(older.group, |ss[0].logs|)
    ensures LogsOk(ss[2].logs, c) && ReplayedLogs(Stored(ss[2].logs), |ss[2].logs|) != ss[2].cache
  {
    hide SegOk, LogSpec.Live, Abs, AppendOne, Key, Home, Encodable, Applied, ReplayedLogs, Committed;
    var n := |ss[0].logs|;
    var i, j := Home(newer.group, n), Home(older.group, n);
    var steps := [Committing(older), Committing(newer)];
    assert Follows(ss[0], steps[0], ss[1], c);
    var o := FirstCommit(ss[0], older, 0, c);
    assert Follows(ss[1], steps[1], ss[2], c);
    var _ := FirstCommit(ss[1], newer, 1, c);
    StaleReplay(Stored(ss[2].logs), j, older, o);
  }

  /** A commit that is accepted adds its record to its own log and its entry to the cache. */
  lemma {:induction false} FirstCommit(s: Store, m: Commit, n: nat, c: Config) returns (offset: int64)
    requires LogsOk(s.logs, c) && n <= 1 && c.segmentBytes <= MAX_UINT32 && Encodable(RecordOf(m))
    requires forall i :: 0 <= i < |s.logs| ==> |Abs(s.logs[i].segs).recs| <= n
    ensures var s' := Committed(s, m, c);
            var i := Home(m.group, |s.logs|);
            && |s'.logs| == |s.logs| && LogsOk(s'.logs, c)
            && Stored(s'.logs) == Stored(s.logs)[i := Stored(s.logs)[i] + [Stamp(RecordOf(m), offset)]]
            && s'.cache == s.cache[KeyOf(m) := m.offset as int]
  {
    hide SegOk, LogSpec.Live, Abs, AppendOne, Key, Home, Encodable;
    CommitRoom(s, m, n, c);
    CommitStores(s, m, c);
    CommitAccepted(s, m, c);
    offset := AppendOne(s.logs[Home(m.group, |s.logs|)], Some(RecordOf(m)), c, m.now).result.offset;
  }

  lemma {:induction false} StaleReplay(logs: seq<seq<Record>>, j: nat, m: Commit, offset: int64)
    requires j < |logs| && logs[j] == [Stamp(RecordOf(m), offset)] && forall l :: j < l < |logs| ==> logs[l] == []
    ensures KeyOf(m) in ReplayedLogs(logs, |logs|) && ReplayedLogs(logs, |logs|)[KeyOf(m)] == m.offset
  {
    hide Key, Applied;
    EmptyTail(logs, j, |logs|);
    var before := ReplayedLogs(logs, j);
    assert logs[j][..0] == [] && Replayed(before, []) == before;
    assert ReplayedLogs(logs, j + 1) == Replayed(before, logs[j]) == Applied(before, logs[j][0]);
    CommitApplies(before, m, offset);
  }

  lemma {:induction false} CommitRoom(s: Store, m: Commit, n: nat, c: Config)
    requires LogsOk(s.logs, c) && n <= 1 && forall i :: 0 <= i < |s.logs| ==> |Abs(s.logs[i].segs).recs| <= n
    ensures Abs(s.logs[Home(m.group, |s.logs|)].segs).Leo() < MAX_INT64 - 1
  {
    hide SegOk, LogSpec.Live, Concat, Home;
  }
}
