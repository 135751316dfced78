/** The offset store object (internal/coordinator/offsets.go) over live partition logs. */
module OffsetStores {
  import opened Bytes
  import opened Records
  import opened Names
  import opened LogSpec
  import opened LogMaintenance
  import opened LogRangeReads
  import opened Logs
  import opened Offsets
  import OffsetKeys

  /** A log that was just reopened and holds offsets from 0. */
  ghost predicate Ready(l: Log)
    reads l, l.Repr
  {
    l.Valid() && !l.closed && JustRecovered(l.views) && l.views != [] && Abs(l.views).start == 0
  }

  /** The inner loop of the replay. */
  method ApplyAll(before: Cache, recs: seq<Record>) returns (cache: Cache)
    ensures cache == Replayed(before, recs)
  {
    hide GetI64;
    cache := before;
    for i := 0 to |recs|
      invariant cache == Replayed(before, recs[..i])
    {
      assert recs[..i + 1][..i] == recs[..i];
      var r := recs[i];
      if r.key.None? || |r.key.value| == 0 || r.value.None? || |r.value.value| < 8 {
        continue;
      }
      cache := cache[r.key.value := GetI64(r.value.value[..8]) as int];
    }
    assert recs[..|recs|] == recs;
  }

  /** Start's loop over one log: every record once, in order, and it ends. */
  method ReplayLog(l: Log, before: Cache) returns (cache: Cache)
    requires Ready(l)
    modifies l.Repr
    ensures Ready(l) && l.View() == old(l.View()) && l.Repr == old(l.Repr)
    ensures cache == Replayed(before, Abs(l.views).recs)
  {
    hide WellFormed, ReadLog, Replayed, Concat, Resting, Linked;
    ghost var recs := Abs(l.views).recs;
    cache := before;
    var offset := 0;
    assert recs[..0] == [];
    NoRecords(before);
    while true
      invariant Ready(l) && l.View() == old(l.View()) && l.Repr == old(l.Repr)
      invariant 0 <= offset <= |recs| && cache == Replayed(before, recs[..offset])
      decreases |recs| - offset
    {
      NextStretch(l.views, offset, l.config);
      var r := l.ReadFrom(offset, REPLAY_BYTES);
      if r.error.Some? || |r.recs| == 0 {
        break;
      }
      cache := ApplyAll(cache, r.recs);
      ReplayedConcat(before, recs[..offset], r.recs);
      assert recs[..offset] + r.recs == recs[..offset + |r.recs|];
      offset := r.recs[|r.recs| - 1].offset + 1;
    }
    assert recs[..offset] == recs;
  }

  lemma {:induction false} NoRecords(cache: Cache)
    ensures Replayed(cache, []) == cache
  {
  }

  lemma {:induction false} ReadyViews(l: Log)
    requires Ready(l)
    ensures l.views != [] && l in l.Repr
  {
    hide WellFormed, Linked, Resting;
  }

  class OffsetStore {
    var cache: Cache
    const logs: seq<Log>

    constructor (ls: seq<Log>)
      ensures logs == ls && cache == map[]
    {
      logs, cache := ls, map[];
    }

    /** The replay of Start over the reopened logs, whose stored records are `stored`. */
    method Start(ghost stored: seq<seq<Record>>)
      requires cache == map[] && |stored| == |logs|
      requires forall i :: 0 <= i < |logs| ==> Ready(logs[i]) && this !in logs[i].Repr && stored[i] == Abs(logs[i].views).recs
      requires forall i, j :: 0 <= i < j < |logs| ==> logs[i].Repr !! logs[j].Repr
      modifies this`cache, set i, o | 0 <= i < |logs| && o in logs[i].Repr :: o
      ensures cache == ReplayedLogs(stored, |logs|)
      ensures forall i :: 0 <= i < |logs| ==> Ready(logs[i]) && logs[i].View() == old(logs[i].View())
    {
      hide Ready, Replayed, Abs;
      for k := 0 to |logs|
        invariant cache == ReplayedLogs(stored, k)
        invariant forall i :: 0 <= i < |logs| ==> logs[i].Repr == old(logs[i].Repr) && Ready(logs[i]) && logs[i].View() == old(logs[i].View())
      {
        forall i | 0 <= i < |logs| ensures logs[i].views != [] && logs[i] in logs[i].Repr {
          ReadyViews(logs[i]);
        }
        var next := ReplayLog(logs[k], cache);
        forall i | 0 <= i < |logs| && i != k
          ensures logs[i].Repr == old(logs[i].Repr) && Ready(logs[i]) && logs[i].View() == old(logs[i].View())
        {
          assert old(logs[i].Repr) !! old(logs[k].Repr);
        }
        cache := next;
      }
    }

    /** Commit: cache first, then the log; a refused append takes the cache back. */
    method Commit(m: Commit)
      requires |logs| > 0
      requires var l := logs[Home(m.group, |logs|)];
               l.Valid() && !l.closed && this !in l.Repr && l.views != [] && Abs(l.views).Leo() < MAX_INT64
      modifies this`cache, logs[Home(m.group, |logs|)].Repr
      ensures var l := logs[Home(m.group, |logs|)];
              && l.Valid() && !l.closed && fresh(l.Repr - old(l.Repr))
              && WellFormed(old(l.views), l.config) && Usable(l.config)
              && var o := AppendOne(old(l.View()), Some(RecordOf(m)), l.config, m.now);
                 && l.View() == o.st
                 && cache == if o.result.Appended? then old(cache)[KeyOf(m) := m.offset as int] else old(cache)
    {
      hide WellFormed, Resting, Linked, AppendOne, OffsetKeys.Key, Home, Abs;
      var l := logs[Home(m.group, |logs|)];
      var key := KeyOf(m);
      ghost var before := cache;
      var hadOld := key in cache;
      var oldVal := if hadOld then cache[key] else 0;
      cache := cache[key := m.offset as int];
      var r := l.Append(Some(RecordOf(m)), m.now);
      if r.Err? {
        if hadOld {
          cache := cache[key := oldVal];
        } else {
          cache := cache - {key};
        }
        RollbackRestores(before, key, m.offset);
      }
    }

    /** Fetch: the cached offset, or -1. */
    method Fetch(group: Name, topic: Name, partition: int32) returns (offset: int)
      ensures var key := OffsetKeys.Key(group, topic, partition);
              offset == if key in cache then cache[key] else -1
    {
      var key := OffsetKeys.Key(group, topic, partition);
      offset := if key in cache then cache[key] else -1;
    }
  }
}
