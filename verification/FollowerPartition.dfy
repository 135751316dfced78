/** A follower's partition object: followerFetchOnce on the live log
    (internal/broker/broker_replication.go, internal/broker/partition.go). */
module FollowerPartitions {
  import opened Bytes
  import opened Records
  import opened LogSpec
  import opened LogMaintenance
  import opened Logs
  import opened Followers

  class FollowerPartition {
    const log: Log
    var highWatermark: int
    var remembered: int

    ghost predicate Valid()
      reads this, log, log.Repr
    {
      this !in log.Repr && log.Valid() && !log.closed
    }

    ghost function View(): Local
      reads this, log
    {
      Local(log.View(), highWatermark, remembered)
    }

    constructor (l: Log)
      requires l.Valid() && !l.closed
      ensures Valid() && log == l && View() == Local(l.View(), Abs(l.views).Leo(), 0)
    {
      hide Log.Valid;
      var _, end := l.Bounds();
      log, highWatermark, remembered := l, end, 0;
    }

    /** SetHighWatermark: only upwards. */
    method SetHighWatermark(hw: int)
      modifies this`highWatermark
      ensures highWatermark == Max(old(highWatermark), hw)
    {
      if hw > highWatermark {
        highWatermark := hw;
      }
    }

    /** The offset to ask the leader for. */
    method FetchFrom() returns (offset: int)
      requires Valid() && log.views != []
      ensures offset == NextFetch(View())
    {
      hide Log.Valid, Abs;
      var _, end := log.Bounds();
      offset := remembered;
      if end > offset {
        offset := end;
      }
    }

    /** Take in what the leader sent. */
    method Take(r: Response, nows: seq<int>)
      requires Valid() && |nows| == |r.records| && WellFormed(log.views, log.config) && Usable(log.config)
      requires MIN_INT64 <= Abs(log.views).Leo() && Abs(log.views).Leo() + |r.records| <= MAX_INT64
      modifies this, log.Repr
      ensures Valid() && fresh(log.Repr - old(log.Repr))
      ensures View() == Applied(old(View()), r, nows, log.config)
    {
      hide Log.Valid, SegOk, LogSpec.Live, AppendAll, Abs;
      var from := FetchFrom();
      AppendAllRefines(log.View(), Given(r.records), nows, log.config);
      if r.records != [] {
        var _, err := log.AppendBatch(Given(r.records), nows);
        if err.Some? {
          return;
        }
        var _, end := log.Bounds();
        remembered := end;
      } else {
        NothingAppended(log.View(), nows, log.config);
        remembered := from;
      }
      var _, localLEO := log.Bounds();
      SetHighWatermark(if r.hw > localLEO then localLEO else r.hw);
    }
  }

  lemma {:induction false} NothingAppended(st: LogState, nows: seq<int>, c: Config)
    requires WellFormed(st.segs, c) && Usable(c) && nows == [] && Abs(st.segs).Leo() <= MAX_INT64
    ensures AppendAll(st, Given([]), nows, c) == BatchOutcome(st, 0, None)
  {
  }
}
