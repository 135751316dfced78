/** The in-sync replica set and the high watermark of one partition
    (internal/replication/isr.go). */
module Isr {
  import opened Bytes

  datatype Replica = Replica(leo: int, caughtUp: int, inSync: bool)

  datatype Tracker = Tracker(leader: int, lagMax: int, replicas: map<int, Replica>, hw: int)

  // ---- One update ---------------------------------------------------------------------------------

  /** The replica's record after a report of `leo`: only advances; an unknown replica is admitted. */
  function Reported(replicas: map<int, Replica>, id: int, leo: int, now: int): Replica {
    if id !in replicas then Replica(leo, now, true)
    else replicas[id].(leo := Max(replicas[id].leo, leo))
  }

  /** The best known end of the leader's log. */
  function LeaderEnd(replicas: map<int, Replica>, leader: int, leaderLeo: int): int {
    if leader in replicas then Max(leaderLeo, replicas[leader].leo) else leaderLeo
  }

  function Credited(r: Replica, end: int, now: int): Replica {
    if r.leo >= end then r.(caughtUp := now) else r
  }

  /** updateISRLocked for one replica. */
  function Judged(r: Replica, isLeader: bool, lagMax: int, now: int): Replica {
    r.(inSync := isLeader || now - r.caughtUp <= lagMax)
  }

  function Judge(replicas: map<int, Replica>, leader: int, lagMax: int, now: int): map<int, Replica> {
    map id | id in replicas :: Judged(replicas[id], id == leader, lagMax, now)
  }

  /** The replicas after UpdateLEO. */
  function Reviewed(t: Tracker, id: int, leo: int, leaderLeo: int, now: int): map<int, Replica> {
    var r := Reported(t.replicas, id, leo, now);
    var end := LeaderEnd(t.replicas[id := r], t.leader, leaderLeo);
    Judge(t.replicas[id := Credited(r, end, now)], t.leader, t.lagMax, now)
  }

  /** m is the least end offset among the in-sync replicas. */
  ghost predicate IsrMin(replicas: map<int, Replica>, m: int) {
    && (exists id :: id in replicas && replicas[id].inSync && replicas[id].leo == m)
    && (forall id :: id in replicas && replicas[id].inSync ==> m <= replicas[id].leo)
  }

  /** No end offset is negative, so -1 can stand for an empty in-sync set. */
  ghost predicate Natural(replicas: map<int, Replica>) {
    forall id :: id in replicas ==> replicas[id].leo >= 0
  }

  /** UpdateLEO: review the replicas, then raise the high watermark to the in-sync minimum. */
  ghost predicate Updates(t: Tracker, id: int, leo: int, leaderLeo: int, now: int, t': Tracker) {
    && t'.leader == t.leader && t'.lagMax == t.lagMax
    && t'.replicas == Reviewed(t, id, leo, leaderLeo, now)
    && Raised(t'.replicas, t.hw, t'.hw)
  }

  /** The high watermark goes up to the in-sync minimum; an empty in-sync set counts as -1. */
  ghost predicate Raised(replicas: map<int, Replica>, hw: int, hw': int) {
    if exists i :: i in replicas && replicas[i].inSync
    then exists m :: IsrMin(replicas, m) && hw' == Max(hw, m)
    else hw' == Max(hw, -1)
  }

  // ---- The invariant ------------------------------------------------------------------------------

  /** The state of a tracker at clock reading `at`: the leader is tracked, who is in sync is a
      matter of lag, and the high watermark is the in-sync minimum. */
  ghost predicate Settled(t: Tracker, at: int) {
    && t.leader in t.replicas && Natural(t.replicas)
    && (forall id :: id in t.replicas ==>
          (t.replicas[id].inSync <==> id == t.leader || at - t.replicas[id].caughtUp <= t.lagMax))
    && IsrMin(t.replicas, t.hw)
  }

  /** A new tracker: everybody in sync at 0. */
  function Fresh(leader: int, ids: set<int>, lagMax: int, now: int): Tracker {
    Tracker(leader, if lagMax <= 0 then 30000 else lagMax, map id | id in ids :: Replica(0, now, true), 0)
  }

  lemma {:induction false} FreshSettled(leader: int, ids: set<int>, lagMax: int, now: int)
    requires leader in ids
    ensures Settled(Fresh(leader, ids, lagMax, now), now)
  {
    var t := Fresh(leader, ids, lagMax, now);
    assert t.replicas[leader].inSync && t.replicas[leader].leo == t.hw;
  }

  /** The end offset a replica has once `id` reports `leo`. */
  function EndOnceReported(t: Tracker, i: int, id: int, leo: int): int
    requires i in t.replicas
  {
    if i == id then Max(t.replicas[i].leo, leo) else t.replicas[i].leo
  }

  /** A replica out of sync, behind the watermark, that a review at `now` would let back in: only a
      clock that went backwards can do that. */
  ghost predicate SlipsBack(t: Tracker, i: int, id: int, leo: int, now: int) {
    && i in t.replicas && !t.replicas[i].inSync && now - t.replicas[i].caughtUp <= t.lagMax
    && EndOnceReported(t, i, id, leo) < t.hw
  }

  /** What a review makes of one replica. */
  lemma {:induction false} ReviewedOne(t: Tracker, at: int, id: int, leo: int, leaderLeo: int, now: int, i: int)
    requires Settled(t, at) && t.lagMax >= 0 && i in t.replicas
    ensures var rs := Reviewed(t, id, leo, leaderLeo, now);
            && i in rs && rs[i].leo == EndOnceReported(t, i, id, leo) >= t.replicas[i].leo
            && (rs[i].inSync ==> rs[i].leo >= t.hw || SlipsBack(t, i, id, leo, now))
            && (SlipsBack(t, i, id, leo, now) ==> rs[i].inSync)
            && (i == t.leader ==> rs[i].inSync)
  {
    assert t.replicas[t.leader].leo >= t.hw;
  }

  lemma {:induction false} ReviewedNewcomer(t: Tracker, id: int, leo: int, leaderLeo: int, now: int)
    requires id !in t.replicas && t.lagMax >= 0
    ensures var rs := Reviewed(t, id, leo, leaderLeo, now);
            rs.Keys == t.replicas.Keys + {id} && rs[id].inSync && rs[id].leo == leo
  {
  }

  /** From a settled tracker, one update leaves it settled, its high watermark at the in-sync
      minimum, exactly when the reporting replica is not a newcomer behind the watermark and no
      lagging replica slips back in. The watermark never decreases. */
  lemma {:induction false} UpdateExactIff(t: Tracker, at: int, id: int, leo: int, leaderLeo: int, now: int, t': Tracker)
    requires Settled(t, at) && t.lagMax >= 0 && (id in t.replicas || leo >= 0)
    requires Updates(t, id, leo, leaderLeo, now, t')
    ensures Settled(t', now) <==> (id in t.replicas || leo >= t.hw) && !(exists i :: SlipsBack(t, i, id, leo, now))
    ensures t'.hw >= t.hw
  {
    var rs := t'.replicas;
    ReviewedOne(t, at, id, leo, leaderLeo, now, t.leader);
    var m :| IsrMin(rs, m) && t'.hw == Max(t.hw, m);
    var w :| w in rs && rs[w].inSync && rs[w].leo == m;
    SettledWhenReached(t, at, id, leo, leaderLeo, now, t', m);
    if w in t.replicas {
      ReviewedOne(t, at, id, leo, leaderLeo, now, w);
    }
    if id !in t.replicas {
      ReviewedNewcomer(t, id, leo, leaderLeo, now);
    }
    if i :| SlipsBack(t, i, id, leo, now) {
      ReviewedOne(t, at, id, leo, leaderLeo, now, i);
    }
  }

  lemma {:induction false} SettledWhenReached(t: Tracker, at: int, id: int, leo: int, leaderLeo: int, now: int, t': Tracker, m: int)
    requires Settled(t, at) && t.lagMax >= 0 && (id in t.replicas || leo >= 0)
    requires Updates(t, id, leo, leaderLeo, now, t')
    requires IsrMin(t'.replicas, m) && t'.hw == Max(t.hw, m)
    ensures Settled(t', now) <==> m >= t.hw
  {
    var rs := t'.replicas;
    forall i | i in rs ensures rs[i].leo >= 0 {
      if i in t.replicas {
        ReviewedOne(t, at, id, leo, leaderLeo, now, i);
      }
    }
  }

  /** UpdateLEO always has an outcome. */
  lemma {:induction false} SomeUpdate(t: Tracker, id: int, leo: int, leaderLeo: int, now: int) returns (t': Tracker)
    ensures Updates(t, id, leo, leaderLeo, now, t')
  {
    var rs := Reviewed(t, id, leo, leaderLeo, now);
    var inSync := set i | i in rs && rs[i].inSync;
    if inSync == {} {
      t' := t.(replicas := rs, hw := Max(t.hw, -1));
      assert forall i | i in rs :: i !in inSync;
    } else {
      HasMember(inSync);
      var m := Least(rs, inSync);
      t' := t.(replicas := rs, hw := Max(t.hw, m));
      assert forall i | i in rs && rs[i].inSync :: i in inSync;
      assert IsrMin(rs, m);
    }
  }

  lemma {:induction false} Least(rs: map<int, Replica>, ids: set<int>) returns (m: int)
    requires ids <= rs.Keys && exists i :: i in ids
    ensures (exists i :: i in ids && rs[i].leo == m) && (forall i :: i in ids ==> m <= rs[i].leo)
    decreases |ids|
  {
    var i :| i in ids;
    var rest := ids - {i};
    if rest == {} {
      m := rs[i].leo;
      assert forall j | j in ids :: j == i || j in rest;
    } else {
      HasMember(rest);
      var n := Least(rs, rest);
      m := Min(n, rs[i].leo);
      assert forall j | j in ids :: j == i || j in rest;
    }
  }

  // ---- Runs ---------------------------------------------------------------------------------------

  datatype Report = Report(id: int, leo: int, leaderLeo: int, now: int)

  /** A run of updates: trackers[i + 1] is trackers[i] after reports[i]. */
  ghost predicate Run(trackers: seq<Tracker>, reports: seq<Report>) {
    && |trackers| == |reports| + 1
    && forall i :: 0 <= i < |reports| ==>
         Updates(trackers[i], reports[i].id, reports[i].leo, reports[i].leaderLeo, reports[i].now, trackers[i + 1])
  }

  /** Every report is by a replica of the set, and the clock does not go backwards. */
  ghost predicate Proper(reports: seq<Report>, ids: set<int>, start: int) {
    forall i :: 0 <= i < |reports| ==>
      reports[i].id in ids && (if i == 0 then start else reports[i - 1].now) <= reports[i].now
  }

  /** Over every run from a new tracker, with a monotone clock and reports by the replica set, the
      high watermark is the least end offset of the in-sync set, never decreases, and never
      exceeds the leader's end offset; replicas may fall out and come back. */
  lemma {:induction false} RunSettled(trackers: seq<Tracker>, reports: seq<Report>, leader: int, ids: set<int>, lagMax: int, start: int, n: nat)
    requires leader in ids && Run(trackers, reports) && Proper(reports, ids, start) && n <= |reports|
    requires trackers[0] == Fresh(leader, ids, lagMax, start)
    ensures var t := trackers[n];
            && Settled(t, if n == 0 then start else reports[n - 1].now)
            && t.replicas.Keys == ids && t.leader == leader && t.lagMax == trackers[0].lagMax
            && IsrMin(t.replicas, t.hw) && t.hw <= t.replicas[leader].leo
    ensures forall m :: 0 <= m <= n ==> trackers[m].hw <= trackers[n].hw
  {
    hide Updates;
    if n == 0 {
      FreshSettled(leader, ids, lagMax, start);
    } else {
      RunSettled(trackers, reports, leader, ids, lagMax, start, n - 1);
      var r := reports[n - 1];
      var at := if n == 1 then start else reports[n - 2].now;
      StepSettled(trackers[n - 1], at, r.id, r.leo, r.leaderLeo, r.now, trackers[n]);
    }
    assert trackers[n].replicas[leader].inSync;
  }

  // ---- The same from the reports alone --------------------------------------------------------------

  /** The largest end offset a replica has reported in the first n reports, 0 before it has. */
  function ReportedEnd(reports: seq<Report>, n: nat, id: int): int
    requires n <= |reports|
  {
    if n == 0 then 0
    else
      var before := ReportedEnd(reports, n - 1, id);
      if reports[n - 1].id == id && reports[n - 1].leo > before then reports[n - 1].leo else before
  }

  /** With report j the replica has reached the end of the leader's log, as far as it is known then. */
  predicate CatchesUp(reports: seq<Report>, j: nat, id: int, leader: int)
    requires j < |reports|
  {
    && reports[j].id == id
    && ReportedEnd(reports, j + 1, id) >= reports[j].leaderLeo
    && ReportedEnd(reports, j + 1, id) >= ReportedEnd(reports, j + 1, leader)
  }

  function ClockAt(reports: seq<Report>, n: nat, start: int): int
    requires n <= |reports|
  {
    if n == 0 then start else reports[n - 1].now
  }

  /** The replica started, or caught up, at most `lag` ago. */
  ghost predicate Recent(reports: seq<Report>, n: nat, id: int, leader: int, lag: int, start: int)
    requires n <= |reports|
  {
    var now := ClockAt(reports, n, start);
    now - start <= lag || exists j :: 0 <= j < n && CatchesUp(reports, j, id, leader) && now - reports[j].now <= lag
  }

  /** What the tracker knows of a replica: its end offset, and when it last caught up. */
  ghost predicate Knows(r: Replica, reports: seq<Report>, n: nat, id: int, leader: int, start: int)
    requires n <= |reports|
  {
    && r.leo == ReportedEnd(reports, n, id)
    && start <= r.caughtUp <= ClockAt(reports, n, start)
    && (r.caughtUp == start || exists j :: 0 <= j < n && CatchesUp(reports, j, id, leader) && reports[j].now == r.caughtUp)
    && (forall j :: 0 <= j < n && CatchesUp(reports, j, id, leader) ==> reports[j].now <= r.caughtUp)
  }

  /** One report, for one replica of a settled tracker. */
  lemma {:induction false} KnowsMore(t: Tracker, reports: seq<Report>, n: nat, id: int, start: int, t': Tracker)
    requires n < |reports| && id in t.replicas && t.leader in t.replicas && reports[n].id in t.replicas
    requires Knows(t.replicas[id], reports, n, id, t.leader, start) && t.replicas[t.leader].leo == ReportedEnd(reports, n, t.leader)
    requires ClockAt(reports, n, start) <= reports[n].now
    requires Updates(t, reports[n].id, reports[n].leo, reports[n].leaderLeo, reports[n].now, t')
    ensures id in t'.replicas && Knows(t'.replicas[id], reports, n + 1, id, t.leader, start)
  {
    hide Raised;
    var r := t'.replicas[id];
    forall j | 0 <= j < n + 1 && CatchesUp(reports, j, id, t.leader) ensures reports[j].now <= r.caughtUp {
    }
    if r.caughtUp != start && r.caughtUp == t.replicas[id].caughtUp {
      var j :| 0 <= j < n && CatchesUp(reports, j, id, t.leader) && reports[j].now == r.caughtUp;
      assert 0 <= j < n + 1;
    } else if r.caughtUp != start {
      assert CatchesUp(reports, n, id, t.leader);
    }
  }

  lemma {:induction false} RunKnows(trackers: seq<Tracker>, reports: seq<Report>, leader: int, ids: set<int>, lagMax: int, start: int, n: nat)
    requires leader in ids && Run(trackers, reports) && Proper(reports, ids, start) && n <= |reports|
    requires trackers[0] == Fresh(leader, ids, lagMax, start)
    ensures trackers[n].leader == leader && trackers[n].replicas.Keys == ids
    ensures forall id :: id in ids ==> Knows(trackers[n].replicas[id], reports, n, id, leader, start)
  {
    hide Updates, Settled, Knows;
    RunSettled(trackers, reports, leader, ids, lagMax, start, n);
    if n == 0 {
      forall id | id in ids ensures Knows(trackers[0].replicas[id], reports, 0, id, leader, start) {
        KnowsNothing(reports, id, leader, start);
      }
    } else {
      RunKnows(trackers, reports, leader, ids, lagMax, start, n - 1);
      RunSettled(trackers, reports, leader, ids, lagMax, start, n - 1);
      assert trackers[n - 1].replicas[leader].leo == ReportedEnd(reports, n - 1, leader) by {
        KnownEnd(trackers[n - 1].replicas[leader], reports, n - 1, leader, leader, start);
      }
      forall id | id in ids ensures Knows(trackers[n].replicas[id], reports, n, id, leader, start) {
        KnowsMore(trackers[n - 1], reports, n - 1, id, start, trackers[n]);
      }
    }
  }

  lemma {:induction false} KnownEnd(r: Replica, reports: seq<Report>, n: nat, id: int, leader: int, start: int)
    requires n <= |reports| && Knows(r, reports, n, id, leader, start)
    ensures r.leo == ReportedEnd(reports, n, id)
  {
  }

  lemma {:induction false} KnowsNothing(reports: seq<Report>, id: int, leader: int, start: int)
    ensures Knows(Replica(0, start, true), reports, 0, id, leader, start)
  {
  }

  /** Who is in sync, and the high watermark, in terms of the reports alone. Over every run from a new
      tracker, with a monotone clock and reports by the replica set, a replica's end offset is the
      largest it reported; it is in sync exactly when it is the leader or started or caught up at most
      the permitted lag ago; and the watermark is the least end offset of those replicas. */
  lemma {:induction false} InSyncExactly(trackers: seq<Tracker>, reports: seq<Report>, leader: int, ids: set<int>, lagMax: int, start: int, n: nat)
    requires leader in ids && Run(trackers, reports) && Proper(reports, ids, start) && n <= |reports|
    requires trackers[0] == Fresh(leader, ids, lagMax, start)
    ensures var t := trackers[n];
            var lag := if lagMax <= 0 then 30000 else lagMax;
            && t.replicas.Keys == ids
            && (forall id :: id in ids ==>
                  && t.replicas[id].leo == ReportedEnd(reports, n, id)
                  && (t.replicas[id].inSync <==> id == leader || Recent(reports, n, id, leader, lag, start)))
            && (exists id :: id in ids && t.replicas[id].inSync && t.hw == ReportedEnd(reports, n, id))
            && (forall id :: id in ids && t.replicas[id].inSync ==> t.hw <= ReportedEnd(reports, n, id))
  {
    hide Updates, Knows, Recent, CatchesUp, ReportedEnd;
    RunKnows(trackers, reports, leader, ids, lagMax, start, n);
    RunSettled(trackers, reports, leader, ids, lagMax, start, n);
    var t := trackers[n];
    forall id | id in ids
      ensures t.replicas[id].leo == ReportedEnd(reports, n, id)
      ensures t.replicas[id].inSync <==> id == leader || Recent(reports, n, id, leader, t.lagMax, start)
    {
      KnownEnd(t.replicas[id], reports, n, id, leader, start);
      KnownRecent(t.replicas[id], reports, n, id, leader, t.lagMax, start);
    }
    var id :| id in t.replicas && t.replicas[id].inSync && t.replicas[id].leo == t.hw;
    assert id in ids;
  }

  lemma {:induction false} KnownRecent(r: Replica, reports: seq<Report>, n: nat, id: int, leader: int, lag: int, start: int)
    requires n <= |reports| && Knows(r, reports, n, id, leader, start)
    ensures ClockAt(reports, n, start) - r.caughtUp <= lag <==> Recent(reports, n, id, leader, lag, start)
  {
    hide CatchesUp;
  }

  /** A known replica and a clock that does not go backwards keep the tracker settled. */
  lemma {:induction false} StepSettled(t: Tracker, at: int, id: int, leo: int, leaderLeo: int, now: int, t': Tracker)
    requires Settled(t, at) && t.lagMax >= 0 && id in t.replicas && at <= now
    requires Updates(t, id, leo, leaderLeo, now, t')
    ensures Settled(t', now) && t'.hw >= t.hw
    ensures t'.replicas.Keys == t.replicas.Keys && t'.leader == t.leader && t'.lagMax == t.lagMax
    ensures t'.replicas[t.leader].leo == EndOnceReported(t, t.leader, id, leo)
  {
    UpdateExactIff(t, at, id, leo, leaderLeo, now, t');
    ReviewedOne(t, at, id, leo, leaderLeo, now, t.leader);
  }

  /** A newcomer behind the watermark joins the in-sync set below it. */
  lemma {:induction false} NewcomerBelowWatermark()
    ensures var t := Tracker(1, 10, map[1 := Replica(5, 0, true)], 5);
            var t' := Tracker(1, 10, map[1 := Replica(5, 0, true), 2 := Replica(3, 0, true)], 5);
            Settled(t, 0) && Updates(t, 2, 3, 5, 0, t') && !Settled(t', 0)
  {
    var t := Tracker(1, 10, map[1 := Replica(5, 0, true)], 5);
    var t' := Tracker(1, 10, map[1 := Replica(5, 0, true), 2 := Replica(3, 0, true)], 5);
    assert t.replicas[1].inSync && t.replicas[1].leo == 5;
    assert t'.replicas == Reviewed(t, 2, 3, 5, 0);
    assert t'.replicas[2].inSync && IsrMin(t'.replicas, 3);
  }

  /** A clock that goes back ten units lets a lagging replica in below the watermark. */
  lemma {:induction false} BackwardClockBelowWatermark()
    ensures var t := Tracker(1, 10, map[1 := Replica(5, 20, true), 2 := Replica(3, 0, false)], 5);
            var t' := Tracker(1, 10, map[1 := Replica(5, 10, true), 2 := Replica(3, 0, true)], 5);
            Settled(t, 20) && Updates(t, 1, 5, 5, 10, t') && !Settled(t', 10)
  {
    var t := Tracker(1, 10, map[1 := Replica(5, 20, true), 2 := Replica(3, 0, false)], 5);
    var t' := Tracker(1, 10, map[1 := Replica(5, 10, true), 2 := Replica(3, 0, true)], 5);
    assert t.replicas[1].inSync && t.replicas[1].leo == 5;
    assert t'.replicas == Reviewed(t, 1, 5, 5, 10);
    assert t'.replicas[2].inSync && IsrMin(t'.replicas, 3);
  }

  // ---- The tracker object -------------------------------------------------------------------------

  class ISRTracker {
    var replicas: map<int, Replica>
    const leaderID: int
    const replicaLagTimeMaxMs: int
    var highWatermark: int

    ghost function View(): Tracker
      reads this
    {
      Tracker(leaderID, replicaLagTimeMaxMs, replicas, highWatermark)
    }

    /** NewISRTracker with no checkpoint to load. */
    constructor (leader: int, ids: seq<int>, lagTimeMaxMs: int, now: int)
      ensures View() == Fresh(leader, (set i | i in ids), lagTimeMaxMs, now)
    {
      leaderID := leader;
      replicaLagTimeMaxMs := if lagTimeMaxMs <= 0 then 30000 else lagTimeMaxMs;
      highWatermark := 0;
      new;
      replicas := map[];
      for i := 0 to |ids|
        invariant replicas == map id | id in ids[..i] :: Replica(0, now, true)
        invariant highWatermark == 0
      {
        replicas := replicas[ids[i] := Replica(0, now, true)];
      }
      assert ids[..|ids|] == ids;
    }

    method UpdateLEO(id: int, leo: int, leaderLEO: int, now: int) returns (hw: int)
      requires Natural(replicas) && (id in replicas || leo >= 0)
      modifies this
      ensures Updates(old(View()), id, leo, leaderLEO, now, View()) && hw == highWatermark
      ensures Natural(replicas)
    {
      hide Updates, IsrMin, Natural;
      ghost var before := View();
      if id !in replicas {
        replicas := replicas[id := Replica(leo, now, true)];
      } else if leo > replicas[id].leo {
        replicas := replicas[id := replicas[id].(leo := leo)];
      }
      var end := leaderLEO;
      if leaderID in replicas && replicas[leaderID].leo > end {
        end := replicas[leaderID].leo;
      }
      if replicas[id].leo >= end {
        replicas := replicas[id := replicas[id].(caughtUp := now)];
      }
      UpdateISR(now);
      assert replicas == Reviewed(before, id, leo, leaderLEO, now);
      StaysNatural(before, id, leo, leaderLEO, now);
      hw := CalculateHW();
      AreUpdates(before, id, leo, leaderLEO, now, View());
    }

    method UpdateISR(now: int)
      modifies this`replicas
      ensures replicas == Judge(old(replicas), leaderID, replicaLagTimeMaxMs, now)
    {
      var todo: set<int> := replicas.Keys;
      while todo != {}
        invariant replicas.Keys == old(replicas).Keys && todo <= replicas.Keys
        invariant forall id :: id in replicas ==>
                    replicas[id] == if id in todo then old(replicas)[id]
                                    else Judged(old(replicas)[id], id == leaderID, replicaLagTimeMaxMs, now)
        decreases |todo|
      {
        HasMember(todo);
        var id :| id in todo;
        var late := now - replicas[id].caughtUp > replicaLagTimeMaxMs;
        replicas := replicas[id := replicas[id].(inSync := id == leaderID || !late)];
        todo := todo - {id};
      }
    }

    /** The least end offset in the in-sync set, -1 when it is empty. */
    method MinInSync() returns (minLEO: int)
      requires Natural(replicas)
      ensures if exists i :: i in replicas && replicas[i].inSync then IsrMin(replicas, minLEO) else minLEO == -1
    {
      minLEO := -1;
      var todo: set<int> := replicas.Keys;
      ghost var done: set<int> := {};
      while todo != {}
        invariant todo + done == replicas.Keys
        invariant minLEO == -1 <==> forall id :: id in done ==> !replicas[id].inSync
        invariant minLEO != -1 ==> exists id :: id in done && replicas[id].inSync && replicas[id].leo == minLEO
        invariant forall id :: id in done && replicas[id].inSync ==> minLEO <= replicas[id].leo
        decreases |todo|
      {
        HasMember(todo);
        var id :| id in todo;
        if replicas[id].inSync {
          if minLEO == -1 || replicas[id].leo < minLEO {
            minLEO := replicas[id].leo;
          }
        }
        todo, done := todo - {id}, done + {id};
      }
      assert done == replicas.Keys;
    }

    method CalculateHW() returns (hw: int)
      requires Natural(replicas)
      modifies this`highWatermark
      ensures hw == highWatermark && Raised(replicas, old(highWatermark), highWatermark)
    {
      hide IsrMin;
      var minLEO := MinInSync();
      if minLEO > highWatermark {
        highWatermark := minLEO;
      }
      hw := highWatermark;
    }
  }

  lemma {:induction false} AreUpdates(t: Tracker, id: int, leo: int, leaderLeo: int, now: int, t': Tracker)
    requires t'.leader == t.leader && t'.lagMax == t.lagMax
    requires t'.replicas == Reviewed(t, id, leo, leaderLeo, now) && Raised(t'.replicas, t.hw, t'.hw)
    ensures Updates(t, id, leo, leaderLeo, now, t')
  {
  }

  lemma {:induction false} StaysNatural(t: Tracker, id: int, leo: int, leaderLeo: int, now: int)
    requires Natural(t.replicas) && (id in t.replicas || leo >= 0)
    ensures Natural(Reviewed(t, id, leo, leaderLeo, now))
  {
  }
}
