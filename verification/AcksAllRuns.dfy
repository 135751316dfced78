/** What whole runs of the acks=all machine mean for the requests that came in: a produce request is
    answered for the records it stored and, with acks=all, only once they are replicated; a replica is
    credited with what it fetched; the partition's watermark follows the tracker's; and the purgatory
    holds nobody's request but a waiter's. */
module AcksAllRuns {
  import opened Bytes
  import Isr
  import opened Purgatories
  import opened AcksAll

  // ---- Produce requests ------------------------------------------------------------------------------

  predicate Handling(th: Thread) { th.Appended? || th.LeoRead? || th.HwKnown? || th.HwSet? || th.Succeeded? }

  /** The thread handles a request that stored n records at `base`: it never loses track of them, and
      waits, or gives up, only for acks=all. */
  predicate Handles(th: Thread, tp: Tp, base: int, n: int, all: bool) {
    && th.tp == tp
    && (Handling(th) || ((Requires(th) || th.TimedOut?) && all))
    && (Handling(th) ==> th.base == base && th.n == n && th.all == all)
    && (Requires(th) ==> th.base == base && th.n == n)
  }

  lemma {:induction false} HandlesStays(b: Broker, a: Action, b': Broker, i: nat, tp: Tp, base: int, n: int, all: bool)
    requires Next(b, a, b') && i < |b.threads| && Handles(b.threads[i], tp, base, n, all)
    ensures i < |b'.threads| && Handles(b'.threads[i], tp, base, n, all)
  {
    hide Isr.Updates, Completed, Watched, Cancelled;
  }

  /** Thread |bs[k].threads| is the handler of a Produce at step k. */
  lemma {:induction false} ProduceHandled(bs: seq<Broker>, actions: seq<Action>, k: nat, m: nat)
    requires Run(bs, actions) && k < m < |bs| && actions[k].Produce?
    ensures var a := actions[k];
            var i := |bs[k].threads|;
            && a.tp in bs[k].parts && i < |bs[m].threads|
            && Handles(bs[m].threads[i], a.tp, bs[k].parts[a.tp].leo, a.n, a.all)
  {
    hide Init, ThreadStep, Handles;
    var a := actions[k];
    assert Next(bs[k], actions[k], bs[k + 1]);
    if m == k + 1 {
      assert Handles(Appended(a.tp, bs[k].parts[a.tp].leo, a.n, a.all), a.tp, bs[k].parts[a.tp].leo, a.n, a.all) by { NewHandler(a.tp, bs[k].parts[a.tp].leo, a.n, a.all); }
    } else {
      ProduceHandled(bs, actions, k, m - 1);
      assert Next(bs[m - 1], actions[m - 1], bs[m]);
      HandlesStays(bs[m - 1], actions[m - 1], bs[m], |bs[k].threads|, a.tp, bs[k].parts[a.tp].leo, a.n, a.all);
    }
  }

  lemma {:induction false} NewHandler(tp: Tp, base: int, n: int, all: bool)
    ensures Handles(Appended(tp, base, n, all), tp, base, n, all)
  {
  }

  /** acks=all safety, from the request on. If the handler of a produce request is at some moment done
      with success, it answers with the end the log had when the request was served; and if the request
      asked for acks=all, then from that moment on the tracker's watermark and the tracked end of every
      in-sync replica are past its last record. */
  lemma {:induction false} ProduceAcknowledged(bs: seq<Broker>, actions: seq<Action>, k: nat, m: nat, l: nat)
    requires Run(bs, actions) && k < m <= l < |bs| && actions[k].Produce?
    requires |bs[k].threads| < |bs[m].threads| && bs[m].threads[|bs[k].threads|].Succeeded?
    ensures var tp, n := actions[k].tp, actions[k].n;
            && tp in bs[k].parts && tp in bs[l].parts
            && var last := bs[k].parts[tp].leo + n;
               var t := bs[l].parts[tp].tracker;
               && bs[m].threads[|bs[k].threads|].base == bs[k].parts[tp].leo
               && last <= bs[l].parts[tp].leo
               && (actions[k].all ==>
                     && t.hw >= last
                     && forall id :: id in t.replicas && t.replicas[id].inSync ==> t.replicas[id].leo >= last)
  {
    hide Next, Init, Inv;
    ProduceHandled(bs, actions, k, m);
    ProduceGrows(bs, actions, k);
    WatermarksMonotone(bs, actions, k + 1, l);
    if actions[k].all {
      AckedIsReplicated(bs, actions, m, |bs[k].threads|, l);
    }
  }

  lemma {:induction false} ProduceGrows(bs: seq<Broker>, actions: seq<Action>, k: nat)
    requires Run(bs, actions) && k < |actions| && actions[k].Produce?
    ensures actions[k].tp in bs[k].parts && actions[k].tp in bs[k + 1].parts
    ensures bs[k + 1].parts[actions[k].tp].leo == bs[k].parts[actions[k].tp].leo + actions[k].n
  {
    hide Init, ThreadStep;
    assert Next(bs[k], actions[k], bs[k + 1]);
  }

  /** The thread waits for the watermark `end`, or has succeeded with it reached. */
  predicate WaitsFor(th: Thread, b: Broker, end: int) {
    && ((th.LeoRead? || th.HwKnown? || th.HwSet?) ==> th.all && th.leo == end)
    && (Requires(th) ==> th.required == end)
    && (th.LeoRead? || th.HwKnown? || th.HwSet? || Requires(th) || th.TimedOut?
        || (th.Succeeded? && th.tp in b.parts && end <= b.parts[th.tp].tracker.hw))
  }

  lemma {:induction false} WaitsOn(b: Broker, a: Action, b': Broker, i: nat, end: int)
    requires Inv(b) && Next(b, a, b') && i < |b.threads| && WaitsFor(b.threads[i], b, end)
    requires 0 < end
    ensures i < |b'.threads| && WaitsFor(b'.threads[i], b', end)
  {
    hide PartsOk, IdsOk, AllOwed, Next, Informed;
    var th := b.threads[i];
    if th.Succeeded? {
      NextMonotone(b, a, b');
    } else {
      assert Enrolled(th, b.pool, b.parts[th.tp]);
      WaiterMoves(b, a, b', i, end);
    }
  }

  lemma {:induction false} WaiterMoves(b: Broker, a: Action, b': Broker, i: nat, end: int)
    requires Next(b, a, b') && i < |b.threads| && WaitsFor(b.threads[i], b, end) && !b.threads[i].Succeeded? && 0 < end
    requires b.threads[i].tp in b.parts && Enrolled(b.threads[i], b.pool, b.parts[b.threads[i].tp])
    ensures i < |b'.threads| && WaitsFor(b'.threads[i], b', end)
  {
    hide Isr.Updates, Completed, Watched, Cancelled;
  }

  /** An acks=all handler waits for everything that was in the log when it looked: it succeeds only once
      the watermark has reached the end it read after its own append. */
  lemma {:induction false} WaitsForTheEnd(bs: seq<Broker>, actions: seq<Action>, j: nat, m: nat)
    requires Run(bs, actions) && j < m < |bs| && actions[j].Step? && actions[j].i < |bs[j].threads|
    requires bs[j].threads[actions[j].i].Appended? && bs[j].threads[actions[j].i].all
    ensures var i, tp := actions[j].i, bs[j].threads[actions[j].i].tp;
            tp in bs[j].parts && i < |bs[m].threads| && WaitsFor(bs[m].threads[i], bs[m], bs[j].parts[tp].leo)
  {
    hide Init, Inv, WaitsFor;
    RunInv(bs, actions, j);
    assert Next(bs[j], actions[j], bs[j + 1]);
    var i, tp := actions[j].i, bs[j].threads[actions[j].i].tp;
    SomethingStored(bs[j], i);
    if m == j + 1 {
      NewWait(bs[j + 1].threads[i], bs[j + 1]);
    } else {
      WaitsForTheEnd(bs, actions, j, m - 1);
      RunInv(bs, actions, m - 1);
      assert Next(bs[m - 1], actions[m - 1], bs[m]);
      WaitsOn(bs[m - 1], actions[m - 1], bs[m], i, bs[j].parts[tp].leo);
    }
  }

  lemma {:induction false} NewWait(th: Thread, b: Broker)
    requires th.LeoRead? && th.all
    ensures WaitsFor(th, b, th.leo)
  {
  }

  lemma {:induction false} SomethingStored(b: Broker, i: nat)
    requires Inv(b) && i < |b.threads| && b.threads[i].Appended?
    ensures b.threads[i].tp in b.parts && 0 < b.parts[b.threads[i].tp].leo
  {
    hide PartsOk, IdsOk, AllOwed, Enrolled;
    assert Informed(b.threads[i], b.parts[b.threads[i].tp]);
  }

  /** When no thread has anything left to do, a request that did not ask for acks=all has succeeded, and
      one that did has succeeded, has timed out, has its answer waiting, or waits for a watermark that
      is not there yet. */
  lemma {:induction false} ProduceSettles(bs: seq<Broker>, actions: seq<Action>, k: nat, m: nat)
    requires Run(bs, actions) && k < m < |bs| && actions[k].Produce?
    requires forall i :: 0 <= i < |bs[m].threads| ==> Idle(bs[m].threads[i])
    ensures |bs[k].threads| < |bs[m].threads|
    ensures var th := bs[m].threads[|bs[k].threads|];
            || th.Succeeded?
            || (actions[k].all && th.TimedOut?)
            || (actions[k].all && th.Waiting? && th.tp in bs[m].parts &&
                  (th.id in bs[m].pool.answered || bs[m].parts[th.tp].tracker.hw < th.required))
  {
    hide Run, Next, Init, PartOk, Informed, Enrolled, Isr.Settled;
    ProduceHandled(bs, actions, k, m);
    NoLostWakeup(bs, actions, m);
    RunInv(bs, actions, m);
  }

  // ---- Replica fetches -------------------------------------------------------------------------------

  predicate Fetching(th: Thread) { th.FetchRead? || th.FetchLeo? || th.FetchLeader? }

  predicate FetchReviewed(th: Thread) { th.FetchHw? || th.FetchChecking? || th.FetchDone? }

  /** The thread serves a fetch of a replica that it takes to end at `end`. */
  predicate Serves(th: Thread, tp: Tp, replica: int, end: int) {
    th.tp == tp && (FetchReviewed(th) || (Fetching(th) && th.replica == replica && th.end == end))
  }

  /** The end offset the tracker has for a replica. */
  function Tracked(b: Broker, tp: Tp, id: int): int {
    if tp in b.parts && id in b.parts[tp].tracker.replicas then b.parts[tp].tracker.replicas[id].leo else 0
  }

  /** One step: tracked ends only grow; only a fetch under way moves a follower's, to the end it fetched
      up to; and a report is taken in. */
  lemma {:induction false} TrackedAfter(b: Broker, a: Action, b': Broker, tp: Tp, id: int)
    requires Inv(b) && Next(b, a, b')
    ensures Tracked(b, tp, id) <= Tracked(b', tp, id)
    ensures Tracked(b, tp, id) < Tracked(b', tp, id) && id != b.parts[tp].tracker.leader ==>
              a.Step? && a.i < |b.threads| && b.threads[a.i] == FetchLeader(tp, id, Tracked(b', tp, id), b.threads[a.i].leo)
    ensures a.Step? && b.threads[a.i].FetchLeader? && b.threads[a.i].tp == tp && b.threads[a.i].replica == id ==>
              b.threads[a.i].end <= Tracked(b', tp, id)
    ensures a.Step? && b.threads[a.i].LeoRead? && b.threads[a.i].tp == tp && b.parts[tp].tracker.leader == id ==>
              b.threads[a.i].leo <= Tracked(b', tp, id)
  {
    hide PartOk, IdsOk, AllOwed, Enrolled, Completed, Watched, Cancelled, Informed, Isr.Updates;
    if a.Step? && (b.threads[a.i].LeoRead? || b.threads[a.i].FetchLeo? || b.threads[a.i].FetchLeader?) {
      var th := b.threads[a.i];
      var p := b.parts[th.tp];
      var who, leo := if th.FetchLeader? then th.replica else p.tracker.leader, if th.FetchLeader? then th.end else th.leo;
      assert Isr.Updates(p.tracker, who, leo, th.leo, a.now, b'.parts[th.tp].tracker);
      ReviewTracked(b, a.i, who, leo, th.leo, a.now, b'.parts[th.tp].tracker, id);
    }
  }

  lemma {:induction false} ReviewTracked(b: Broker, i: nat, who: int, leo: int, leaderLeo: int, now: int, t': Isr.Tracker, id: int)
    requires Inv(b) && i < |b.threads| && b.threads[i].tp in b.parts
    requires var t := b.parts[b.threads[i].tp].tracker;
             && who == (if b.threads[i].FetchLeader? then b.threads[i].replica else t.leader)
             && Isr.Updates(t, who, leo, leaderLeo, now, t')
    ensures var t := b.parts[b.threads[i].tp].tracker;
            && t.leader in t.replicas && who in t.replicas && t'.replicas.Keys == t.replicas.Keys
            && (id in t.replicas ==> t'.replicas[id].leo == if id == who then Max(t.replicas[id].leo, leo) else t.replicas[id].leo)
  {
    hide IdsOk, AllOwed, Enrolled;
    var p := b.parts[b.threads[i].tp];
    assert PartOk(p, b.clock) && Informed(b.threads[i], p);
    if id in p.tracker.replicas {
      Isr.ReviewedOne(p.tracker, p.reviewed, who, leo, leaderLeo, now, id);
    }
  }

  lemma {:induction false} ServesStays(b: Broker, a: Action, b': Broker, i: nat, tp: Tp, replica: int, end: int)
    requires Next(b, a, b') && i < |b.threads| && Serves(b.threads[i], tp, replica, end)
    ensures i < |b'.threads| && Serves(b'.threads[i], tp, replica, end)
    ensures FetchReviewed(b'.threads[i]) ==>
              FetchReviewed(b.threads[i]) || (a.Step? && a.i == i && b.threads[i].FetchLeader?)
  {
    hide Isr.Updates, Completed, Watched, Cancelled;
  }

  /** Thread |bs[k].threads| serves a Fetch of step k; once it has reviewed the tracker, the replica is
      credited with the end of what it was sent, from then on. */
  lemma {:induction false} FetchCredited(bs: seq<Broker>, actions: seq<Action>, k: nat, m: nat)
    requires Run(bs, actions) && k < m < |bs| && actions[k].Fetch?
    ensures var a := actions[k];
            var i := |bs[k].threads|;
            && i < |bs[m].threads| && Serves(bs[m].threads[i], a.tp, a.replica, a.end)
            && (FetchReviewed(bs[m].threads[i]) ==> a.end <= Tracked(bs[m], a.tp, a.replica))
  {
    hide Init, ThreadStep, Inv;
    var a := actions[k];
    var i := |bs[k].threads|;
    assert Next(bs[k], actions[k], bs[k + 1]);
    if m > k + 1 {
      FetchCredited(bs, actions, k, m - 1);
      assert Next(bs[m - 1], actions[m - 1], bs[m]);
      ServesStays(bs[m - 1], actions[m - 1], bs[m], i, a.tp, a.replica, a.end);
      RunInv(bs, actions, m - 1);
      TrackedAfter(bs[m - 1], actions[m - 1], bs[m], a.tp, a.replica);
    }
  }

  lemma {:induction false} FetchingBefore(b: Broker, a: Action, b': Broker, j: nat)
    requires Next(b, a, b') && j < |b'.threads| && Fetching(b'.threads[j])
    ensures var th := b'.threads[j];
            || a == Fetch(th.tp, th.replica, th.end)
            || (j < |b.threads| && Fetching(b.threads[j]) && b.threads[j].tp == th.tp && b.threads[j].replica == th.replica && b.threads[j].end == th.end)
  {
    hide Isr.Updates, Completed, Watched, Cancelled;
  }

  lemma {:induction false} FetchedBefore(bs: seq<Broker>, actions: seq<Action>, m: nat, j: nat) returns (k: nat)
    requires Run(bs, actions) && m < |bs| && j < |bs[m].threads| && Fetching(bs[m].threads[j])
    ensures k < m && actions[k] == Fetch(bs[m].threads[j].tp, bs[m].threads[j].replica, bs[m].threads[j].end)
  {
    hide Next;
    FetchingBefore(bs[m - 1], actions[m - 1], bs[m], j);
    var th := bs[m].threads[j];
    if actions[m - 1] == Fetch(th.tp, th.replica, th.end) {
      k := m - 1;
    } else {
      k := FetchedBefore(bs, actions, m - 1, j);
    }
  }

  /** A follower is credited with nothing but what it fetched: its tracked end, unless it is still 0, is
      the end of some fetch of its own. */
  lemma {:induction false} CreditWasFetched(bs: seq<Broker>, actions: seq<Action>, m: nat, tp: Tp, id: int) returns (k: nat)
    requires Run(bs, actions) && m < |bs| && tp in bs[m].parts && id != bs[m].parts[tp].tracker.leader && Tracked(bs[m], tp, id) != 0
    ensures k < m && actions[k] == Fetch(tp, id, Tracked(bs[m], tp, id))
  {
    hide Next, Inv, Advances;
    if m == 0 {
      NothingTracked(bs[0], tp, id);
      assert false;
    } else {
      RunInv(bs, actions, m - 1);
      WatermarksMonotone(bs, actions, m - 1, m);
      SameLeader(bs[m - 1], bs[m], tp);
      TrackedAfter(bs[m - 1], actions[m - 1], bs[m], tp, id);
      if Tracked(bs[m - 1], tp, id) == Tracked(bs[m], tp, id) {
        k := CreditWasFetched(bs, actions, m - 1, tp, id);
      } else {
        k := FetchedBefore(bs, actions, m - 1, actions[m - 1].i);
      }
    }
  }

  lemma {:induction false} SameLeader(b: Broker, b': Broker, tp: Tp)
    requires tp in b.parts && tp in b'.parts && Advances(b.parts[tp], b'.parts[tp])
    ensures b'.parts[tp].tracker.leader == b.parts[tp].tracker.leader
  {
  }

  lemma {:induction false} NothingTracked(b: Broker, tp: Tp, id: int)
    requires Init(b)
    ensures Tracked(b, tp, id) == 0
  {
  }

  /** So an acknowledged acks=all request was fetched: when its handler is done with success, every
      in-sync follower has sent a fetch that ended past the request's last record. */
  lemma {:induction false} AcknowledgedWasFetched(bs: seq<Broker>, actions: seq<Action>, k: nat, m: nat, id: int) returns (f: nat)
    requires Run(bs, actions) && k < m < |bs| && actions[k].Produce? && actions[k].all
    requires |bs[k].threads| < |bs[m].threads| && bs[m].threads[|bs[k].threads|].Succeeded?
    requires actions[k].tp in bs[m].parts
    requires var t := bs[m].parts[actions[k].tp].tracker; id in t.replicas && t.replicas[id].inSync && id != t.leader
    ensures f < m && actions[f].Fetch? && actions[f].tp == actions[k].tp && actions[f].replica == id
    ensures actions[k].tp in bs[k].parts && actions[f].end >= bs[k].parts[actions[k].tp].leo + actions[k].n
  {
    hide Next, Init;
    ProduceAcknowledged(bs, actions, k, m, m);
    LogEndsPositive(bs, actions, k);
    f := CreditWasFetched(bs, actions, m, actions[k].tp, id);
  }

  lemma {:induction false} LogEndsPositive(bs: seq<Broker>, actions: seq<Action>, k: nat)
    requires Run(bs, actions) && k < |actions| && actions[k].Produce?
    ensures actions[k].tp in bs[k].parts && bs[k].parts[actions[k].tp].leo >= 0 && actions[k].n >= 1
  {
    hide Init, ThreadStep, ThreadsOk, IdsOk, AllOwed;
    assert Next(bs[k], actions[k], bs[k + 1]);
    RunInv(bs, actions, k);
    assert PartOk(bs[k].parts[actions[k].tp], bs[k].clock);
  }

  // ---- The partition's watermark ---------------------------------------------------------------------

  /** The thread is about to raise the partition's watermark to at least `hw`. */
  predicate Carries(th: Thread, tp: Tp, hw: int) {
    th.tp == tp && (th.FetchLeader? || ((th.HwKnown? || th.FetchHw?) && th.hw >= hw))
  }

  /** The partition's watermark has reached the tracker's, or some thread is on its way to raise it. */
  ghost predicate HwFollows(b: Broker, tp: Tp)
    requires tp in b.parts
  {
    b.parts[tp].tracker.hw <= b.parts[tp].hw || exists j :: 0 <= j < |b.threads| && Carries(b.threads[j], tp, b.parts[tp].tracker.hw)
  }

  /** The mover raises the watermark it carried, or carries one from now on; others carry on. */
  lemma {:induction false} HwStepFollows(b: Broker, a: Action, b': Broker, tp: Tp)
    requires Inv(b) && Next(b, a, b') && tp in b.parts && HwFollows(b, tp)
    ensures tp in b'.parts && HwFollows(b', tp)
  {
    hide Inv, ThreadStep;
    NextMonotone(b, a, b');
    if b'.parts[tp].tracker.hw > b.parts[tp].tracker.hw {
      HwMoved(b, a, b', tp);
      assert Carries(b'.threads[a.i], tp, b'.parts[tp].tracker.hw);
    } else if b.parts[tp].tracker.hw > b.parts[tp].hw {
      var j :| 0 <= j < |b.threads| && Carries(b.threads[j], tp, b.parts[tp].tracker.hw);
      CarriesOn(b, a, b', tp, j);
    }
  }

  lemma {:induction false} HwMoved(b: Broker, a: Action, b': Broker, tp: Tp)
    requires Next(b, a, b') && tp in b.parts && tp in b'.parts && b'.parts[tp].tracker.hw > b.parts[tp].tracker.hw
    ensures a.Step? && a.i < |b'.threads| && Carries(b'.threads[a.i], tp, b'.parts[tp].tracker.hw)
  {
    hide Isr.Updates, Completed, Watched, Cancelled;
  }

  lemma {:induction false} CarriesOn(b: Broker, a: Action, b': Broker, tp: Tp, j: nat)
    requires Next(b, a, b') && tp in b.parts && tp in b'.parts && j < |b.threads|
    requires Carries(b.threads[j], tp, b.parts[tp].tracker.hw) && b'.parts[tp].tracker.hw <= b.parts[tp].tracker.hw
    ensures b'.parts[tp].tracker.hw <= b'.parts[tp].hw || (j < |b'.threads| && Carries(b'.threads[j], tp, b'.parts[tp].tracker.hw))
  {
    hide Isr.Updates, Completed, Watched, Cancelled;
  }

  /** Over every run the partition's watermark never passes both the tracker's and the one it started
      with, and when no thread has anything left to do it is the larger of the two. */
  lemma {:induction false} HwIsTrackers(bs: seq<Broker>, actions: seq<Action>, k: nat, tp: Tp)
    requires Run(bs, actions) && k < |bs| && tp in bs[0].parts
    ensures tp in bs[k].parts && HwFollows(bs[k], tp)
    ensures bs[k].parts[tp].hw <= Max(bs[0].parts[tp].hw, bs[k].parts[tp].tracker.hw)
    ensures (forall i :: 0 <= i < |bs[k].threads| ==> Idle(bs[k].threads[i])) ==>
              bs[k].parts[tp].hw == Max(bs[0].parts[tp].hw, bs[k].parts[tp].tracker.hw)
  {
    hide Next, Inv;
    WatermarksMonotone(bs, actions, 0, k);
    if k > 0 {
      HwIsTrackers(bs, actions, k - 1, tp);
      RunInv(bs, actions, k - 1);
      NextMonotone(bs[k - 1], actions[k - 1], bs[k]);
      HwStepFollows(bs[k - 1], actions[k - 1], bs[k], tp);
      HwStepBound(bs[k - 1], actions[k - 1], bs[k], tp);
    }
  }

  lemma {:induction false} HwStepBound(b: Broker, a: Action, b': Broker, tp: Tp)
    requires Inv(b) && Next(b, a, b') && tp in b.parts && tp in b'.parts
    ensures b'.parts[tp].hw <= Max(b.parts[tp].hw, b.parts[tp].tracker.hw)
  {
    hide PartsOk, IdsOk, AllOwed, Isr.Updates, Completed, Watched, Cancelled, Enrolled;
    if a.Step? {
      assert Informed(b.threads[a.i], b.parts[b.threads[a.i].tp]);
    }
  }

  lemma {:induction false} AnswerStays(b: Broker, a: Action, b': Broker, i: nat)
    requires Next(b, a, b') && i < |b.threads| && FetchReviewed(b.threads[i])
    ensures i < |b'.threads| && FetchReviewed(b'.threads[i]) && b'.threads[i].tp == b.threads[i].tp && b'.threads[i].hw == b.threads[i].hw
  {
    hide Isr.Updates, Completed, Watched, Cancelled;
  }

  /** What a replica is told in the end is the tracker's watermark right after the review of its own
      fetch. */
  lemma {:induction false} FetchTold(bs: seq<Broker>, actions: seq<Action>, j: nat, m: nat)
    requires Run(bs, actions) && j < m < |bs| && actions[j].Step?
    requires actions[j].i < |bs[j].threads| && bs[j].threads[actions[j].i].FetchLeader?
    ensures var i, tp := actions[j].i, bs[j].threads[actions[j].i].tp;
            && tp in bs[j + 1].parts && i < |bs[m].threads| && FetchReviewed(bs[m].threads[i])
            && bs[m].threads[i].tp == tp && bs[m].threads[i].hw == bs[j + 1].parts[tp].tracker.hw
  {
    hide Init, Isr.Updates;
    assert Next(bs[j], actions[j], bs[j + 1]);
    if m > j + 1 {
      FetchTold(bs, actions, j, m - 1);
      assert Next(bs[m - 1], actions[m - 1], bs[m]);
      AnswerStays(bs[m - 1], actions[m - 1], bs[m], actions[j].i);
    }
  }

  // ---- The purgatory ---------------------------------------------------------------------------------

  /** Every watched request is that of a waiter, is not answered yet, and no waiter that gave up has left
      one behind. */
  ghost predicate PoolOwned(b: Broker) {
    && b.pool.items.Keys !! b.pool.answered
    && (forall id :: id in b.pool.items ==> exists j :: 0 <= j < |b.threads| && HasId(b.threads[j]) && b.threads[j].id == id)
    && (forall j :: 0 <= j < |b.threads| && b.threads[j].TimedOut? ==> b.threads[j].id <= b.pool.lastId && b.threads[j].id !in b.pool.items)
  }

  /** What a step does to one watched request: it was there before, with a waiter that keeps it, or it is
      the mover's own new one. */
  lemma {:induction false} ItemAfter(b: Broker, a: Action, b': Broker, id: int)
    requires ThreadsOk(b) && IdsOk(b) && Next(b, a, b') && b.pool.items.Keys !! b.pool.answered && id in b'.pool.items
    ensures id !in b'.pool.answered
    ensures id in b.pool.items || (a.Step? && a.i < |b'.threads| && HasId(b'.threads[a.i]) && b'.threads[a.i].id == id)
    ensures id in b.pool.items && a.Step? && HasId(b.threads[a.i]) && b.threads[a.i].id == id ==>
              a.i < |b'.threads| && HasId(b'.threads[a.i]) && b'.threads[a.i].id == id
  {
    hide Isr.Updates, Informed;
  }

  lemma {:induction false} OthersStand(b: Broker, a: Action, b': Broker, j: nat)
    requires Next(b, a, b') && j < |b.threads| && !(a.Step? && a.i == j)
    ensures j < |b'.threads| && (HasId(b.threads[j]) ==> HasId(b'.threads[j]) && b'.threads[j].id == b.threads[j].id)
  {
    hide Isr.Updates, Completed, Watched, Cancelled;
  }

  /** A waiter's request leaves the pool with the waiter, and ids are not handed out twice. */
  lemma {:induction false} PoolStep(b: Broker, a: Action, b': Broker)
    requires Inv(b) && PoolOwned(b) && Next(b, a, b')
    ensures PoolOwned(b')
  {
    hide PartsOk, ThreadsOk, IdsOk, AllOwed, Next;
    forall id | id in b'.pool.items
      ensures id !in b'.pool.answered && exists j :: 0 <= j < |b'.threads| && HasId(b'.threads[j]) && b'.threads[j].id == id
    {
      ItemAfter(b, a, b', id);
      if id in b.pool.items {
        var j :| 0 <= j < |b.threads| && HasId(b.threads[j]) && b.threads[j].id == id;
        if !(a.Step? && a.i == j) {
          OthersStand(b, a, b', j);
        }
      }
    }
    forall j | 0 <= j < |b'.threads| && b'.threads[j].TimedOut?
      ensures b'.threads[j].id <= b'.pool.lastId && b'.threads[j].id !in b'.pool.items
    {
      GoneAfter(b, a, b', j);
    }
  }

  lemma {:induction false} GoneAfter(b: Broker, a: Action, b': Broker, j: nat)
    requires ThreadsOk(b) && PoolOwned(b) && Next(b, a, b') && j < |b'.threads| && b'.threads[j].TimedOut?
    ensures b'.threads[j].id <= b'.pool.lastId && b'.threads[j].id !in b'.pool.items
  {
    hide Isr.Updates, Informed;
    if a.Step? {
      assert Enrolled(b.threads[a.i], b.pool, b.parts[b.threads[a.i].tp]);
    }
  }

  /** Over every run, so when no thread has anything left to do, the purgatory holds exactly requests of
      waiters whose watermark is not there yet. */
  lemma {:induction false} NoRequestLeaks(bs: seq<Broker>, actions: seq<Action>, k: nat)
    requires Run(bs, actions) && k < |bs|
    ensures PoolOwned(bs[k])
    ensures (forall i :: 0 <= i < |bs[k].threads| ==> Idle(bs[k].threads[i])) ==>
              forall id :: id in bs[k].pool.items ==>
                exists j :: 0 <= j < |bs[k].threads| && bs[k].threads[j].Waiting? && bs[k].threads[j].id == id && !Due(bs[k], bs[k].threads[j])
  {
    hide Next, Inv;
    if k > 0 {
      NoRequestLeaks(bs, actions, k - 1);
      RunInv(bs, actions, k - 1);
      PoolStep(bs[k - 1], actions[k - 1], bs[k]);
    }
    if forall i :: 0 <= i < |bs[k].threads| ==> Idle(bs[k].threads[i]) {
      QuietPool(bs, actions, k);
    }
  }

  lemma {:induction false} QuietPool(bs: seq<Broker>, actions: seq<Action>, k: nat)
    requires Run(bs, actions) && k < |bs| && PoolOwned(bs[k])
    requires forall i :: 0 <= i < |bs[k].threads| ==> Idle(bs[k].threads[i])
    ensures forall id :: id in bs[k].pool.items ==>
              exists j :: 0 <= j < |bs[k].threads| && bs[k].threads[j].Waiting? && bs[k].threads[j].id == id && !Due(bs[k], bs[k].threads[j])
  {
    hide Run, PartsOk, IdsOk, AllOwed, Informed;
    RunInv(bs, actions, k);
    NoLostWakeup(bs, actions, k);
    var b := bs[k];
    forall id | id in b.pool.items
      ensures exists j :: 0 <= j < |b.threads| && b.threads[j].Waiting? && b.threads[j].id == id && !Due(b, b.threads[j])
    {
      var j :| 0 <= j < |b.threads| && HasId(b.threads[j]) && b.threads[j].id == id;
      assert Enrolled(b.threads[j], b.pool, b.parts[b.threads[j].tp]);
      assert !Ripe(b, id);
    }
  }

  // ---- Progress --------------------------------------------------------------------------------------

  /** A bound on the steps a thread has ahead of it before it is idle. */
  function Ahead(th: Thread): nat {
    match th
    case Appended(_, _, _, _) => 9
    case LeoRead(_, _, _, _, _) => 8
    case HwKnown(_, _, _, _, _, _) => 7
    case HwSet(_, _, _, _, _, _) => 6
    case Entering(_, _, _, _) => 5
    case Watching(_, _, _, _) => 4
    case Rereading(_, _, _, _, _) => 3
    case Reached(_, _, _, _, _) => 2
    case Completing(_, _, _, _, _, _) => 1
    case Expired(_, _, _, _, _) => 1
    case FetchRead(_, _, _) => 5
    case FetchLeo(_, _, _, _) => 4
    case FetchLeader(_, _, _, _) => 3
    case FetchHw(_, _) => 2
    case FetchChecking(_, _) => 1
    case _ => 0
  }

  /** A thread that is not idle can step, and is then closer to being idle. */
  lemma {:induction false} CanStep(b: Broker, i: nat) returns (b': Broker)
    requires ThreadsOk(b) && i < |b.threads| && !Idle(b.threads[i])
    ensures Next(b, Step(i, b.clock), b') && i < |b'.threads| && Ahead(b'.threads[i]) < Ahead(b.threads[i])
  {
    hide Isr.Updates, Informed, Enrolled, Completed, Watched, Cancelled;
    var th := b.threads[i];
    var p := b.parts[th.tp];
    if th.LeoRead? || th.FetchLeo? || th.FetchLeader? {
      var who, leo := if th.FetchLeader? then th.replica else p.tracker.leader, if th.FetchLeader? then th.end else th.leo;
      var t' := Isr.SomeUpdate(p.tracker, who, leo, th.leo, b.clock);
      var b1 := WithPart(b, th.tp, p.(tracker := t', reviewed := b.clock));
      b' := Moved(b1, i,
                  if th.LeoRead? then HwKnown(th.tp, th.base, th.n, th.all, th.leo, t'.hw)
                  else if th.FetchLeo? then FetchLeader(th.tp, th.replica, th.end, th.leo)
                  else FetchHw(th.tp, t'.hw));
      assert b'.(threads := b.threads) == b1.(clock := b.clock);
    } else {
      b' := Stepped(b, i);
    }
  }

  /** A waiter that was answered can step, and succeeds. */
  lemma {:induction false} AnsweredSucceeds(b: Broker, i: nat) returns (b': Broker)
    requires i < |b.threads| && b.threads[i].Waiting? && b.threads[i].tp in b.parts && b.threads[i].id in b.pool.answered
    ensures Next(b, Step(i, b.clock), b') && i < |b'.threads| && b'.threads[i].Succeeded?
  {
    b' := Stepped(b, i);
  }
}
