/** Produce with acks=all against replica fetches, as a machine with one step per critical section
    (internal/broker/broker.go, internal/broker/broker_replication.go, internal/broker/partition.go).
    Any number of handlers and waiters run at once, over any number of partitions. */
module AcksAll {
  import opened Bytes
  import opened Isr
  import opened Purgatories

  /** A partition on its leader: log end, high watermark, tracker, and when the tracker was last
      reviewed. */
  datatype Part = Part(leo: int, hw: int, tracker: Tracker, reviewed: int)

  /** Where a thread stands. A produce thread handles one partition of one request; `all` says the
      request asked for acks=-1, in which case it goes on as that partition's waiter. */
  datatype Thread =
    // handleProduce, after the append
    | Appended(tp: Tp, base: int, n: int, all: bool)
    | LeoRead(tp: Tp, base: int, n: int, all: bool, leo: int)
    | HwKnown(tp: Tp, base: int, n: int, all: bool, leo: int, hw: int)
    | HwSet(tp: Tp, base: int, n: int, all: bool, leo: int, hw: int)
    // waitForAcksAll
    | Entering(tp: Tp, base: int, n: int, required: int)
    | Watching(tp: Tp, base: int, n: int, required: int)
    | Rereading(tp: Tp, base: int, n: int, required: int, id: int)
    | Reached(tp: Tp, base: int, n: int, required: int, id: int)
    | Completing(tp: Tp, base: int, n: int, required: int, id: int, hw: int)
    | Waiting(tp: Tp, base: int, n: int, required: int, id: int)
    | Expired(tp: Tp, base: int, n: int, required: int, id: int)
    // the answers
    | Succeeded(tp: Tp, base: int, n: int, all: bool)
    | TimedOut(tp: Tp, id: int)
    // handleReplicaFetch, after the read; `end` is the end offset it credits the replica with
    | FetchRead(tp: Tp, replica: int, end: int)
    | FetchLeo(tp: Tp, replica: int, end: int, leo: int)
    | FetchLeader(tp: Tp, replica: int, end: int, leo: int)
    | FetchHw(tp: Tp, hw: int)
    | FetchChecking(tp: Tp, hw: int)
    | FetchDone(tp: Tp, hw: int)

  datatype Broker = Broker(parts: map<Tp, Part>, pool: Pool, threads: seq<Thread>, clock: int)

  // ---- The steps ----------------------------------------------------------------------------------

  datatype Action =
    | Produce(tp: Tp, n: int, all: bool)
    | ProduceFailing(tp: Tp, stored: nat)
    | Fetch(tp: Tp, replica: int, end: int)
    | Step(i: nat, now: int)
    | Expire(i: nat)

  function Moved(b: Broker, i: nat, th: Thread): Broker
    requires i < |b.threads|
  {
    b.(threads := b.threads[i := th])
  }

  function Spawned(b: Broker, th: Thread): Broker { b.(threads := b.threads + [th]) }

  function WithPart(b: Broker, tp: Tp, p: Part): Broker { b.(parts := b.parts[tp := p]) }

  /** UpdateLEO under the tracker's lock, at clock reading `now`. */
  ghost predicate Reviews(b: Broker, tp: Tp, id: int, leo: int, leaderLeo: int, now: int, b': Broker)
    requires tp in b.parts
  {
    && now >= b.clock && tp in b'.parts
    && var p := b.parts[tp];
       var t' := b'.parts[tp].tracker;
       && Updates(p.tracker, id, leo, leaderLeo, now, t')
       && b'.(threads := b.threads) == WithPart(b, tp, p.(tracker := t', reviewed := now)).(clock := now)
  }

  /** SetHighWatermark: only upwards. */
  function HwRaised(b: Broker, tp: Tp, hw: int): Broker
    requires tp in b.parts
  {
    WithPart(b, tp, b.parts[tp].(hw := Max(b.parts[tp].hw, hw)))
  }

  /** A step of thread i that does not touch the tracker. */
  function Stepped(b: Broker, i: nat): Broker
    requires i < |b.threads| && b.threads[i].tp in b.parts
  {
    var p := b.parts[b.threads[i].tp];
    match b.threads[i]
    case Appended(tp, base, n, all) => Moved(b, i, LeoRead(tp, base, n, all, p.leo))
    case HwKnown(tp, base, n, all, leo, hw) => Moved(HwRaised(b, tp, hw), i, HwSet(tp, base, n, all, leo, hw))
    case HwSet(tp, base, n, all, leo, hw) =>
      Moved(b.(pool := Completed(b.pool, tp, hw)), i, if all then Entering(tp, base, n, leo) else Succeeded(tp, base, n, false))
    case Entering(tp, base, n, required) =>
      Moved(b, i, if required <= 0 || p.tracker.hw >= required then Succeeded(tp, base, n, true)
                  else Watching(tp, base, n, required))
    case Watching(tp, base, n, required) =>
      Moved(b.(pool := Watched(b.pool, tp, required)), i, Rereading(tp, base, n, required, b.pool.lastId + 1))
    case Rereading(tp, base, n, required, id) =>
      Moved(b, i, if p.tracker.hw >= required then Reached(tp, base, n, required, id) else Waiting(tp, base, n, required, id))
    case Reached(tp, base, n, required, id) => Moved(b, i, Completing(tp, base, n, required, id, p.tracker.hw))
    case Completing(tp, base, n, required, id, hw) =>
      Moved(b.(pool := Completed(b.pool, tp, hw)), i, Waiting(tp, base, n, required, id))
    case Waiting(tp, base, n, required, id) => Moved(b, i, Succeeded(tp, base, n, true))
    case Expired(tp, base, n, required, id) => Moved(b.(pool := Cancelled(b.pool, id)), i, TimedOut(tp, id))
    case FetchRead(tp, replica, end) => Moved(b, i, FetchLeo(tp, replica, end, p.leo))
    case FetchHw(tp, hw) => Moved(HwRaised(b, tp, hw), i, FetchChecking(tp, hw))
    case FetchChecking(tp, hw) => Moved(b.(pool := Completed(b.pool, tp, hw)), i, FetchDone(tp, hw))
    case _ => b
  }

  predicate Ended(th: Thread) { th.Succeeded? || th.TimedOut? || th.FetchDone? }

  /** One step of thread i. */
  ghost predicate ThreadStep(b: Broker, i: nat, now: int, b': Broker)
    requires i < |b.threads| && b.threads[i].tp in b.parts
  {
    var p := b.parts[b.threads[i].tp];
    match b.threads[i]
    case LeoRead(tp, base, n, all, leo) =>
      && Reviews(b, tp, p.tracker.leader, leo, leo, now, b')
      && b'.threads == b.threads[i := HwKnown(tp, base, n, all, leo, b'.parts[tp].tracker.hw)]
    case FetchLeo(tp, replica, end, leo) =>
      && Reviews(b, tp, p.tracker.leader, leo, leo, now, b')
      && b'.threads == b.threads[i := FetchLeader(tp, replica, end, leo)]
    case FetchLeader(tp, replica, end, leo) =>
      && Reviews(b, tp, replica, end, leo, now, b')
      && b'.threads == b.threads[i := FetchHw(tp, b'.parts[tp].tracker.hw)]
    case Waiting(tp, base, n, required, id) => id in b.pool.answered && b' == Stepped(b, i)
    case th => !Ended(th) && b' == Stepped(b, i)
  }

  ghost predicate Next(b: Broker, a: Action, b': Broker) {
    match a
    case Produce(tp, n, all) =>
      && tp in b.parts && n >= 1
      && var p := b.parts[tp];
         b' == Spawned(WithPart(b, tp, p.(leo := p.leo + n)), Appended(tp, p.leo, n, all))
    case ProduceFailing(tp, stored) =>
      tp in b.parts && b' == WithPart(b, tp, b.parts[tp].(leo := b.parts[tp].leo + stored))
    case Fetch(tp, replica, end) =>
      && tp in b.parts && replica in b.parts[tp].tracker.replicas && replica != b.parts[tp].tracker.leader
      && b' == Spawned(b, FetchRead(tp, replica, end))
    case Step(i, now) => i < |b.threads| && b.threads[i].tp in b.parts && ThreadStep(b, i, now, b')
    case Expire(i) =>
      && i < |b.threads| && b.threads[i].Waiting?
      && var th := b.threads[i];
         b' == Moved(b, i, Expired(th.tp, th.base, th.n, th.required, th.id))
  }

  // ---- The invariant ------------------------------------------------------------------------------

  ghost predicate PartOk(p: Part, clock: int) {
    && Settled(p.tracker, p.reviewed) && p.reviewed <= clock && p.tracker.lagMax >= 0
    && p.tracker.replicas[p.tracker.leader].leo <= p.leo && 0 <= p.hw <= p.leo
  }

  predicate HasId(th: Thread) { th.Rereading? || th.Reached? || th.Completing? || th.Waiting? || th.Expired? }

  /** A thread that carries a request's required watermark. */
  predicate Requires(th: Thread) { HasId(th) || th.Entering? || th.Watching? }

  /** What a thread knows stays true as end offsets and watermarks only grow. */
  predicate Informed(th: Thread, p: Part) {
    && (th.Appended? || th.LeoRead? || th.HwKnown? || th.HwSet? || Requires(th) || th.Succeeded? ==> 0 <= th.base && 1 <= th.n)
    && (th.Appended? ==> th.base + th.n <= p.leo)
    && (th.LeoRead? || th.HwKnown? || th.HwSet? ==> th.base + th.n <= th.leo <= p.leo)
    && (th.HwKnown? || th.HwSet? || th.Completing? || th.FetchHw? || th.FetchChecking? ==> th.hw <= p.tracker.hw)
    && (Requires(th) ==> th.base + th.n <= th.required <= p.leo)
    && (th.Succeeded? && th.all ==> th.base + th.n <= p.tracker.hw)
    && (th.FetchLeo? || th.FetchLeader? ==> th.leo <= p.leo)
    && (th.FetchRead? || th.FetchLeo? || th.FetchLeader? ==> th.replica in p.tracker.replicas && th.replica != p.tracker.leader)
  }

  /** A waiter's request is in the pool under its id, or was answered once the watermark was there. */
  predicate Enrolled(th: Thread, pool: Pool, p: Part) {
    HasId(th) ==>
      && th.id <= pool.lastId
      && (th.id in pool.items ==> pool.items[th.id] == Item(th.tp, th.required))
      && (th.id in pool.items || th.id in pool.answered)
      && (th.id in pool.answered ==> p.tracker.hw >= th.required)
  }

  /** The thread is bound to complete the request: it holds a watermark that satisfies it and has
      the check ahead of it, or will read one, or is the request's own waiter re-checking. */
  predicate Owes(th: Thread, id: int, item: Item) {
    || ((th.HwKnown? || th.HwSet? || th.FetchHw? || th.FetchChecking?) && th.tp == item.tp && th.hw >= item.required)
    || (th.FetchLeader? && th.tp == item.tp)
    || ((th.Rereading? || th.Reached?) && th.id == id)
    || (th.Completing? && th.id == id && th.hw >= item.required)
  }

  ghost predicate PartsOk(b: Broker) {
    forall tp :: tp in b.parts ==> PartOk(b.parts[tp], b.clock)
  }

  ghost predicate ThreadsOk(b: Broker) {
    forall i :: 0 <= i < |b.threads| ==>
      && b.threads[i].tp in b.parts
      && Informed(b.threads[i], b.parts[b.threads[i].tp])
      && Enrolled(b.threads[i], b.pool, b.parts[b.threads[i].tp])
  }

  ghost predicate IdsOk(b: Broker) {
    && (forall id :: id in b.pool.items ==> id <= b.pool.lastId && b.pool.items[id].tp in b.parts)
    && (forall id :: id in b.pool.answered ==> id <= b.pool.lastId)
    && (forall i, j :: 0 <= i < j < |b.threads| && HasId(b.threads[i]) && HasId(b.threads[j]) ==>
          b.threads[i].id != b.threads[j].id)
  }

  /** A watched request whose watermark has been reached. */
  predicate Ripe(b: Broker, id: int) {
    id in b.pool.items && b.pool.items[id].tp in b.parts
    && b.pool.items[id].required <= b.parts[b.pool.items[id].tp].tracker.hw
  }

  ghost predicate SomeoneOwes(b: Broker, id: int)
    requires id in b.pool.items
  {
    exists j :: 0 <= j < |b.threads| && Owes(b.threads[j], id, b.pool.items[id])
  }

  /** No lost wakeup: every ripe request is owed a completion. */
  ghost predicate AllOwed(b: Broker) {
    forall id :: Ripe(b, id) ==> SomeoneOwes(b, id)
  }

  ghost predicate Inv(b: Broker) { PartsOk(b) && ThreadsOk(b) && IdsOk(b) && AllOwed(b) }

  // ---- Every step keeps it ------------------------------------------------------------------------

  /** Only thread i moves, to a state that knows no more than it should and owes what it owed. */
  lemma {:induction false} MoveKeeps(b: Broker, i: nat, th: Thread)
    requires Inv(b) && i < |b.threads| && th.tp == b.threads[i].tp
    requires Informed(th, b.parts[th.tp]) && Enrolled(th, b.pool, b.parts[th.tp])
    requires HasId(th) ==> HasId(b.threads[i]) && th.id == b.threads[i].id
    requires forall id :: Ripe(b, id) && Owes(b.threads[i], id, b.pool.items[id]) ==> Owes(th, id, b.pool.items[id])
    ensures Inv(Moved(b, i, th))
  {
    hide PartOk, Informed, Enrolled, Owes;
    var b' := Moved(b, i, th);
    forall id | Ripe(b', id) ensures SomeoneOwes(b', id) {
      assert Ripe(b, id);
      var j :| 0 <= j < |b.threads| && Owes(b.threads[j], id, b.pool.items[id]);
      assert b'.threads[j] == if j == i then th else b.threads[j];
    }
  }

  /** The partition changes, no thread notices: end offsets and watermarks only grow. */
  ghost predicate Advances(p: Part, p': Part) {
    && p.leo <= p'.leo && p.tracker.hw <= p'.tracker.hw && p.hw <= p'.hw
    && p'.tracker.replicas.Keys == p.tracker.replicas.Keys && p'.tracker.leader == p.tracker.leader
  }

  lemma {:induction false} StillInformed(th: Thread, pool: Pool, p: Part, p': Part)
    requires Advances(p, p')
    ensures Informed(th, p) ==> Informed(th, p')
    ensures Enrolled(th, pool, p) ==> Enrolled(th, pool, p')
  {
  }

  lemma {:induction false} PartStepKeeps(b: Broker, tp: Tp, p': Part, clock: int)
    requires PartsOk(b) && ThreadsOk(b) && IdsOk(b) && tp in b.parts && clock >= b.clock
    requires PartOk(p', clock) && Advances(b.parts[tp], p')
    ensures var b' := WithPart(b, tp, p').(clock := clock);
            PartsOk(b') && ThreadsOk(b') && IdsOk(b')
  {
    hide Informed, Enrolled, Advances;
    var b' := WithPart(b, tp, p').(clock := clock);
    forall q | q in b'.parts ensures PartOk(b'.parts[q], clock) {
      assert PartOk(b.parts[q], b.clock);
    }
    forall j | 0 <= j < |b'.threads|
      ensures var th := b'.threads[j];
              th.tp in b'.parts && Informed(th, b'.parts[th.tp]) && Enrolled(th, b'.pool, b'.parts[th.tp])
    {
      StillInformed(b.threads[j], b.pool, b.parts[tp], p');
    }
  }

  /** With the trackers untouched, the same requests are ripe. */
  lemma {:induction false} OwedStays(b: Broker, tp: Tp, p': Part)
    requires AllOwed(b) && tp in b.parts && p'.tracker == b.parts[tp].tracker
    ensures AllOwed(WithPart(b, tp, p'))
  {
    hide Owes;
    var b' := WithPart(b, tp, p');
    forall id | Ripe(b', id) ensures SomeoneOwes(b', id) {
      assert Ripe(b, id);
      var j :| 0 <= j < |b.threads| && Owes(b.threads[j], id, b.pool.items[id]);
      assert b'.threads[j] == b.threads[j];
    }
  }

  /** A review may make requests ripe; the thread that caused it owes every one of them. */
  lemma {:induction false} OwedAfterReview(b: Broker, i: nat, p': Part, now: int, th: Thread)
    requires AllOwed(b) && i < |b.threads| && th.tp == b.threads[i].tp && th.tp in b.parts && !HasId(b.threads[i])
    requires th.FetchLeader? || ((th.HwKnown? || th.FetchHw?) && th.hw == p'.tracker.hw)
    ensures AllOwed(Moved(WithPart(b, th.tp, p').(clock := now), i, th))
  {
    var b' := Moved(WithPart(b, th.tp, p').(clock := now), i, th);
    forall k | Ripe(b', k) ensures SomeoneOwes(b', k) {
      if b.pool.items[k].tp == th.tp {
        assert Owes(b'.threads[i], k, b'.pool.items[k]);
      } else {
        assert Ripe(b, k);
        var j :| 0 <= j < |b.threads| && Owes(b.threads[j], k, b.pool.items[k]);
        assert j != i && b'.threads[j] == b.threads[j];
      }
    }
  }

  /** UpdateLEO on a known replica: the partition advances and stays settled. */
  lemma {:induction false} ReviewAdvances(b: Broker, tp: Tp, id: int, leo: int, leaderLeo: int, now: int, b': Broker)
    requires PartsOk(b) && tp in b.parts && Reviews(b, tp, id, leo, leaderLeo, now, b')
    requires id in b.parts[tp].tracker.replicas && (id == b.parts[tp].tracker.leader ==> leo <= b.parts[tp].leo)
    ensures PartOk(b'.parts[tp], now) && Advances(b.parts[tp], b'.parts[tp]) && now >= b.clock
    ensures b' == WithPart(b, tp, b'.parts[tp]).(clock := now, threads := b'.threads)
    ensures b'.parts[tp].leo == b.parts[tp].leo
  {
    hide Updates;
    var p, p' := b.parts[tp], b'.parts[tp];
    StepSettled(p.tracker, p.reviewed, id, leo, leaderLeo, now, p'.tracker);
  }

  lemma {:induction false} ThreadReplaced(b: Broker, i: nat, th: Thread)
    requires PartsOk(b) && ThreadsOk(b) && IdsOk(b) && i < |b.threads| && th.tp in b.parts && !HasId(th)
    requires Informed(th, b.parts[th.tp])
    ensures var b' := Moved(b, i, th);
            PartsOk(b') && ThreadsOk(b') && IdsOk(b')
  {
    hide PartOk, Informed;
  }

  lemma {:induction false} ReviewKeeps(b: Broker, i: nat, tp: Tp, id: int, leo: int, leaderLeo: int, now: int, b': Broker, th: Thread)
    requires Inv(b) && i < |b.threads| && tp in b.parts && b.threads[i].tp == th.tp == tp && !HasId(b.threads[i])
    requires id in b.parts[tp].tracker.replicas && (id == b.parts[tp].tracker.leader ==> leo <= b.parts[tp].leo)
    requires Reviews(b, tp, id, leo, leaderLeo, now, b') && b'.threads == b.threads[i := th]
    requires Informed(th, b'.parts[tp])
    requires th.FetchLeader? || ((th.HwKnown? || th.FetchHw?) && th.hw == b'.parts[tp].tracker.hw)
    ensures Inv(b')
  {
    hide PartsOk, ThreadsOk, IdsOk, AllOwed, Reviews, PartOk, Advances, Informed;
    ReviewAdvances(b, tp, id, leo, leaderLeo, now, b');
    var p' := b'.parts[tp];
    PartStepKeeps(b, tp, p', now);
    OwedAfterReview(b, i, p', now, th);
    ThreadReplaced(WithPart(b, tp, p').(clock := now), i, th);
  }

  /** SetHighWatermark with a watermark the tracker has reached. */
  lemma {:induction false} HwRaisedKeeps(b: Broker, tp: Tp, hw: int)
    requires Inv(b) && tp in b.parts && hw <= b.parts[tp].tracker.hw
    ensures Inv(HwRaised(b, tp, hw))
  {
    hide PartsOk, ThreadsOk, IdsOk, AllOwed;
    var p := b.parts[tp];
    var p' := p.(hw := Max(p.hw, hw));
    HwWithinLog(b, tp);
    PartStepKeeps(b, tp, p', b.clock);
    OwedStays(b, tp, p');
  }

  /** The watermark never passes the leader's log end. */
  lemma {:induction false} HwWithinLog(b: Broker, tp: Tp)
    requires PartsOk(b) && tp in b.parts
    ensures PartOk(b.parts[tp], b.clock) && b.parts[tp].tracker.hw <= b.parts[tp].leo
  {
    var t := b.parts[tp].tracker;
    assert t.replicas[t.leader].inSync;
  }

  /** What completing does for a waiter. */
  lemma {:induction false} StillEnrolled(th: Thread, pool: Pool, p: Part, tp: Tp, hw: int)
    requires Enrolled(th, pool, p) && (th.tp == tp ==> hw <= p.tracker.hw)
    ensures Enrolled(th, Completed(pool, tp, hw), p)
  {
    if HasId(th) && th.id in pool.items {
      CompletedExactly(pool, tp, hw, th.id);
    }
  }

  /** CheckAndComplete, with the thread that calls it done with its watermark. */
  lemma {:induction false} CompleteKeeps(b: Broker, i: nat, hw: int, th: Thread)
    requires Inv(b) && i < |b.threads| && th.tp == b.threads[i].tp && hw <= b.parts[th.tp].tracker.hw
    requires Informed(th, b.parts[th.tp])
    requires if HasId(th) then HasId(b.threads[i]) && th.id == b.threads[i].id && th.required == b.threads[i].required
             else !HasId(b.threads[i])
    requires b.threads[i].HwSet? || b.threads[i].FetchChecking? || b.threads[i].Completing?
    requires b.threads[i].hw == hw
    ensures Inv(Moved(b.(pool := Completed(b.pool, th.tp, hw)), i, th))
  {
    hide PartOk, Informed, Completed;
    CompleteEnrols(b, i, hw, th);
    CompleteOwed(b, i, hw, th);
    CompletedIds(b.pool, th.tp, hw);
  }

  lemma {:induction false} CompletedIds(p: Pool, tp: Tp, hw: int)
    ensures var c := Completed(p, tp, hw);
            && c.lastId == p.lastId
            && (forall id :: id in c.items ==> id in p.items && c.items[id] == p.items[id] && !Met(p.items[id], tp, hw))
            && (forall id :: id in c.answered ==> id in p.answered || id in p.items)
  {
  }

  lemma {:induction false} CompleteEnrols(b: Broker, i: nat, hw: int, th: Thread)
    requires ThreadsOk(b) && i < |b.threads| && th.tp == b.threads[i].tp && hw <= b.parts[th.tp].tracker.hw
    requires Informed(th, b.parts[th.tp])
    requires HasId(th) ==> HasId(b.threads[i]) && th.id == b.threads[i].id && th.required == b.threads[i].required
    ensures ThreadsOk(Moved(b.(pool := Completed(b.pool, th.tp, hw)), i, th))
  {
    hide Informed, Completed;
    var b' := Moved(b.(pool := Completed(b.pool, th.tp, hw)), i, th);
    forall j | 0 <= j < |b'.threads|
      ensures var t := b'.threads[j];
              t.tp in b'.parts && Informed(t, b'.parts[t.tp]) && Enrolled(t, b'.pool, b'.parts[t.tp])
    {
      StillEnrolled(b.threads[j], b.pool, b.parts[b.threads[j].tp], th.tp, hw);
    }
  }

  /** A request still in the pool was not satisfied by this watermark, so not owed by this thread. */
  lemma {:induction false} CompleteOwed(b: Broker, i: nat, hw: int, th: Thread)
    requires AllOwed(b) && ThreadsOk(b) && i < |b.threads| && th.tp == b.threads[i].tp
    requires b.threads[i].HwSet? || b.threads[i].FetchChecking? || b.threads[i].Completing?
    requires b.threads[i].hw == hw
    ensures AllOwed(Moved(b.(pool := Completed(b.pool, th.tp, hw)), i, th))
  {
    hide Informed, Completed;
    CompletedIds(b.pool, th.tp, hw);
    var b' := Moved(b.(pool := Completed(b.pool, th.tp, hw)), i, th);
    forall id | Ripe(b', id) ensures SomeoneOwes(b', id) {
      assert Ripe(b, id);
      var j :| 0 <= j < |b.threads| && Owes(b.threads[j], id, b.pool.items[id]);
      assert j != i && b'.threads[j] == b.threads[j];
    }
  }

  /** Watch: a fresh id, whose own waiter still re-checks. */
  lemma {:induction false} WatchKeeps(b: Broker, i: nat)
    requires Inv(b) && i < |b.threads| && b.threads[i].Watching?
    ensures var th := b.threads[i];
            Inv(Moved(b.(pool := Watched(b.pool, th.tp, th.required)), i,
                      Rereading(th.tp, th.base, th.n, th.required, b.pool.lastId + 1)))
  {
    hide PartOk;
    var th := b.threads[i];
    var th' := Rereading(th.tp, th.base, th.n, th.required, b.pool.lastId + 1);
    var b' := Moved(b.(pool := Watched(b.pool, th.tp, th.required)), i, th');
    forall id | Ripe(b', id) ensures SomeoneOwes(b', id) {
      if id == th'.id {
        assert Owes(b'.threads[i], id, b'.pool.items[id]);
      } else {
        assert Ripe(b, id);
        var j :| 0 <= j < |b.threads| && Owes(b.threads[j], id, b.pool.items[id]);
        assert j != i && b'.threads[j] == b.threads[j];
      }
    }
  }

  /** Cancel: only the waiter's own request goes. */
  lemma {:induction false} CancelKeeps(b: Broker, i: nat)
    requires Inv(b) && i < |b.threads| && b.threads[i].Expired?
    ensures var th := b.threads[i];
            Inv(Moved(b.(pool := Cancelled(b.pool, th.id)), i, TimedOut(th.tp, th.id)))
  {
    hide PartOk, Informed;
    var th := b.threads[i];
    assert Informed(TimedOut(th.tp, th.id), b.parts[th.tp]) by { Quiet(TimedOut(th.tp, th.id), b.parts[th.tp]); }
    var b' := Moved(b.(pool := Cancelled(b.pool, th.id)), i, TimedOut(th.tp, th.id));
    forall id | Ripe(b', id) ensures SomeoneOwes(b', id) {
      assert Ripe(b, id);
      var j :| 0 <= j < |b.threads| && Owes(b.threads[j], id, b.pool.items[id]);
      assert j != i && b'.threads[j] == b.threads[j];
    }
  }

  lemma {:induction false} Quiet(th: Thread, p: Part)
    requires th.TimedOut? || th.FetchDone?
    ensures Informed(th, p)
  {
  }

  lemma {:induction false} SpawnKeeps(b: Broker, th: Thread)
    requires Inv(b) && th.tp in b.parts && Informed(th, b.parts[th.tp]) && !HasId(th)
    ensures Inv(Spawned(b, th))
  {
    hide PartOk, Informed, Owes;
    var b' := Spawned(b, th);
    forall id | Ripe(b', id) ensures SomeoneOwes(b', id) {
      assert Ripe(b, id);
      var j :| 0 <= j < |b.threads| && Owes(b.threads[j], id, b.pool.items[id]);
      assert b'.threads[j] == b.threads[j];
    }
  }

  lemma {:induction false} GrowKeeps(b: Broker, tp: Tp, n: nat)
    requires Inv(b) && tp in b.parts
    ensures Inv(WithPart(b, tp, b.parts[tp].(leo := b.parts[tp].leo + n)))
  {
    hide PartsOk, ThreadsOk, IdsOk, AllOwed;
    HwWithinLog(b, tp);
    var p' := b.parts[tp].(leo := b.parts[tp].leo + n);
    PartStepKeeps(b, tp, p', b.clock);
    OwedStays(b, tp, p');
  }

  /** A step of a produce handler. */
  lemma {:induction false} ProducerStepKeeps(b: Broker, i: nat, now: int, b': Broker)
    requires Inv(b) && i < |b.threads| && b.threads[i].tp in b.parts && ThreadStep(b, i, now, b')
    requires b.threads[i].Appended? || b.threads[i].LeoRead? || b.threads[i].HwKnown? || b.threads[i].HwSet?
    ensures Inv(b')
  {
    hide PartsOk, IdsOk, AllOwed, Reviews, Completed;
    var th := b.threads[i];
    var p := b.parts[th.tp];
    HwWithinLog(b, th.tp);
    match th
    case Appended(tp, base, n, all) => MoveKeeps(b, i, LeoRead(tp, base, n, all, p.leo));
    case LeoRead(tp, base, n, all, leo) =>
      ReviewAdvances(b, tp, p.tracker.leader, leo, leo, now, b');
      ReviewKeeps(b, i, tp, p.tracker.leader, leo, leo, now, b', HwKnown(tp, base, n, all, leo, b'.parts[tp].tracker.hw));
    case HwKnown(tp, base, n, all, leo, hw) =>
      HwRaisedKeeps(b, tp, hw);
      MoveKeeps(HwRaised(b, tp, hw), i, HwSet(tp, base, n, all, leo, hw));
    case HwSet(tp, base, n, all, leo, hw) =>
      CompleteKeeps(b, i, hw, if all then Entering(tp, base, n, leo) else Succeeded(tp, base, n, false));
  }

  /** A step of a waiter. */
  lemma {:induction false} WaiterStepKeeps(b: Broker, i: nat, now: int, b': Broker)
    requires Inv(b) && i < |b.threads| && b.threads[i].tp in b.parts && ThreadStep(b, i, now, b')
    requires Requires(b.threads[i])
    ensures Inv(b')
  {
    hide PartsOk, IdsOk, AllOwed, Reviews, Completed;
    var th := b.threads[i];
    var p := b.parts[th.tp];
    match th
    case Entering(tp, base, n, required) => MoveKeeps(b, i, b'.threads[i]);
    case Watching(tp, base, n, required) => WatchKeeps(b, i);
    case Rereading(tp, base, n, required, id) => MoveKeeps(b, i, b'.threads[i]);
    case Reached(tp, base, n, required, id) => MoveKeeps(b, i, b'.threads[i]);
    case Completing(tp, base, n, required, id, hw) => CompleteKeeps(b, i, hw, Waiting(tp, base, n, required, id));
    case Waiting(tp, base, n, required, id) => MoveKeeps(b, i, b'.threads[i]);
    case Expired(tp, base, n, required, id) => CancelKeeps(b, i);
  }

  /** A step of a replica fetch. */
  lemma {:induction false} FetchStepKeeps(b: Broker, i: nat, now: int, b': Broker)
    requires Inv(b) && i < |b.threads| && b.threads[i].tp in b.parts && ThreadStep(b, i, now, b')
    requires b.threads[i].FetchRead? || b.threads[i].FetchLeo? || b.threads[i].FetchLeader? || b.threads[i].FetchHw? || b.threads[i].FetchChecking?
    ensures Inv(b')
  {
    hide PartsOk, IdsOk, AllOwed, Reviews, Completed;
    var th := b.threads[i];
    var p := b.parts[th.tp];
    HwWithinLog(b, th.tp);
    match th
    case FetchRead(tp, replica, end) => MoveKeeps(b, i, FetchLeo(tp, replica, end, p.leo));
    case FetchLeo(tp, replica, end, leo) =>
      ReviewAdvances(b, tp, p.tracker.leader, leo, leo, now, b');
      ReviewKeeps(b, i, tp, p.tracker.leader, leo, leo, now, b', FetchLeader(tp, replica, end, leo));
    case FetchLeader(tp, replica, end, leo) =>
      ReviewAdvances(b, tp, replica, end, leo, now, b');
      ReviewKeeps(b, i, tp, replica, end, leo, now, b', FetchHw(tp, b'.parts[tp].tracker.hw));
    case FetchHw(tp, hw) =>
      HwRaisedKeeps(b, tp, hw);
      MoveKeeps(HwRaised(b, tp, hw), i, FetchChecking(tp, hw));
    case FetchChecking(tp, hw) =>
      CompleteKeeps(b, i, hw, FetchDone(tp, hw));
  }

  /** Every step of the broker keeps the invariant. */
  lemma {:induction false} NextKeeps(b: Broker, a: Action, b': Broker)
    requires Inv(b) && Next(b, a, b')
    ensures Inv(b')
  {
    hide PartsOk, IdsOk, AllOwed, ThreadStep;
    match a
    case Produce(tp, n, all) =>
      HwWithinLog(b, tp);
      GrowKeeps(b, tp, n);
      SpawnKeeps(WithPart(b, tp, b.parts[tp].(leo := b.parts[tp].leo + n)), Appended(tp, b.parts[tp].leo, n, all));
    case ProduceFailing(tp, stored) => GrowKeeps(b, tp, stored);
    case Fetch(tp, replica, end) => SpawnKeeps(b, FetchRead(tp, replica, end));
    case Step(i, now) => StepKeeps(b, i, now, b');
    case Expire(i) => MoveKeeps(b, i, b'.threads[i]);
  }

  lemma {:induction false} StepKeeps(b: Broker, i: nat, now: int, b': Broker)
    requires Inv(b) && i < |b.threads| && b.threads[i].tp in b.parts && ThreadStep(b, i, now, b')
    ensures Inv(b')
  {
    hide Inv;
    var th := b.threads[i];
    if Requires(th) {
      WaiterStepKeeps(b, i, now, b');
    } else if th.Appended? || th.LeoRead? || th.HwKnown? || th.HwSet? {
      ProducerStepKeeps(b, i, now, b');
    } else {
      FetchStepKeeps(b, i, now, b');
    }
  }

  // ---- Runs ---------------------------------------------------------------------------------------

  /** A broker that has just opened its partitions: new trackers, nobody running. */
  ghost predicate Init(b: Broker) {
    && b.threads == [] && b.pool == Pool(map[], 0, {})
    && forall tp :: tp in b.parts ==>
         var p := b.parts[tp];
         && 0 <= p.hw <= p.leo && p.reviewed <= b.clock
         && exists ids: set<int>, lag :: p.tracker.leader in ids && p.tracker == Fresh(p.tracker.leader, ids, lag, p.reviewed)
  }

  lemma {:induction false} InitInv(b: Broker)
    requires Init(b)
    ensures Inv(b)
  {
    forall tp | tp in b.parts ensures PartOk(b.parts[tp], b.clock) {
      var p := b.parts[tp];
      var ids: set<int>, lag :| p.tracker.leader in ids && p.tracker == Fresh(p.tracker.leader, ids, lag, p.reviewed);
      FreshSettled(p.tracker.leader, ids, lag, p.reviewed);
    }
  }

  ghost predicate Run(bs: seq<Broker>, actions: seq<Action>) {
    && |bs| == |actions| + 1 && Init(bs[0])
    && forall k :: 0 <= k < |actions| ==> Next(bs[k], actions[k], bs[k + 1])
  }

  lemma {:induction false} RunInv(bs: seq<Broker>, actions: seq<Action>, k: nat)
    requires Run(bs, actions) && k < |bs|
    ensures Inv(bs[k])
  {
    hide Inv, Next, Init;
    if k == 0 {
      InitInv(bs[0]);
    } else {
      RunInv(bs, actions, k - 1);
      NextKeeps(bs[k - 1], actions[k - 1], bs[k]);
    }
  }

  /** A thread with nothing left to do but wait for its answer. */
  predicate Idle(th: Thread) { th.Waiting? || Ended(th) }

  /** Its answer is due. */
  predicate Due(b: Broker, th: Thread) {
    th.Waiting? && th.tp in b.parts && th.required <= b.parts[th.tp].tracker.hw
  }

  /** No lost wakeup. In every reachable state a request whose watermark has been reached is owed a
      completion by some thread; so once every thread is idle, no such request is left in the
      purgatory, and every waiter whose watermark has been reached has its answer. */
  lemma {:induction false} NoLostWakeup(bs: seq<Broker>, actions: seq<Action>, k: nat)
    requires Run(bs, actions) && k < |bs|
    ensures forall id :: Ripe(bs[k], id) ==> SomeoneOwes(bs[k], id)
    ensures (forall i :: 0 <= i < |bs[k].threads| ==> Idle(bs[k].threads[i])) ==>
              && (forall id :: !Ripe(bs[k], id))
              && (forall i :: 0 <= i < |bs[k].threads| && Due(bs[k], bs[k].threads[i]) ==>
                    bs[k].threads[i].id in bs[k].pool.answered)
  {
    hide Run, PartOk, Informed, Settled;
    RunInv(bs, actions, k);
    var b := bs[k];
    if forall i :: 0 <= i < |b.threads| ==> Idle(b.threads[i]) {
      NothingRipe(b);
      forall i | 0 <= i < |b.threads| && Due(b, b.threads[i]) ensures b.threads[i].id in b.pool.answered {
        assert Enrolled(b.threads[i], b.pool, b.parts[b.threads[i].tp]);
        assert !Ripe(b, b.threads[i].id);
      }
    }
  }

  lemma {:induction false} NothingRipe(b: Broker)
    requires AllOwed(b) && forall i :: 0 <= i < |b.threads| ==> Idle(b.threads[i])
    ensures forall id :: !Ripe(b, id)
  {
    forall id | Ripe(b, id) ensures false {
    }
  }

  /** How many steps the thread is from the completion it owes. */
  function Distance(th: Thread): nat {
    if th.FetchLeader? || th.Rereading? then 3
    else if th.HwKnown? || th.FetchHw? || th.Reached? then 2
    else if th.HwSet? || th.FetchChecking? || th.Completing? then 1
    else 0
  }

  /** A thread that owes a completion is never stuck: it can step, and is then done or one step
      closer. */
  lemma {:induction false} DebtorSteps(b: Broker, j: nat, id: int) returns (b': Broker)
    requires Inv(b) && Ripe(b, id) && j < |b.threads| && Owes(b.threads[j], id, b.pool.items[id])
    ensures Next(b, Step(j, b.clock), b') && Inv(b')
    ensures id in b'.pool.answered
            || (Ripe(b', id) && j < |b'.threads| && Owes(b'.threads[j], id, b'.pool.items[id])
                && Distance(b'.threads[j]) < Distance(b.threads[j]))
  {
    hide PartOk, IdsOk, AllOwed, Informed, Completed, Updates;
    var th := b.threads[j];
    var p := b.parts[th.tp];
    assert Enrolled(th, b.pool, p);
    if th.FetchLeader? {
      var t' := SomeUpdate(p.tracker, th.replica, th.end, th.leo, b.clock);
      b' := Moved(WithPart(b, th.tp, p.(tracker := t', reviewed := b.clock)), j, FetchHw(th.tp, t'.hw));
      assert b.(threads := b.threads) == b;
      assert Informed(th, p);
      DebtorReviews(b, j, b');
    } else {
      if th.HwSet? || th.FetchChecking? || th.Completing? {
        CompletedExactly(b.pool, th.tp, th.hw, id);
      }
      b' := Stepped(b, j);
    }
    NextKeeps(b, Step(j, b.clock), b');
  }

  lemma {:induction false} DebtorReviews(b: Broker, j: nat, b': Broker)
    requires PartsOk(b) && j < |b.threads| && b.threads[j].FetchLeader? && b.threads[j].tp in b.parts
    requires Informed(b.threads[j], b.parts[b.threads[j].tp])
    requires var th := b.threads[j]; Reviews(b, th.tp, th.replica, th.end, th.leo, b.clock, b')
    ensures b.threads[j].tp in b'.parts
    ensures b.parts[b.threads[j].tp].tracker.hw <= b'.parts[b.threads[j].tp].tracker.hw
  {
    var th := b.threads[j];
    hide Reviews;
    ReviewAdvances(b, th.tp, th.replica, th.end, th.leo, b.clock, b');
  }

  /** Left to itself, the thread that owes a ripe request its completion delivers it. */
  lemma {:induction false} DebtIsPaid(b: Broker, j: nat, id: int) returns (bs: seq<Broker>)
    requires Inv(b) && Ripe(b, id) && j < |b.threads| && Owes(b.threads[j], id, b.pool.items[id])
    ensures 0 < |bs| <= 4 && bs[0] == b && id in bs[|bs| - 1].pool.answered
    ensures forall k :: 0 <= k < |bs| - 1 ==> Next(bs[k], Step(j, bs[k].clock), bs[k + 1])
    ensures |bs| <= Distance(b.threads[j]) + 1
    decreases Distance(b.threads[j])
  {
    hide Inv, Next, Owes;
    var b' := DebtorSteps(b, j, id);
    if id in b'.pool.answered {
      bs := [b, b'];
      AtLeastOne(b.threads[j], id, b.pool.items[id]);
    } else {
      var rest := DebtIsPaid(b', j, id);
      bs := [b] + rest;
    }
  }

  lemma {:induction false} AtLeastOne(th: Thread, id: int, item: Item)
    requires Owes(th, id, item)
    ensures Distance(th) >= 1
  {
  }

  lemma {:induction false} LeaderTracked(p: Part, clock: int)
    requires PartOk(p, clock)
    ensures p.tracker.leader in p.tracker.replicas
  {
  }

  /** What one step does to a partition and to a thread that has its answer. */
  lemma {:induction false} NextMonotone(b: Broker, a: Action, b': Broker)
    requires Inv(b) && Next(b, a, b')
    ensures b'.parts.Keys == b.parts.Keys
    ensures forall tp :: tp in b.parts ==> Advances(b.parts[tp], b'.parts[tp])
    ensures |b.threads| <= |b'.threads|
    ensures forall i :: 0 <= i < |b.threads| && b.threads[i].Succeeded? ==> b'.threads[i] == b.threads[i]
  {
    hide PartOk, IdsOk, AllOwed, Enrolled, Completed;
    match a
    case Produce(tp, n, all) =>
    case ProduceFailing(tp, stored) =>
    case Fetch(tp, replica, end) =>
    case Expire(i) =>
    case Step(i, now) =>
      var th := b.threads[i];
      HwWithinLog(b, th.tp);
      LeaderTracked(b.parts[th.tp], b.clock);
      if th.LeoRead? || th.FetchLeo? {
        ReviewAdvances(b, th.tp, b.parts[th.tp].tracker.leader, th.leo, th.leo, now, b');
      } else if th.FetchLeader? {
        ReviewAdvances(b, th.tp, th.replica, th.end, th.leo, now, b');
      }
  }

  /** Over every run, neither watermark of a partition ever decreases, neither passes the log end,
      and an answer once given stands. */
  lemma {:induction false} WatermarksMonotone(bs: seq<Broker>, actions: seq<Action>, m: nat, k: nat)
    requires Run(bs, actions) && m <= k < |bs|
    ensures bs[k].parts.Keys == bs[m].parts.Keys
    ensures forall tp :: tp in bs[m].parts ==>
              && Advances(bs[m].parts[tp], bs[k].parts[tp])
              && bs[k].parts[tp].hw <= bs[k].parts[tp].leo && bs[k].parts[tp].tracker.hw <= bs[k].parts[tp].leo
    ensures |bs[m].threads| <= |bs[k].threads|
    ensures forall i :: 0 <= i < |bs[m].threads| && bs[m].threads[i].Succeeded? ==> bs[k].threads[i] == bs[m].threads[i]
    decreases k
  {
    hide Next, Init, ThreadsOk, IdsOk, AllOwed;
    RunInv(bs, actions, k);
    forall tp | tp in bs[k].parts
      ensures bs[k].parts[tp].hw <= bs[k].parts[tp].leo && bs[k].parts[tp].tracker.hw <= bs[k].parts[tp].leo
    {
      HwWithinLog(bs[k], tp);
    }
    if m < k {
      WatermarksMonotone(bs, actions, m, k - 1);
      RunInv(bs, actions, k - 1);
      NextMonotone(bs[k - 1], actions[k - 1], bs[k]);
    }
  }

  /** acks=all safety. When a request that stored n records at `base` is answered success, the
      tracker's watermark is at least base + n, then and ever after; and at every such moment every
      in-sync replica's tracked end offset is at least base + n. */
  lemma {:induction false} AckedIsReplicated(bs: seq<Broker>, actions: seq<Action>, m: nat, i: nat, k: nat)
    requires Run(bs, actions) && m <= k < |bs| && i < |bs[m].threads|
    requires bs[m].threads[i].Succeeded? && bs[m].threads[i].all
    ensures var th := bs[m].threads[i];
            && th.tp in bs[k].parts
            && var t := bs[k].parts[th.tp].tracker;
               && t.hw >= th.base + th.n
               && forall id :: id in t.replicas && t.replicas[id].inSync ==> t.replicas[id].leo >= th.base + th.n
  {
    hide Run, Next, Init, IdsOk, AllOwed, Enrolled;
    RunInv(bs, actions, m);
    RunInv(bs, actions, k);
    WatermarksMonotone(bs, actions, m, k);
    var th := bs[m].threads[i];
    assert Informed(th, bs[m].parts[th.tp]);
    assert PartOk(bs[k].parts[th.tp], bs[k].clock);
  }
}
