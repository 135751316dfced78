/** The producer's linger batcher (pkg/client/producer.go) as a machine with one step per critical
    section: sends, size flushes, linger timers and Close race for the same batches, while a broker
    stores what it is sent. */
module Batcher {
  import opened Bytes
  import opened Names
  import opened Records

  type Waiter = nat
  type BatchId = nat

  datatype TopicPartition = TopicPartition(topic: Name, partition: int)

  /** What a flush reports: the records start at base, or there was an error. */
  datatype Outcome = AtBase(base: nat) | Failing

  /** Filling: in the pending map. Sending: detached, nothing known yet. Stored: the broker has the
      records from base on. Replying: the round trip is over and `sent` waiters have their result. */
  datatype Phase = Filling | Sending | Stored(base: nat) | Replying(outcome: Outcome, sent: nat)

  datatype Batch = Batch(tp: TopicPartition, records: seq<Record>, bytes: nat, waiters: seq<Waiter>, phase: Phase)

  datatype Result = Ok(offset: nat) | Error

  /** A call to Send: past the first closed test, holding the batch lock past the second, enqueued,
      or turned away. */
  datatype Call = Arrived | Holding | Enqueued | Refused

  datatype Ask = Ask(tp: TopicPartition, rec: Record)

  datatype Producer = Producer(
    batchSize: int,
    closed: bool,
    drained: bool,
    holder: Option<Waiter>,
    pending: map<TopicPartition, BatchId>,
    batches: map<BatchId, Batch>,
    nextBatch: BatchId,
    asks: map<Waiter, Ask>,
    calls: map<Waiter, Call>,
    results: map<Waiter, seq<Result>>,
    store: map<TopicPartition, seq<Record>>)

  type Store = map<TopicPartition, seq<Record>>
  type Batches = map<BatchId, Batch>
  type Calls = map<Waiter, Call>
  type Channels = map<Waiter, seq<Result>>

  function Log(store: Store, tp: TopicPartition): seq<Record> { if tp in store then store[tp] else [] }

  /** What has been sent on a waiter's channel. */
  function Got(results: Channels, w: Waiter): seq<Result> { if w in results then results[w] else [] }

  // ---- Critical sections -----------------------------------------------------------------------------

  /** The batch a record joins: the pending one, or a new one. */
  function Joining(p: Producer, tp: TopicPartition): Batch
    requires tp in p.pending ==> p.pending[tp] in p.batches
  {
    if tp in p.pending then p.batches[p.pending[tp]] else Batch(tp, [], 0, [], Filling)
  }

  /** The enqueue of sendBatched, which detaches a full batch. */
  function Enqueue(p: Producer, w: Waiter): Producer
    requires w in p.asks && (p.asks[w].tp in p.pending ==> p.pending[p.asks[w].tp] in p.batches)
  {
    var tp := p.asks[w].tp;
    var id := if tp in p.pending then p.pending[tp] else p.nextBatch;
    var was := Joining(p, tp);
    var b := Batch(tp, was.records + [p.asks[w].rec], was.bytes + EncodedSize(p.asks[w].rec), was.waiters + [w], was.phase);
    var full := b.bytes >= p.batchSize;
    p.(batches := p.batches[id := if full then b.(phase := Sending) else b],
       pending := if full then p.pending - {tp} else p.pending[tp := id],
       nextBatch := if tp in p.pending then p.nextBatch else p.nextBatch + 1,
       calls := p.calls[w := Enqueued],
       holder := None)
  }

  function WithPhase(p: Producer, id: BatchId, phase: Phase): Producer
    requires id in p.batches
  {
    p.(batches := p.batches[id := p.batches[id].(phase := phase)])
  }

  /** lingerFire for the batch it was armed for: nothing if that batch is no longer the pending one. */
  function LingerFired(p: Producer, tp: TopicPartition, id: BatchId): Producer {
    if tp in p.pending && p.pending[tp] == id && id in p.batches
    then WithPhase(p, id, Sending).(pending := p.pending - {tp})
    else p
  }

  /** The detaching half of flushAllPending. */
  function DrainedAll(p: Producer): Producer {
    p.(pending := map[], drained := true,
       batches := map id | id in p.batches :: if p.batches[id].phase == Filling then p.batches[id].(phase := Sending) else p.batches[id])
  }

  /** What waiter i of a batch is sent. */
  function ResultFor(o: Outcome, i: nat): Result {
    match o
    case AtBase(base) => Ok(base + i)
    case Failing => Error
  }

  function Answered(p: Producer, id: BatchId): Producer
    requires id in p.batches && p.batches[id].phase.Replying? && p.batches[id].phase.sent < |p.batches[id].waiters|
  {
    var b := p.batches[id];
    var w := b.waiters[b.phase.sent];
    WithPhase(p, id, b.phase.(sent := b.phase.sent + 1))
      .(results := p.results[w := Got(p.results, w) + [ResultFor(b.phase.outcome, b.phase.sent)]])
  }

  // ---- Steps -----------------------------------------------------------------------------------------

  datatype Action =
    | Send(w: Waiter, ask: Ask)
    | Enter(w: Waiter)
    | Add(w: Waiter)
    | Linger(tp: TopicPartition, id: BatchId)
    | Close
    | Drain
    | Store(id: BatchId)
    | StorePart(id: BatchId, stored: nat)
    | Others(tp: TopicPartition, recs: seq<Record>)
    | Succeed(id: BatchId)
    | Fail(id: BatchId)
    | Answer(id: BatchId)

  /** The broker appends records to a partition. */
  function Appended(p: Producer, tp: TopicPartition, recs: seq<Record>): Producer {
    p.(store := p.store[tp := Log(p.store, tp) + recs])
  }

  ghost predicate Next(p: Producer, a: Action, p': Producer) {
    match a
    case Send(w, ask) =>
      && w !in p.calls
      && p' == p.(asks := p.asks[w := ask], calls := p.calls[w := if p.closed then Refused else Arrived])
    case Enter(w) =>
      && w in p.calls && p.calls[w] == Arrived && p.holder == None
      && p' == if p.closed then p.(calls := p.calls[w := Refused]) else p.(calls := p.calls[w := Holding], holder := Some(w))
    case Add(w) =>
      && w in p.calls && p.calls[w] == Holding && w in p.asks && (p.asks[w].tp in p.pending ==> p.pending[p.asks[w].tp] in p.batches)
      && p' == Enqueue(p, w)
    case Linger(tp, id) => p.holder == None && p' == LingerFired(p, tp, id)
    case Close => p' == p.(closed := true)
    case Drain => p.closed && p.holder == None && p' == DrainedAll(p)
    case Store(id) =>
      && id in p.batches && p.batches[id].phase == Sending
      && var b := p.batches[id];
         p' == WithPhase(Appended(p, b.tp, b.records), id, Stored(|Log(p.store, b.tp)|))
    case StorePart(id, stored) =>
      && id in p.batches && p.batches[id].phase == Sending && stored <= |p.batches[id].records|
      && var b := p.batches[id];
         p' == WithPhase(Appended(p, b.tp, b.records[..stored]), id, Replying(Failing, 0))
    case Others(tp, recs) => p' == Appended(p, tp, recs)
    case Succeed(id) =>
      && id in p.batches && p.batches[id].phase.Stored?
      && p' == WithPhase(p, id, Replying(AtBase(p.batches[id].phase.base), 0))
    case Fail(id) =>
      && id in p.batches && (p.batches[id].phase == Sending || p.batches[id].phase.Stored?)
      && p' == WithPhase(p, id, Replying(Failing, 0))
    case Answer(id) =>
      && id in p.batches && p.batches[id].phase.Replying? && p.batches[id].phase.sent < |p.batches[id].waiters|
      && p' == Answered(p, id)
  }

  // ---- The invariant ---------------------------------------------------------------------------------

  /** Batch contents are what the callers asked for, and where the broker put them if it did. */
  ghost predicate BatchOk(b: Batch, asks: map<Waiter, Ask>, log: seq<Record>) {
    && |b.records| == |b.waiters| > 0
    && (forall i :: 0 <= i < |b.waiters| ==> b.waiters[i] in asks && asks[b.waiters[i]] == Ask(b.tp, b.records[i]))
    && (b.phase.Stored? ==> StoredFrom(b.records, log, b.phase.base))
    && (b.phase.Replying? ==> b.phase.sent <= |b.waiters| && (b.phase.outcome.AtBase? ==> StoredFrom(b.records, log, b.phase.outcome.base)))
  }

  ghost predicate StoredFrom(records: seq<Record>, log: seq<Record>, base: nat) {
    base + |records| <= |log| && records == log[base..base + |records|]
  }

  ghost predicate BatchesOk(batches: Batches, nextBatch: BatchId, asks: map<Waiter, Ask>, store: Store) {
    forall id :: id in batches ==> id < nextBatch && BatchOk(batches[id], asks, Log(store, batches[id].tp))
  }

  /** The pending map holds exactly the batches that are filling. */
  ghost predicate PendingOk(pending: map<TopicPartition, BatchId>, batches: Batches) {
    && (forall tp :: tp in pending ==> pending[tp] in batches && batches[pending[tp]].tp == tp && batches[pending[tp]].phase == Filling)
    && (forall id :: id in batches && batches[id].phase == Filling ==> batches[id].tp in pending && pending[batches[id].tp] == id)
  }

  /** Nothing is pending once Close has drained, and nobody is about to make it so. */
  ghost predicate ClosedOk(p: Producer) {
    && (forall w :: w in p.calls ==> w in p.asks && (p.calls[w] == Holding <==> p.holder == Some(w)))
    && (p.holder.Some? ==> p.holder.value in p.calls)
    && (p.drained ==> p.closed && p.holder == None && p.pending == map[])
  }

  /** Waiter w sits at place i of batch id. */
  predicate At(batches: Batches, w: Waiter, id: BatchId, i: nat) {
    id in batches && i < |batches[id].waiters| && batches[id].waiters[i] == w
  }

  predicate Waits(calls: Calls, w: Waiter) { w in calls && calls[w] == Enqueued }

  /** The results due to the waiter at place i of a batch so far. */
  function Due(b: Batch, i: nat): seq<Result> {
    if b.phase.Replying? && i < b.phase.sent then [ResultFor(b.phase.outcome, i)] else []
  }

  /** Every waiter sits in exactly one place of one batch, and only waiters do. */
  ghost predicate SeatsOk(batches: Batches, calls: Calls) {
    && (forall w :: Waits(calls, w) ==> exists id, i :: At(batches, w, id, i))
    && (forall w, id, i :: At(batches, w, id, i) ==> Waits(calls, w))
    && (forall w, id, i, id', i' :: At(batches, w, id, i) && At(batches, w, id', i') ==> id == id' && i == i')
  }

  /** Every waiter has been sent exactly what its place is due, and nobody else anything. */
  ghost predicate ResultsOk(batches: Batches, calls: Calls, results: Channels) {
    && (forall w, id, i :: At(batches, w, id, i) ==> Got(results, w) == Due(batches[id], i))
    && (forall w :: !Waits(calls, w) ==> Got(results, w) == [])
  }

  ghost predicate Inv(p: Producer) {
    && BatchesOk(p.batches, p.nextBatch, p.asks, p.store) && PendingOk(p.pending, p.batches) && ClosedOk(p)
    && SeatsOk(p.batches, p.calls) && ResultsOk(p.batches, p.calls, p.results)
  }

  ghost predicate Init(p: Producer) {
    !p.closed && !p.drained && p.holder == None && p.pending == map[] && p.batches == map[]
    && p.asks == map[] && p.calls == map[] && p.results == map[]
  }

  lemma {:induction false} InitInv(p: Producer)
    requires Init(p)
    ensures Inv(p)
  {
  }

  // ---- Every step keeps it ---------------------------------------------------------------------------

  /** Calls that are not waiting come and go without touching seats or results. */
  lemma {:induction false} CallSeats(batches: Batches, calls: Calls, calls': Calls, results: Channels)
    requires SeatsOk(batches, calls) && ResultsOk(batches, calls, results)
    requires forall w :: Waits(calls', w) <==> Waits(calls, w)
    ensures SeatsOk(batches, calls') && ResultsOk(batches, calls', results)
  {
  }

  /** What waiters asked for does not change. */
  lemma {:induction false} CallBatches(batches: Batches, nextBatch: BatchId, calls: Calls, asks: map<Waiter, Ask>, asks': map<Waiter, Ask>, store: Store)
    requires BatchesOk(batches, nextBatch, asks, store) && SeatsOk(batches, calls)
    requires forall w :: Waits(calls, w) && w in asks ==> w in asks' && asks'[w] == asks[w]
    ensures BatchesOk(batches, nextBatch, asks', store)
  {
    hide StoredFrom;
    forall id | id in batches ensures BatchOk(batches[id], asks', Log(store, batches[id].tp)) {
      var b := batches[id];
      assert BatchOk(b, asks, Log(store, b.tp));
      forall i | 0 <= i < |b.waiters| ensures b.waiters[i] in asks' && asks'[b.waiters[i]] == Ask(b.tp, b.records[i]) {
        assert At(batches, b.waiters[i], id, i);
      }
    }
  }

  /** Changing phases moves nobody. */
  lemma {:induction false} SameSeats(batches: Batches, batches': Batches, calls: Calls)
    requires SeatsOk(batches, calls) && batches'.Keys == batches.Keys
    requires forall id :: id in batches ==> batches'[id].waiters == batches[id].waiters
    ensures SeatsOk(batches', calls)
    ensures forall w, id, i :: At(batches', w, id, i) <==> At(batches, w, id, i)
  {
    assert forall w, id, i :: At(batches', w, id, i) <==> At(batches, w, id, i);
    forall w | Waits(calls, w) ensures exists id, i :: At(batches', w, id, i) {
      var id, i :| At(batches, w, id, i);
      assert At(batches', w, id, i);
    }
  }

  /** Batches that have answered nobody change phase to another such: no result becomes due. */
  lemma {:induction false} SameResults(batches: Batches, batches': Batches, calls: Calls, results: Channels)
    requires ResultsOk(batches, calls, results) && batches'.Keys == batches.Keys
    requires forall id :: id in batches ==> batches'[id].waiters == batches[id].waiters && SameDue(batches[id].phase, batches'[id].phase)
    ensures ResultsOk(batches', calls, results)
  {
    forall w, id, i | At(batches', w, id, i) ensures Got(results, w) == Due(batches'[id], i) {
      assert At(batches, w, id, i);
    }
  }

  predicate SameDue(a: Phase, b: Phase) {
    a == b || ((a.Replying? ==> a.sent == 0) && (b.Replying? ==> b.sent == 0))
  }

  lemma {:induction false} PhaseKeeps(p: Producer, id: BatchId, phase: Phase)
    requires Inv(p) && id in p.batches && p.batches[id].phase != Filling && !p.batches[id].phase.Replying?
    requires phase != Filling && (phase.Replying? ==> phase.sent == 0)
    requires BatchOk(p.batches[id].(phase := phase), p.asks, Log(p.store, p.batches[id].tp))
    ensures Inv(WithPhase(p, id, phase))
  {
    hide BatchOk, SeatsOk, ResultsOk, BatchesOk, PendingOk;
    var batches' := WithPhase(p, id, phase).batches;
    SameSeats(p.batches, batches', p.calls);
    SameResults(p.batches, batches', p.calls, p.results);
    PhaseBatches(p, id, phase);
    PhasePending(p, id, phase);
  }

  lemma {:induction false} PhaseBatches(p: Producer, id: BatchId, phase: Phase)
    requires BatchesOk(p.batches, p.nextBatch, p.asks, p.store) && id in p.batches
    requires BatchOk(p.batches[id].(phase := phase), p.asks, Log(p.store, p.batches[id].tp))
    ensures BatchesOk(WithPhase(p, id, phase).batches, p.nextBatch, p.asks, p.store)
  {
    hide BatchOk;
  }

  lemma {:induction false} PhasePending(p: Producer, id: BatchId, phase: Phase)
    requires PendingOk(p.pending, p.batches) && id in p.batches && p.batches[id].phase != Filling && phase != Filling
    ensures PendingOk(p.pending, WithPhase(p, id, phase).batches)
  {
  }

  /** What the broker stored stays where it is. */
  lemma {:induction false} StoredStays(records: seq<Record>, log: seq<Record>, more: seq<Record>, base: nat)
    requires StoredFrom(records, log, base)
    ensures StoredFrom(records, log + more, base)
  {
    assert (log + more)[base..base + |records|] == log[base..base + |records|];
  }

  lemma {:induction false} AppendedKeeps(p: Producer, tp: TopicPartition, recs: seq<Record>)
    requires Inv(p)
    ensures Inv(Appended(p, tp, recs))
  {
    hide StoredFrom, SeatsOk, ResultsOk, PendingOk;
    var store' := Appended(p, tp, recs).store;
    forall id | id in p.batches ensures BatchOk(p.batches[id], p.asks, Log(store', p.batches[id].tp)) {
      var b := p.batches[id];
      assert BatchOk(b, p.asks, Log(p.store, b.tp));
      if b.tp == tp {
        if b.phase.Stored? {
          StoredStays(b.records, Log(p.store, tp), recs, b.phase.base);
        } else if b.phase.Replying? && b.phase.outcome.AtBase? {
          StoredStays(b.records, Log(p.store, tp), recs, b.phase.outcome.base);
        }
      }
    }
  }

  /** Detaching one pending batch. */
  lemma {:induction false} DetachKeeps(p: Producer, tp: TopicPartition)
    requires Inv(p) && tp in p.pending
    ensures Inv(WithPhase(p, p.pending[tp], Sending).(pending := p.pending - {tp}))
  {
    hide SeatsOk, ResultsOk, BatchesOk;
    var id := p.pending[tp];
    var p' := WithPhase(p, id, Sending).(pending := p.pending - {tp});
    SameSeats(p.batches, p'.batches, p.calls);
    SameResults(p.batches, p'.batches, p.calls, p.results);
    DetachPending(p.pending, p.batches, tp);
    DetachBatches(p, id);
    EmptyStays(p.pending, tp);
  }

  lemma {:induction false} EmptyStays(pending: map<TopicPartition, BatchId>, tp: TopicPartition)
    requires tp in pending
    ensures pending != map[]
  {
  }

  lemma {:induction false} DetachPending(pending: map<TopicPartition, BatchId>, batches: Batches, tp: TopicPartition)
    requires PendingOk(pending, batches) && tp in pending
    ensures var id := pending[tp];
            PendingOk(pending - {tp}, batches[id := batches[id].(phase := Sending)])
  {
  }

  lemma {:induction false} DetachBatches(p: Producer, id: BatchId)
    requires BatchesOk(p.batches, p.nextBatch, p.asks, p.store) && id in p.batches && p.batches[id].phase == Filling
    ensures BatchesOk(WithPhase(p, id, Sending).batches, p.nextBatch, p.asks, p.store)
  {
    hide StoredFrom;
  }

  lemma {:induction false} DrainKeeps(p: Producer)
    requires Inv(p) && p.closed && p.holder == None
    ensures Inv(DrainedAll(p))
  {
    hide SeatsOk, ResultsOk, BatchesOk, PendingOk;
    var p' := DrainedAll(p);
    SameSeats(p.batches, p'.batches, p.calls);
    SameResults(p.batches, p'.batches, p.calls, p.results);
    DrainBatches(p);
  }

  lemma {:induction false} DrainBatches(p: Producer)
    requires BatchesOk(p.batches, p.nextBatch, p.asks, p.store)
    ensures BatchesOk(DrainedAll(p).batches, p.nextBatch, p.asks, p.store) && PendingOk(map[], DrainedAll(p).batches)
  {
    hide StoredFrom;
  }

  /** Answering the next waiter: it had nothing, and now has its one result. */
  lemma {:induction false} AnswerKeeps(p: Producer, id: BatchId)
    requires Inv(p) && id in p.batches && p.batches[id].phase.Replying? && p.batches[id].phase.sent < |p.batches[id].waiters|
    ensures Inv(Answered(p, id))
    ensures Got(p.results, p.batches[id].waiters[p.batches[id].phase.sent]) == []
  {
    hide StoredFrom, SeatsOk, ResultsOk, BatchesOk, PendingOk;
    var p' := Answered(p, id);
    var phase := p'.batches[id].phase;
    SameSeats(p.batches, p'.batches, p.calls);
    AnswerResults(p, id);
    assert BatchOk(p.batches[id], p.asks, Log(p.store, p.batches[id].tp)) by { BatchAt(p, id); }
    PhaseBatches(p, id, phase);
    PhasePending(p, id, phase);
  }

  lemma {:induction false} BatchAt(p: Producer, id: BatchId)
    requires BatchesOk(p.batches, p.nextBatch, p.asks, p.store) && id in p.batches
    ensures BatchOk(p.batches[id], p.asks, Log(p.store, p.batches[id].tp))
  {
  }

  lemma {:induction false} AnswerResults(p: Producer, id: BatchId)
    requires SeatsOk(p.batches, p.calls) && ResultsOk(p.batches, p.calls, p.results)
    requires id in p.batches && p.batches[id].phase.Replying? && p.batches[id].phase.sent < |p.batches[id].waiters|
    ensures ResultsOk(Answered(p, id).batches, p.calls, Answered(p, id).results)
    ensures Got(p.results, p.batches[id].waiters[p.batches[id].phase.sent]) == []
  {
    var p' := Answered(p, id);
    var b := p.batches[id];
    var w := b.waiters[b.phase.sent];
    assert At(p.batches, w, id, b.phase.sent);
    forall v, k, i | At(p'.batches, v, k, i) ensures Got(p'.results, v) == Due(p'.batches[k], i) {
      assert At(p.batches, v, k, i);
    }
  }

  /** Enqueueing: the caller gets the one seat at the end of the batch it joins. */
  lemma {:induction false} EnqueueKeeps(p: Producer, w: Waiter)
    requires Inv(p) && w in p.calls && p.calls[w] == Holding
    ensures w in p.asks && (p.asks[w].tp in p.pending ==> p.pending[p.asks[w].tp] in p.batches)
    ensures Inv(Enqueue(p, w))
  {
    hide StoredFrom, EncodedSize, SeatsOk, ResultsOk, BatchesOk, PendingOk;
    EnqueueBatches(p, w);
    EnqueuePending(p, w);
    EnqueueSeats(p, w);
    EnqueueResults(p, w);
  }

  lemma {:induction false} EnqueueBatches(p: Producer, w: Waiter)
    requires BatchesOk(p.batches, p.nextBatch, p.asks, p.store) && PendingOk(p.pending, p.batches) && w in p.asks
    ensures p.asks[w].tp in p.pending ==> p.pending[p.asks[w].tp] in p.batches
    ensures var p' := Enqueue(p, w); BatchesOk(p'.batches, p'.nextBatch, p'.asks, p'.store)
  {
    hide StoredFrom, EncodedSize;
  }

  lemma {:induction false} EnqueuePending(p: Producer, w: Waiter)
    requires BatchesOk(p.batches, p.nextBatch, p.asks, p.store) && PendingOk(p.pending, p.batches) && w in p.asks
    ensures p.asks[w].tp in p.pending ==> p.pending[p.asks[w].tp] in p.batches
    ensures var p' := Enqueue(p, w); PendingOk(p'.pending, p'.batches)
  {
    hide StoredFrom, EncodedSize, BatchOk;
  }

  /** The seats after w joins at the end of batch id. */
  lemma {:induction false} JoinSeats(batches: Batches, batches': Batches, calls: Calls, id: BatchId, w: Waiter, n: nat)
    requires SeatsOk(batches, calls) && !Waits(calls, w)
    requires batches'.Keys == batches.Keys + {id} && (forall k :: k in batches && k != id ==> batches'[k].waiters == batches[k].waiters)
    requires batches'[id].waiters == (if id in batches then batches[id].waiters else []) + [w] && |batches'[id].waiters| == n + 1
    ensures SeatsOk(batches', calls[w := Enqueued])
    ensures forall v, k, i :: At(batches', v, k, i) <==> At(batches, v, k, i) || (v == w && k == id && i == n)
  {
    forall v, k, i ensures At(batches', v, k, i) <==> At(batches, v, k, i) || (v == w && k == id && i == n) {
    }
    assert At(batches', w, id, n);
    var calls' := calls[w := Enqueued];
    forall v | Waits(calls', v) ensures exists k, i :: At(batches', v, k, i) {
      if v != w {
        assert Waits(calls, v);
        var k, i :| At(batches, v, k, i);
        assert At(batches', v, k, i);
      }
    }
  }

  function SeatBatch(p: Producer, w: Waiter): BatchId
    requires w in p.asks
  {
    if p.asks[w].tp in p.pending then p.pending[p.asks[w].tp] else p.nextBatch
  }

  lemma {:induction false} EnqueueSeats(p: Producer, w: Waiter)
    requires Inv(p) && w in p.calls && p.calls[w] == Holding && w in p.asks
    ensures p.asks[w].tp in p.pending ==> p.pending[p.asks[w].tp] in p.batches
    ensures SeatsOk(Enqueue(p, w).batches, Enqueue(p, w).calls)
    ensures var n := if SeatBatch(p, w) in p.batches then |p.batches[SeatBatch(p, w)].waiters| else 0;
            forall v, k, i :: At(Enqueue(p, w).batches, v, k, i) <==> At(p.batches, v, k, i) || (v == w && k == SeatBatch(p, w) && i == n)
  {
    hide BatchOk, EncodedSize, SeatsOk, ResultsOk;
    var p' := Enqueue(p, w);
    var id := SeatBatch(p, w);
    var n := if id in p.batches then |p.batches[id].waiters| else 0;
    assert p.nextBatch !in p.batches;
    JoinSeats(p.batches, p'.batches, p.calls, id, w, n);
  }

  lemma {:induction false} EnqueueResults(p: Producer, w: Waiter)
    requires Inv(p) && w in p.calls && p.calls[w] == Holding && w in p.asks
    ensures p.asks[w].tp in p.pending ==> p.pending[p.asks[w].tp] in p.batches
    ensures ResultsOk(Enqueue(p, w).batches, Enqueue(p, w).calls, Enqueue(p, w).results)
  {
    hide BatchOk, EncodedSize;
    EnqueueSeats(p, w);
    var p' := Enqueue(p, w);
    forall v, k, i | At(p'.batches, v, k, i) ensures Got(p'.results, v) == Due(p'.batches[k], i) {
      if v == w {
        assert !Waits(p.calls, w);
      } else {
        assert At(p.batches, v, k, i);
      }
    }
  }

  /** Steps of callers, timers and Close. */
  lemma {:induction false} QueueKeeps(p: Producer, a: Action, p': Producer)
    requires Inv(p) && Next(p, a, p') && (a.Send? || a.Enter? || a.Add? || a.Linger? || a.Close? || a.Drain?)
    ensures Inv(p')
  {
    hide BatchesOk, PendingOk, SeatsOk, ResultsOk, EncodedSize;
    match a
    case Send(w, ask) =>
      CallSeats(p.batches, p.calls, p'.calls, p.results);
      CallBatches(p.batches, p.nextBatch, p.calls, p.asks, p'.asks, p.store);
    case Enter(w) => CallSeats(p.batches, p.calls, p'.calls, p.results);
    case Add(w) => EnqueueKeeps(p, w);
    case Linger(tp, id) =>
      if p' != p {
        DetachKeeps(p, tp);
      }
    case Close =>
    case Drain => DrainKeeps(p);
  }

  /** Steps of flushes and of the broker. */
  lemma {:induction false} FlushKeeps(p: Producer, a: Action, p': Producer)
    requires Inv(p) && Next(p, a, p') && (a.Store? || a.StorePart? || a.Others? || a.Succeed? || a.Fail? || a.Answer?)
    ensures Inv(p')
  {
    hide BatchesOk, PendingOk, SeatsOk, ResultsOk, StoredFrom, ClosedOk, Enqueue;
    match a
    case Store(id) =>
      var b := p.batches[id];
      BatchAt(p, id);
      AppendedKeeps(p, b.tp, b.records);
      StoredAtEnd(b.records, Log(p.store, b.tp));
      PhaseKeeps(Appended(p, b.tp, b.records), id, Stored(|Log(p.store, b.tp)|));
    case StorePart(id, stored) =>
      var b := p.batches[id];
      BatchAt(p, id);
      AppendedKeeps(p, b.tp, b.records[..stored]);
      PhaseKeeps(Appended(p, b.tp, b.records[..stored]), id, Replying(Failing, 0));
    case Others(tp, recs) => AppendedKeeps(p, tp, recs);
    case Succeed(id) =>
      BatchAt(p, id);
      PhaseKeeps(p, id, Replying(AtBase(p.batches[id].phase.base), 0));
    case Fail(id) =>
      BatchAt(p, id);
      PhaseKeeps(p, id, Replying(Failing, 0));
    case Answer(id) => AnswerKeeps(p, id);
  }

  /** Every step keeps the invariant. */
  lemma {:induction false} NextKeeps(p: Producer, a: Action, p': Producer)
    requires Inv(p) && Next(p, a, p')
    ensures Inv(p')
  {
    hide Inv, Next;
    if a.Send? || a.Enter? || a.Add? || a.Linger? || a.Close? || a.Drain? {
      QueueKeeps(p, a, p');
    } else {
      FlushKeeps(p, a, p');
    }
  }

  lemma {:induction false} StoredAtEnd(records: seq<Record>, log: seq<Record>)
    ensures StoredFrom(records, log + records, |log|)
  {
  }

  // ---- Runs ------------------------------------------------------------------------------------------

  ghost predicate Run(ps: seq<Producer>, actions: seq<Action>) {
    && |ps| == |actions| + 1 && Init(ps[0])
    && forall k :: 0 <= k < |actions| ==> Next(ps[k], actions[k], ps[k + 1])
  }

  lemma {:induction false} RunInv(ps: seq<Producer>, actions: seq<Action>, k: nat)
    requires Run(ps, actions) && k < |ps|
    ensures Inv(ps[k])
  {
    hide Inv, Next, Init;
    if k == 0 {
      InitInv(ps[0]);
    } else {
      RunInv(ps, actions, k - 1);
      NextKeeps(ps[k - 1], actions[k - 1], ps[k]);
    }
  }

  /** No waiter is ever sent a second result, so no send on a waiter's one-place channel can block;
      and a success result is the offset at which the broker holds that caller's record. */
  lemma {:induction false} OneRightResult(ps: seq<Producer>, actions: seq<Action>, k: nat, w: Waiter)
    requires Run(ps, actions) && k < |ps|
    ensures var p := ps[k];
            && |Got(p.results, w)| <= 1
            && (Got(p.results, w) != [] ==> Waits(p.calls, w) && w in p.asks)
            && (Got(p.results, w) != [] && Got(p.results, w)[0].Ok? ==>
                  var log := Log(p.store, p.asks[w].tp);
                  var o := Got(p.results, w)[0].offset;
                  o < |log| && log[o] == p.asks[w].rec)
  {
    hide Run, PendingOk;
    RunInv(ps, actions, k);
    var p := ps[k];
    if Waits(p.calls, w) {
      var id: BatchId, i: nat :| At(p.batches, w, id, i);
      assert BatchOk(p.batches[id], p.asks, Log(p.store, p.batches[id].tp));
      var b := p.batches[id];
      if Got(p.results, w) != [] && Got(p.results, w)[0].Ok? {
        var base := b.phase.outcome.base;
        assert Log(p.store, b.tp)[base..base + |b.records|][i] == Log(p.store, b.tp)[base + i];
      }
    }
  }

  /** Every batch has been flushed and answered in full. */
  ghost predicate Settled(p: Producer) {
    forall id :: id in p.batches && p.batches[id].phase != Filling ==>
      p.batches[id].phase.Replying? && p.batches[id].phase.sent == |p.batches[id].waiters|
  }

  /** Once Close has drained, nothing is pending, then or ever after; and when the flushes under way
      are done, every caller whose record was enqueued has exactly one result. */
  lemma {:induction false} NothingLeftBehind(ps: seq<Producer>, actions: seq<Action>, k: nat)
    requires Run(ps, actions) && k < |ps| && ps[k].drained
    ensures ps[k].pending == map[] && forall id :: id in ps[k].batches ==> ps[k].batches[id].phase != Filling
    ensures Settled(ps[k]) ==> forall w :: Waits(ps[k].calls, w) ==> |Got(ps[k].results, w)| == 1
  {
    hide Run, BatchOk;
    RunInv(ps, actions, k);
    var p := ps[k];
    NoneFilling(p.batches);
    if Settled(p) {
      forall w | Waits(p.calls, w) ensures |Got(p.results, w)| == 1 {
        var id: BatchId, i: nat :| At(p.batches, w, id, i);
        assert p.batches[id].phase != Filling;
      }
    }
  }

  lemma {:induction false} NoneFilling(batches: Batches)
    requires PendingOk(map[], batches)
    ensures forall id :: id in batches ==> batches[id].phase != Filling
  {
    forall id | id in batches && batches[id].phase == Filling ensures false {
    }
  }

  /** Draining is for good. */
  lemma {:induction false} DrainedStays(ps: seq<Producer>, actions: seq<Action>, m: nat, k: nat)
    requires Run(ps, actions) && m <= k < |ps| && ps[m].drained
    ensures ps[k].drained && ps[k].pending == map[]
    decreases k
  {
    hide EncodedSize, Init;
    if m == k {
      NothingLeftBehind(ps, actions, k);
    } else {
      DrainedStays(ps, actions, m, k - 1);
      StillDrained(ps[k - 1], actions[k - 1], ps[k]);
      NothingLeftBehind(ps, actions, k);
    }
  }

  lemma {:induction false} StillDrained(p: Producer, a: Action, p': Producer)
    requires Next(p, a, p') && p.drained
    ensures p'.drained
  {
    hide EncodedSize;
  }

  // ---- A whole fan-out -------------------------------------------------------------------------------

  /** The state after the first k answers of a batch whose round trip has just ended. */
  function AnswersSent(p: Producer, id: BatchId, k: nat): (p': Producer)
    requires id in p.batches && p.batches[id].phase.Replying? && p.batches[id].phase.sent == 0 && k <= |p.batches[id].waiters|
    ensures id in p'.batches && p'.batches[id] == p.batches[id].(phase := Replying(p.batches[id].phase.outcome, k))
  {
    if k == 0 then p else Answered(AnswersSent(p, id, k - 1), id)
  }

  /** Answering all waiters of a batch is a run of Answer steps, at the end of which each of them has
      exactly its own result. */
  lemma {:induction false} AllAnswered(p: Producer, id: BatchId, k: nat)
    requires Inv(p) && id in p.batches && p.batches[id].phase.Replying? && p.batches[id].phase.sent == 0
    requires k <= |p.batches[id].waiters|
    ensures Inv(AnswersSent(p, id, k))
    ensures k > 0 ==> Next(AnswersSent(p, id, k - 1), Answer(id), AnswersSent(p, id, k))
    ensures forall i :: 0 <= i < k ==>
              Got(AnswersSent(p, id, k).results, p.batches[id].waiters[i]) == [ResultFor(p.batches[id].phase.outcome, i)]
  {
    hide Inv, Got, Answered;
    if k > 0 {
      AllAnswered(p, id, k - 1);
      NextKeeps(AnswersSent(p, id, k - 1), Answer(id), AnswersSent(p, id, k));
    }
    var q := AnswersSent(p, id, k);
    forall i | 0 <= i < k ensures Got(q.results, p.batches[id].waiters[i]) == [ResultFor(p.batches[id].phase.outcome, i)] {
      HasItsDue(q, id, i);
    }
  }

  lemma {:induction false} HasItsDue(p: Producer, id: BatchId, i: nat)
    requires Inv(p) && id in p.batches && i < |p.batches[id].waiters|
    ensures Got(p.results, p.batches[id].waiters[i]) == Due(p.batches[id], i)
  {
    hide BatchesOk, PendingOk, ClosedOk, SeatsOk;
    assert At(p.batches, p.batches[id].waiters[i], id, i);
  }
}
