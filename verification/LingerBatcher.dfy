/** The batcher's objects (pkg/client/producer.go). Each method is a step of the machine of Batcher:
    it takes the state the object shows to the one the step leads to. */
module LingerBatchers {
  import opened Bytes
  import opened Names
  import opened Records
  import opened Batcher

  /** What the batch lock guards for one partition: which batch is filling, and its contents. */
  datatype Slot = Slot(id: BatchId, batch: Batch)

  function Pending(p: Producer, tp: TopicPartition): Option<Slot> {
    if tp in p.pending && p.pending[tp] in p.batches then Some(Slot(p.pending[tp], p.batches[p.pending[tp]])) else None
  }

  // ---- What each step does to the slots --------------------------------------------------------------

  /** The slot a record leaves its partition with, before the size test: the pending batch with one
      record more, or a new batch with that record alone. */
  function Joined(slot: Option<Slot>, next: BatchId, ask: Ask, w: Waiter): Slot {
    var s := if slot.Some? then slot.value else Slot(next, Batch(ask.tp, [], 0, [], Filling));
    Slot(s.id, Batch(ask.tp, s.batch.records + [ask.rec], s.batch.bytes + EncodedSize(ask.rec), s.batch.waiters + [w], Filling))
  }

  /** Adding is that on the slots, and a full batch leaves them. */
  lemma {:induction false} AddSlot(p: Producer, w: Waiter)
    requires Inv(p) && w in p.calls && p.calls[w] == Holding && w in p.asks
    ensures Next(p, Add(w), Enqueue(p, w))
    ensures var ask, p' := p.asks[w], Enqueue(p, w);
            var s := Joined(Pending(p, ask.tp), p.nextBatch, ask, w);
            var full := s.batch.bytes >= p.batchSize;
            && s.id in p'.batches && p'.batches[s.id] == s.batch.(phase := if full then Sending else Filling)
            && Pending(p', ask.tp) == (if full then None else Some(s))
            && (forall tp :: tp != ask.tp ==> Pending(p', tp) == Pending(p, tp))
            && p'.batchSize == p.batchSize && p'.nextBatch >= p.nextBatch && s.id < p'.nextBatch
  {
    hide SeatsOk, ResultsOk, ClosedOk, BatchOk, EncodedSize;
  }

  lemma {:induction false} LingerSlot(p: Producer, tp: TopicPartition, id: BatchId)
    requires Inv(p)
    ensures var p' := LingerFired(p, tp, id);
            && p'.batchSize == p.batchSize && p'.nextBatch == p.nextBatch
            && (forall other :: other != tp ==> Pending(p', other) == Pending(p, other))
            && if Pending(p, tp).Some? && Pending(p, tp).value.id == id
               then p' != p && id in p'.batches && p'.batches[id] == Pending(p, tp).value.batch.(phase := Sending) && Pending(p', tp) == None
               else p' == p
  {
    hide SeatsOk, ResultsOk, ClosedOk, BatchesOk;
    if Pending(p, tp).Some? && Pending(p, tp).value.id == id {
      assert tp in p.pending && tp !in LingerFired(p, tp, id).pending;
    }
  }

  lemma {:induction false} DrainSlots(p: Producer)
    requires Inv(p)
    ensures var p' := DrainedAll(p);
            && p'.batchSize == p.batchSize && p'.nextBatch == p.nextBatch
            && (forall tp :: Pending(p', tp) == None)
            && (forall tp :: Pending(p, tp).Some? <==> tp in p.pending)
            && (forall tp :: Pending(p, tp).Some? ==>
                  var s := Pending(p, tp).value;
                  s.id == p.pending[tp] && s.id in p'.batches && p'.batches[s.id] == s.batch.(phase := Sending))
  {
    hide SeatsOk, ResultsOk, ClosedOk, BatchesOk;
  }

  /** Steps outside the batch lock touch no batch that is still filling. */
  lemma {:induction false} OtherSlots(p: Producer, a: Action, p': Producer)
    requires Inv(p) && Next(p, a, p') && !a.Add? && !a.Linger? && !a.Drain?
    ensures p'.batchSize == p.batchSize && p'.nextBatch == p.nextBatch
    ensures forall tp :: Pending(p', tp) == Pending(p, tp)
  {
    hide SeatsOk, ResultsOk, ClosedOk, BatchesOk, Log;
  }

  // ---- The objects -----------------------------------------------------------------------------------

  class PendingBatch {
    var records: seq<Record>
    var bytes: nat
    var waiters: seq<Waiter>

    /** The object as a batch of the machine. */
    ghost function View(tp: TopicPartition, phase: Phase): Batch
      reads this
    {
      Batch(tp, records, bytes, waiters, phase)
    }

    constructor ()
      ensures records == [] && bytes == 0 && waiters == []
    {
      records, bytes, waiters := [], 0, [];
    }

    method Add(rec: Record, w: Waiter)
      modifies this
      ensures records == old(records) + [rec] && bytes == old(bytes) + EncodedSize(rec) && waiters == old(waiters) + [w]
    {
      records, bytes, waiters := records + [rec], bytes + EncodedSize(rec), waiters + [w];
    }

    /** The fan-out of flushBatch, on the channels of all waiters: it leaves them as the machine's
        Answer steps for this batch do, each waiter of it with exactly its own result. */
    method FanOut(channels: Channels, o: Outcome, ghost p: Producer, ghost id: BatchId) returns (sent: Channels)
      requires Inv(p) && id in p.batches && p.batches[id] == View(p.batches[id].tp, Replying(o, 0)) && channels == p.results
      ensures sent == AnswersSent(p, id, |waiters|).results
      ensures forall i :: 0 <= i < |waiters| ==> Got(sent, waiters[i]) == [ResultFor(o, i)]
    {
      hide Inv, Next;
      sent := channels;
      for i := 0 to |waiters|
        invariant sent == AnswersSent(p, id, i).results
      {
        var result := if o.AtBase? then Ok(o.base + i) else Error;
        sent := sent[waiters[i] := Got(sent, waiters[i]) + [result]];
      }
      AllAnswered(p, id, |waiters|);
    }
  }

  class LingerBatcher {
    const batchSize: int
    var pending: map<TopicPartition, PendingBatch>

    /** Which batch of the machine each object is. */
    ghost var ids: map<PendingBatch, BatchId>

    ghost predicate Named()
      reads this
    {
      && (forall tp :: tp in pending ==> pending[tp] in ids)
      && (forall a, b :: a in pending && b in pending && pending[a] == pending[b] ==> a == b)
      && (forall a, b :: a in ids && b in ids && ids[a] == ids[b] ==> a == b)
    }

    ghost function View(tp: TopicPartition): Option<Slot>
      requires Named()
      reads this, pending.Values
    {
      if tp in pending then Some(Slot(ids[pending[tp]], pending[tp].View(tp, Filling))) else None
    }

    /** The object shows the machine state p: the same batches are pending, with the same contents. */
    ghost predicate Shows(p: Producer)
      reads this, pending.Values
    {
      && Named() && batchSize == p.batchSize && (forall a :: a in ids ==> ids[a] < p.nextBatch)
      && (forall tp :: View(tp) == Pending(p, tp))
    }

    constructor (size: int, ghost p: Producer)
      requires Init(p) && p.batchSize == if size <= 0 then 16384 else size
      ensures Shows(p) && pending == map[]
    {
      batchSize := if size <= 0 then 16384 else size;
      pending, ids := map[], map[];
    }

    /** The critical section of sendBatched is the machine's Add step: the caller's record and channel
        end up in the batch the machine puts them in, detached exactly when the machine detaches it. */
    method Enqueue(tp: TopicPartition, rec: Record, w: Waiter, ghost p: Producer) returns (joined: PendingBatch, full: bool)
      requires Inv(p) && Shows(p) && w in p.calls && p.calls[w] == Holding && w in p.asks && p.asks[w] == Ask(tp, rec)
      modifies this`pending, this`ids, if tp in pending then {pending[tp]} else {}
      ensures Next(p, Batcher.Add(w), Batcher.Enqueue(p, w)) && Shows(Batcher.Enqueue(p, w))
      ensures joined in ids && ids[joined] in Batcher.Enqueue(p, w).batches
      ensures Batcher.Enqueue(p, w).batches[ids[joined]] == joined.View(tp, if full then Sending else Filling)
    {
      hide Inv, Next, EncodedSize, Pending, Batcher.Enqueue, Joined;
      AddSlot(p, w);
      joined := Join(tp, rec, w, p.nextBatch);
      full := joined.bytes >= batchSize;
      if full {
        Detach(tp);
      }
    }

    /** The record joins the partition's pending batch, which is created when there is none. */
    method Join(tp: TopicPartition, rec: Record, w: Waiter, ghost next: BatchId) returns (joined: PendingBatch)
      requires Named() && (forall a :: a in ids ==> ids[a] < next)
      modifies this`pending, this`ids, if tp in pending then {pending[tp]} else {}
      ensures Named() && (forall a :: a in ids ==> ids[a] < next || a == joined) && joined in ids && tp in pending && pending[tp] == joined
      ensures Slot(ids[joined], joined.View(tp, Filling)) == Joined(old(View(tp)), next, Ask(tp, rec), w)
      ensures forall other :: other != tp ==> View(other) == old(View(other))
    {
      hide EncodedSize;
      joined := Open(tp, next);
      joined.Add(rec, w);
    }

    method Open(tp: TopicPartition, ghost next: BatchId) returns (pb: PendingBatch)
      requires Named() && (forall a :: a in ids ==> ids[a] < next)
      modifies this`pending, this`ids
      ensures Named() && tp in pending && pending[tp] == pb && (forall a :: a in ids ==> ids[a] < next || a == pb)
      ensures old(tp in pending) ==> pb == old(pending[tp])
      ensures old(tp !in pending) ==> fresh(pb)
      ensures View(tp) == if old(tp in pending) then old(View(tp)) else Some(Slot(next, Batch(tp, [], 0, [], Filling)))
      ensures forall other :: other != tp ==> View(other) == old(View(other))
    {
      if tp in pending {
        pb := pending[tp];
      } else {
        pb := new PendingBatch();
        ids := ids[pb := next];
        pending := pending[tp := pb];
      }
    }

    /** lingerFire is the machine's Linger step for the batch the timer was armed for. */
    method LingerFire(tp: TopicPartition, pb: PendingBatch, ghost p: Producer) returns (mine: bool)
      requires Inv(p) && Shows(p) && p.holder == None && pb in ids
      modifies this`pending
      ensures Next(p, Linger(tp, ids[pb]), LingerFired(p, tp, ids[pb])) && Shows(LingerFired(p, tp, ids[pb]))
      ensures mine <==> LingerFired(p, tp, ids[pb]) != p
      ensures mine ==> ids[pb] in LingerFired(p, tp, ids[pb]).batches && LingerFired(p, tp, ids[pb]).batches[ids[pb]] == pb.View(tp, Sending)
    {
      hide Inv, Pending, LingerFired;
      LingerSlot(p, tp, ids[pb]);
      assert View(tp) == Pending(p, tp);
      if tp !in pending || pending[tp] != pb {
        return false;
      }
      Detach(tp);
      mine := true;
    }

    method Detach(tp: TopicPartition)
      requires Named()
      modifies this`pending
      ensures Named() && pending == old(pending) - {tp} && View(tp) == None
      ensures forall other :: other != tp ==> View(other) == old(View(other))
    {
      pending := pending - {tp};
    }

    /** The detaching half of flushAllPending is the machine's Drain step: it hands over, as detached,
        exactly the batches that were pending. */
    method DetachAll(ghost p: Producer) returns (batches: map<TopicPartition, PendingBatch>)
      requires Inv(p) && Shows(p) && p.closed && p.holder == None
      modifies this`pending
      ensures Next(p, Drain, DrainedAll(p)) && Shows(DrainedAll(p))
      ensures forall tp :: tp in batches <==> tp in p.pending
      ensures forall tp :: tp in batches ==>
                && batches[tp] in ids && ids[batches[tp]] == p.pending[tp] && p.pending[tp] in DrainedAll(p).batches
                && DrainedAll(p).batches[p.pending[tp]] == batches[tp].View(tp, Sending)
    {
      hide Inv, Pending, DrainedAll;
      DrainSlots(p);
      batches := pending;
      pending := map[];
    }

    /** Every other step of the machine leaves the object showing the state it leads to. */
    lemma {:induction false} OthersPass(p: Producer, a: Action, p': Producer)
      requires Inv(p) && Shows(p) && Next(p, a, p') && !a.Add? && !a.Linger? && !a.Drain?
      ensures Shows(p')
    {
      hide Inv, Next, Pending;
      OtherSlots(p, a, p');
    }
  }
}
