/** What whole runs of the producer's batcher mean for its callers: a call is refused only because of a
    Close, joins one batch and keeps its place in it, a batch goes out when it is full, lingered or
    drained and not otherwise, and the callers of a batch are told what became of it. */
module BatcherRuns {
  import opened Bytes
  import opened Names
  import opened Records
  import opened Batcher

  // ---- One step of one batch -------------------------------------------------------------------------

  /** The broker has the batch from `base` on, and its callers are told so unless the answer gets lost. */
  predicate StoredAt(phase: Phase, base: nat) {
    || phase == Stored(base)
    || (phase.Replying? && (phase.outcome == AtBase(base) || phase.outcome == Failing))
  }

  /** Its partition and order stand, records join at the end while it fills, and a reported outcome is
      final. */
  predicate Carried(b: Batch, b': Batch) {
    && b'.tp == b.tp && b.waiters <= b'.waiters && b.records <= b'.records
    && (b.phase != Filling ==> b'.phase != Filling && b'.waiters == b.waiters && b'.records == b.records && b'.bytes == b.bytes)
    && (b.phase.Replying? ==> b'.phase.Replying? && b'.phase.outcome == b.phase.outcome)
    && (b.phase.Stored? ==> StoredAt(b'.phase, b.phase.base))
  }

  lemma {:induction false} BatchStep(p: Producer, a: Action, p': Producer, id: BatchId)
    requires Inv(p) && Next(p, a, p') && id in p.batches
    ensures id in p'.batches && Carried(p.batches[id], p'.batches[id])
  {
    hide BatchesOk, SeatsOk, ResultsOk, ClosedOk, EncodedSize, Log, Enqueue, PendingOk;
    if a.Add? {
      AddBatch(p, a.w, p', id);
    } else if a.Linger? {
      LingerBatch(p, a.tp, a.id, id);
    }
  }

  lemma {:induction false} LingerBatch(p: Producer, tp: TopicPartition, fired: BatchId, id: BatchId)
    requires Inv(p) && id in p.batches
    ensures var p' := LingerFired(p, tp, fired);
            && id in p'.batches && (id != fired ==> p'.batches[id] == p.batches[id])
            && (id == fired && p.batches[id].phase == Filling && p.batches[id].tp == tp ==> p'.batches[id] == p.batches[id].(phase := Sending))
            && (id == fired && !(p.batches[id].phase == Filling && p.batches[id].tp == tp) ==> p'.batches[id] == p.batches[id])
  {
    hide BatchesOk, SeatsOk, ResultsOk, ClosedOk;
  }

  /** A record joins the filling batch of its partition, at the end, or starts one. */
  lemma {:induction false} AddBatch(p: Producer, w: Waiter, p': Producer, id: BatchId)
    requires Inv(p) && Next(p, Add(w), p')
    ensures id in p.batches ==>
              && id in p'.batches
              && (p'.batches[id] == p.batches[id]
                  || (p.batches[id].phase == Filling && Joins(p.batches[id], p.asks[w], w, p.batchSize, p'.batches[id])))
    ensures id in p'.batches && id !in p.batches ==> Joins(Batch(p.asks[w].tp, [], 0, [], Filling), p.asks[w], w, p.batchSize, p'.batches[id])
  {
    hide SeatsOk, ResultsOk, ClosedOk, EncodedSize, BatchOk;
  }

  /** b' is b with one caller's record more, detached exactly when that fills it. */
  predicate Joins(b: Batch, ask: Ask, w: Waiter, batchSize: int, b': Batch) {
    && b'.tp == b.tp == ask.tp && b'.records == b.records + [ask.rec] && b'.waiters == b.waiters + [w]
    && b'.bytes == b.bytes + EncodedSize(ask.rec)
    && b'.phase == if b'.bytes >= batchSize then Sending else Filling
  }

  // ---- What becomes of a batch -----------------------------------------------------------------------

  lemma {:induction false} CarriedOn(ps: seq<Producer>, actions: seq<Action>, j: nat, m: nat, id: BatchId)
    requires Run(ps, actions) && j <= m < |ps| && id in ps[j].batches
    ensures id in ps[m].batches && Carried(ps[j].batches[id], ps[m].batches[id])
  {
    hide Init, Inv, Next;
    if j < m {
      CarriedOn(ps, actions, j, m - 1, id);
      RunInv(ps, actions, m - 1);
      BatchStep(ps[m - 1], actions[m - 1], ps[m], id);
    }
  }

  /** The last round trip of a batch has been reported: the waiter at place i has its result or will
      get no other. */
  ghost predicate Told(p: Producer, id: BatchId, i: nat, result: Result)
    requires id in p.batches && i < |p.batches[id].waiters|
  {
    var got := Got(p.results, p.batches[id].waiters[i]);
    && (got == [] || got == [result])
    && (p.batches[id].phase.Replying? && p.batches[id].phase.sent == |p.batches[id].waiters| ==> got == [result])
  }

  lemma {:induction false} ToldOutcome(p: Producer, id: BatchId, i: nat)
    requires Inv(p) && id in p.batches && p.batches[id].phase.Replying? && i < |p.batches[id].waiters|
    ensures Told(p, id, i, ResultFor(p.batches[id].phase.outcome, i))
  {
    hide Inv;
    HasItsDue(p, id, i);
  }

  /** A batch that the broker stored and acknowledged: every one of its callers gets the offset of its own
      record, counted from where the broker's log ended when it stored the batch, and nothing else. */
  lemma {:induction false} SuccessIsReported(ps: seq<Producer>, actions: seq<Action>, j: nat, k: nat, m: nat, id: BatchId, i: nat)
    requires Run(ps, actions) && j < k < m < |ps| && actions[j] == Store(id) && actions[k] == Succeed(id)
    requires id in ps[j].batches && i < |ps[j].batches[id].waiters|
    ensures id in ps[m].batches && ps[m].batches[id].waiters == ps[j].batches[id].waiters
    ensures Told(ps[m], id, i, Ok(|Log(ps[j].store, ps[j].batches[id].tp)| + i))
  {
    hide Init, Inv;
    var base := |Log(ps[j].store, ps[j].batches[id].tp)|;
    assert Next(ps[j], actions[j], ps[j + 1]) && Next(ps[k], actions[k], ps[k + 1]);
    CarriedOn(ps, actions, j + 1, k, id);
    CarriedOn(ps, actions, k + 1, m, id);
    RunInv(ps, actions, m);
    ToldOutcome(ps[m], id, i);
  }

  /** A batch whose round trip failed, stored in part or not: every one of its callers gets the error. */
  lemma {:induction false} FailureIsReported(ps: seq<Producer>, actions: seq<Action>, k: nat, m: nat, id: BatchId, i: nat)
    requires Run(ps, actions) && k < m < |ps| && (actions[k] == Fail(id) || (actions[k].StorePart? && actions[k].id == id))
    requires id in ps[k].batches && i < |ps[k].batches[id].waiters|
    ensures id in ps[m].batches && ps[m].batches[id].waiters == ps[k].batches[id].waiters
    ensures Told(ps[m], id, i, Error)
  {
    hide Init, Inv;
    assert Next(ps[k], actions[k], ps[k + 1]);
    CarriedOn(ps, actions, k + 1, m, id);
    RunInv(ps, actions, m);
    ToldOutcome(ps[m], id, i);
  }

  /** No outcome before a round trip has ended. */
  lemma {:induction false} NothingToldBefore(ps: seq<Producer>, actions: seq<Action>, m: nat, id: BatchId, i: nat)
    requires Run(ps, actions) && m < |ps| && id in ps[m].batches && i < |ps[m].batches[id].waiters|
    requires forall k :: 0 <= k < m ==> !(actions[k] == Succeed(id) || actions[k] == Fail(id) || (actions[k].StorePart? && actions[k].id == id))
    ensures Got(ps[m].results, ps[m].batches[id].waiters[i]) == []
  {
    hide Init, Inv;
    RunInv(ps, actions, m);
    NotReplying(ps, actions, m, id);
    HasItsDue(ps[m], id, i);
  }

  lemma {:induction false} NotReplying(ps: seq<Producer>, actions: seq<Action>, m: nat, id: BatchId)
    requires Run(ps, actions) && m < |ps| && id in ps[m].batches
    requires forall k :: 0 <= k < m ==> !(actions[k] == Succeed(id) || actions[k] == Fail(id) || (actions[k].StorePart? && actions[k].id == id))
    ensures !ps[m].batches[id].phase.Replying?
  {
    hide Inv, Next;
    if m > 0 {
      RunInv(ps, actions, m - 1);
      if id in ps[m - 1].batches {
        NotReplying(ps, actions, m - 1, id);
      }
      if ps[m].batches[id].phase.Replying? {
        StartsReplying(ps[m - 1], actions[m - 1], ps[m], id);
      }
    }
  }

  lemma {:induction false} StartsReplying(p: Producer, a: Action, p': Producer, id: BatchId)
    requires Inv(p) && Next(p, a, p') && id in p'.batches && p'.batches[id].phase.Replying?
    ensures (id in p.batches && p.batches[id].phase.Replying?) || a == Succeed(id) || a == Fail(id) || (a.StorePart? && a.id == id)
  {
    hide BatchesOk, SeatsOk, ResultsOk, ClosedOk, EncodedSize, Log, Enqueue, PendingOk;
    if a.Add? {
      AddBatch(p, a.w, p', id);
    } else if a.Linger? && id in p.batches {
      LingerBatch(p, a.tp, a.id, id);
    }
  }

  // ---- When a batch goes out -------------------------------------------------------------------------

  /** The batch counts its bytes, and was below the limit before its last record. */
  ghost predicate Counted(b: Batch, batchSize: int) {
    && b.bytes == Size(b.records) && b.records != []
    && (|b.records| > 1 ==> Size(b.records[..|b.records| - 1]) < batchSize)
    && (b.phase == Filling ==> b.bytes < batchSize)
  }

  lemma {:induction false} JoinsCounted(b: Batch, ask: Ask, w: Waiter, batchSize: int, b': Batch)
    requires Joins(b, ask, w, batchSize, b') && b.bytes == Size(b.records) && (b.records != [] ==> b.bytes < batchSize)
    ensures Counted(b', batchSize)
  {
    hide EncodedSize;
    assert (b.records + [ask.rec])[..|b.records|] == b.records;
  }

  lemma {:induction false} CountedStep(p: Producer, a: Action, p': Producer, id: BatchId)
    requires Inv(p) && Next(p, a, p') && id in p'.batches
    requires id in p.batches ==> Counted(p.batches[id], p.batchSize)
    ensures p'.batchSize == p.batchSize && Counted(p'.batches[id], p.batchSize)
  {
    hide BatchesOk, SeatsOk, ResultsOk, ClosedOk, EncodedSize, Log, PendingOk, Size, Joins;
    if a.Add? {
      AddBatch(p, a.w, p', id);
      NoBytes();
      if id !in p.batches {
        JoinsCounted(Batch(p.asks[a.w].tp, [], 0, [], Filling), p.asks[a.w], a.w, p.batchSize, p'.batches[id]);
      } else if p'.batches[id] != p.batches[id] {
        JoinsCounted(p.batches[id], p.asks[a.w], a.w, p.batchSize, p'.batches[id]);
      }
    }
  }

  lemma {:induction false} NoBytes()
    ensures Size([]) == 0
  {
  }

  /** Why a batch is no longer filling: it is full, or its timer fired, or Close drained it. */
  ghost predicate Released(ps: seq<Producer>, actions: seq<Action>, m: nat, id: BatchId)
    requires m < |ps| && m <= |actions| && id in ps[m].batches
  {
    var b := ps[m].batches[id];
    || Size(b.records) >= ps[m].batchSize
    || (exists k :: 0 <= k < m && actions[k] == Linger(b.tp, id))
    || (exists k :: 0 <= k < m && actions[k] == Drain)
  }

  /** Over every run a batch never outgrows the batch size by more than its last record, fills only
      below it, and goes out only when it has reached it, lingered long enough, or is drained. */
  lemma {:induction false} BatchesGoOut(ps: seq<Producer>, actions: seq<Action>, m: nat, id: BatchId)
    requires Run(ps, actions) && m < |ps| && id in ps[m].batches
    ensures ps[m].batchSize == ps[0].batchSize && Counted(ps[m].batches[id], ps[m].batchSize)
    ensures ps[m].batches[id].phase != Filling ==> Released(ps, actions, m, id)
  {
    hide Inv, Next, Counted, Size;
    if m > 0 {
      RunInv(ps, actions, m - 1);
      SameSize(ps, actions, m);
      SameSize(ps, actions, m - 1);
      if id in ps[m - 1].batches {
        BatchesGoOut(ps, actions, m - 1, id);
        BatchStep(ps[m - 1], actions[m - 1], ps[m], id);
      }
      CountedStep(ps[m - 1], actions[m - 1], ps[m], id);
      if ps[m].batches[id].phase != Filling {
        if id in ps[m - 1].batches && ps[m - 1].batches[id].phase != Filling {
          StillReleased(ps, actions, m, id);
        } else {
          GoesOut(ps[m - 1], actions[m - 1], ps[m], id);
          CountedBytes(ps[m].batches[id], ps[m].batchSize);
        }
      }
    }
  }

  lemma {:induction false} CountedBytes(b: Batch, batchSize: int)
    requires Counted(b, batchSize)
    ensures b.bytes == Size(b.records)
  {
  }

  lemma {:induction false} SameSize(ps: seq<Producer>, actions: seq<Action>, m: nat)
    requires Run(ps, actions) && m < |ps|
    ensures ps[m].batchSize == ps[0].batchSize
  {
    hide Init, Next;
    if m > 0 {
      SameSize(ps, actions, m - 1);
      KeepsSize(ps[m - 1], actions[m - 1], ps[m]);
    }
  }

  lemma {:induction false} KeepsSize(p: Producer, a: Action, p': Producer)
    requires Next(p, a, p')
    ensures p'.batchSize == p.batchSize
  {
    hide EncodedSize, Log, Got;
  }

  lemma {:induction false} StillReleased(ps: seq<Producer>, actions: seq<Action>, m: nat, id: BatchId)
    requires 0 < m < |ps| && m <= |actions| && id in ps[m - 1].batches && id in ps[m].batches
    requires Released(ps, actions, m - 1, id) && ps[m].batchSize == ps[m - 1].batchSize
    requires ps[m].batches[id].tp == ps[m - 1].batches[id].tp && ps[m].batches[id].records == ps[m - 1].batches[id].records
    ensures Released(ps, actions, m, id)
  {
    hide Size;
  }

  lemma {:induction false} GoesOut(p: Producer, a: Action, p': Producer, id: BatchId)
    requires Inv(p) && Next(p, a, p') && id in p'.batches && p'.batches[id].phase != Filling
    requires id in p.batches ==> p.batches[id].phase == Filling
    ensures p'.batches[id].bytes >= p.batchSize || a == Linger(p'.batches[id].tp, id) || a == Drain
  {
    hide BatchesOk, SeatsOk, ResultsOk, ClosedOk, EncodedSize, Log, PendingOk;
    if a.Add? {
      AddBatch(p, a.w, p', id);
    } else if a.Linger? && id in p.batches {
      LingerBatch(p, a.tp, a.id, id);
    }
  }

  /** A timer armed for a batch leaves it no longer filling, and a drain leaves none. */
  lemma {:induction false} TimerReleases(ps: seq<Producer>, actions: seq<Action>, k: nat, m: nat, id: BatchId)
    requires Run(ps, actions) && k < m < |ps| && id in ps[k].batches
    requires actions[k] == Linger(ps[k].batches[id].tp, id) || actions[k] == Drain
    ensures id in ps[m].batches && ps[m].batches[id].phase != Filling
  {
    hide Init, BatchesOk, SeatsOk, ResultsOk, ClosedOk, PendingOk;
    assert Next(ps[k], actions[k], ps[k + 1]);
    RunInv(ps, actions, k);
    if actions[k].Linger? {
      LingerBatch(ps[k], actions[k].tp, id, id);
    }
    CarriedOn(ps, actions, k + 1, m, id);
  }

  // ---- Calls -----------------------------------------------------------------------------------------

  /** A caller's place in a batch is for good, and later callers come after it. */
  lemma {:induction false} PlacesStay(ps: seq<Producer>, actions: seq<Action>, j: nat, m: nat, w: Waiter, id: BatchId, i: nat)
    requires Run(ps, actions) && j <= m < |ps| && At(ps[j].batches, w, id, i)
    ensures At(ps[m].batches, w, id, i)
  {
    hide Init, Inv, Next, Run;
    CarriedOn(ps, actions, j, m, id);
  }

  /** Of two callers of one batch, the one that joined first is first. */
  lemma {:induction false} FirstComeFirst(ps: seq<Producer>, actions: seq<Action>, j: nat, k: nat, m: nat, w: Waiter, x: Waiter, id: BatchId, i: nat, l: nat)
    requires Run(ps, actions) && j < k < m < |ps| && actions[j] == Add(w) && actions[k] == Add(x)
    requires At(ps[m].batches, w, id, i) && At(ps[m].batches, x, id, l)
    ensures i < l
  {
    hide Init, Inv, Next;
    Seated(ps, actions, j, m, w, id, i);
    Seated(ps, actions, k, m, x, id, l);
    PlacesStay(ps, actions, j + 1, k, w, id, i);
    JoinedLast(ps, actions, k, x, id, l);
  }

  /** The place a caller has in the end is the one it was given. */
  lemma {:induction false} Seated(ps: seq<Producer>, actions: seq<Action>, j: nat, m: nat, w: Waiter, id: BatchId, i: nat)
    requires Run(ps, actions) && j < m < |ps| && actions[j] == Add(w) && At(ps[m].batches, w, id, i)
    ensures At(ps[j + 1].batches, w, id, i)
  {
    hide Init, BatchesOk, PendingOk, ResultsOk, ClosedOk, EncodedSize;
    RunInv(ps, actions, j);
    RunInv(ps, actions, j + 1);
    RunInv(ps, actions, m);
    assert Next(ps[j], actions[j], ps[j + 1]);
    assert Waits(ps[j + 1].calls, w);
    var id': BatchId, i': nat :| At(ps[j + 1].batches, w, id', i');
    PlacesStay(ps, actions, j + 1, m, w, id', i');
  }

  lemma {:induction false} JoinedLast(ps: seq<Producer>, actions: seq<Action>, k: nat, x: Waiter, id: BatchId, l: nat)
    requires Run(ps, actions) && k < |actions| && actions[k] == Add(x) && At(ps[k + 1].batches, x, id, l)
    ensures id in ps[k].batches ==> l >= |ps[k].batches[id].waiters|
  {
    hide Init, BatchesOk, PendingOk, ResultsOk, ClosedOk, EncodedSize;
    RunInv(ps, actions, k);
    assert Next(ps[k], actions[k], ps[k + 1]);
    assert !Waits(ps[k].calls, x) && !At(ps[k].batches, x, id, l);
    AddBatch(ps[k], x, ps[k + 1], id);
  }

  lemma {:induction false} CallStep(p: Producer, a: Action, p': Producer, w: Waiter)
    requires Next(p, a, p') && w in p.calls && w in p.asks
    ensures w in p'.calls && w in p'.asks && p'.asks[w] == p.asks[w]
    ensures p'.calls[w] == p.calls[w] || (a == Enter(w) && p'.calls[w] == if p.closed then Refused else Holding) || (a == Add(w) && p'.calls[w] == Enqueued)
  {
    hide EncodedSize, Log, Got;
  }

  lemma {:induction false} ClosedByClose(ps: seq<Producer>, actions: seq<Action>, m: nat)
    requires Run(ps, actions) && m < |ps|
    ensures ps[m].closed <==> exists k :: 0 <= k < m && actions[k] == Close
  {
    hide Next;
    if m > 0 {
      ClosedByClose(ps, actions, m - 1);
      ClosedStep(ps[m - 1], actions[m - 1], ps[m]);
    }
  }

  lemma {:induction false} ClosedStep(p: Producer, a: Action, p': Producer)
    requires Next(p, a, p')
    ensures p'.closed <==> p.closed || a == Close
  {
    hide EncodedSize, Log, Got;
  }

  /** What becomes of a call: it is refused exactly if a Close came before one of its two looks at the
      closed flag, and once it is past them its own record sits in a batch of its own partition. */
  lemma {:induction false} CallsFate(ps: seq<Producer>, actions: seq<Action>, k: nat, m: nat)
    requires Run(ps, actions) && k < m < |ps| && actions[k].Send?
    ensures var w, ask := actions[k].w, actions[k].ask;
            var p := ps[m];
            && w in p.calls && w in p.asks && p.asks[w] == ask
            && (p.calls[w] == Refused ==>
                  exists l, n :: 0 <= l < n < m && actions[l] == Close && (n == k || actions[n] == Enter(w)))
            && (ps[k].closed ==> p.calls[w] == Refused)
            && (p.calls[w] == Enqueued ==>
                  exists id: BatchId, i: nat :: At(p.batches, w, id, i) && p.batches[id].tp == ask.tp && i < |p.batches[id].records| && p.batches[id].records[i] == ask.rec)
  {
    hide Init, Inv, Next;
    CallTracked(ps, actions, k, m);
    RunInv(ps, actions, m);
    if ps[m].calls[actions[k].w] == Enqueued {
      InItsBatch(ps[m], actions[k].w);
    }
  }

  lemma {:induction false} InItsBatch(p: Producer, w: Waiter)
    requires Inv(p) && Waits(p.calls, w)
    ensures w in p.asks
    ensures exists id: BatchId, i: nat :: At(p.batches, w, id, i) && p.batches[id].tp == p.asks[w].tp && i < |p.batches[id].records| && p.batches[id].records[i] == p.asks[w].rec
  {
    hide PendingOk, ResultsOk, StoredFrom;
    var id: BatchId, i: nat :| At(p.batches, w, id, i);
    assert BatchOk(p.batches[id], p.asks, Log(p.store, p.batches[id].tp));
  }

  lemma {:induction false} CallTracked(ps: seq<Producer>, actions: seq<Action>, k: nat, m: nat)
    requires Run(ps, actions) && k < m < |ps| && actions[k].Send?
    ensures var w, ask := actions[k].w, actions[k].ask;
            var p := ps[m];
            && w in p.calls && w in p.asks && p.asks[w] == ask
            && (p.calls[w] == Refused ==>
                  exists l, n :: 0 <= l < n < m && actions[l] == Close && (n == k || actions[n] == Enter(w)))
            && (ps[k].closed ==> p.calls[w] == Refused)
  {
    hide Init, EncodedSize, Log, Enqueue, LingerFired, DrainedAll;
    var w := actions[k].w;
    if m == k + 1 {
      assert Next(ps[k], actions[k], ps[k + 1]);
      ClosedByClose(ps, actions, k);
    } else {
      CallTracked(ps, actions, k, m - 1);
      assert Next(ps[m - 1], actions[m - 1], ps[m]);
      CallStep(ps[m - 1], actions[m - 1], ps[m], w);
      ClosedByClose(ps, actions, m - 1);
    }
  }
}
