/** The purgatory of acks=all produce requests (internal/replication/replication.go). */
module Purgatories {
  import opened Bytes

  /** A topic-partition. */
  type Tp = nat

  datatype Item = Item(tp: Tp, required: int)

  /** The watched requests, the last id handed out, and the ids whose response channel has been
      sent its one nil. */
  datatype Pool = Pool(items: map<int, Item>, lastId: int, answered: set<int>)

  function Watched(p: Pool, tp: Tp, required: int): Pool {
    Pool(p.items[p.lastId + 1 := Item(tp, required)], p.lastId + 1, p.answered)
  }

  predicate Met(item: Item, tp: Tp, hw: int) { item.tp == tp && hw >= item.required }

  function Completed(p: Pool, tp: Tp, hw: int): Pool {
    var met := set id | id in p.items && Met(p.items[id], tp, hw);
    Pool(p.items - met, p.lastId, p.answered + met)
  }

  function Cancelled(p: Pool, id: int): Pool { p.(items := p.items - {id}) }

  /** Completing answers exactly the requests the watermark satisfies, and keeps the others. */
  lemma {:induction false} CompletedExactly(p: Pool, tp: Tp, hw: int, id: int)
    requires id in p.items
    ensures Met(p.items[id], tp, hw) ==> id in Completed(p, tp, hw).answered && id !in Completed(p, tp, hw).items
    ensures !Met(p.items[id], tp, hw) ==>
              && id in Completed(p, tp, hw).items && Completed(p, tp, hw).items[id] == p.items[id]
              && (id in Completed(p, tp, hw).answered <==> id in p.answered)
  {
  }

  lemma {:induction false} Drop(items: map<int, Item>, met: set<int>, id: int)
    ensures items - met - {id} == items - (met + {id})
  {
  }

  lemma {:induction false} AllMet(p: Pool, met: set<int>, tp: Tp, hw: int)
    requires met <= p.items.Keys
    requires forall id :: id in p.items ==> (id in met <==> Met(p.items[id], tp, hw))
    ensures Completed(p, tp, hw) == Pool(p.items - met, p.lastId, p.answered + met)
  {
    var all := set id | id in p.items && Met(p.items[id], tp, hw);
    assert forall id | id in all :: id in met;
    assert forall id | id in met :: id in all;
    assert all == met;
  }

  class Purgatory {
    var items: map<int, Item>
    var nextID: int
    ghost var answered: set<int>

    ghost function View(): Pool
      reads this
    {
      Pool(items, nextID, answered)
    }

    constructor ()
      ensures View() == Pool(map[], 0, {})
    {
      items, nextID, answered := map[], 0, {};
    }

    method Watch(tp: Tp, requiredHW: int) returns (id: int)
      modifies this
      ensures View() == Watched(old(View()), tp, requiredHW) && id == old(nextID) + 1
    {
      nextID := nextID + 1;
      id := nextID;
      items := items[id := Item(tp, requiredHW)];
    }

    /** One pass over the map, deleting while ranging. */
    method CheckAndComplete(tp: Tp, currentHW: int)
      modifies this
      ensures View() == Completed(old(View()), tp, currentHW)
    {
      hide Met;
      var todo: set<int> := items.Keys;
      ghost var met: set<int> := {};
      while todo != {}
        invariant todo <= old(items).Keys && todo !! met && nextID == old(nextID)
        invariant met <= old(items).Keys
        invariant forall id :: id in old(items) && id !in todo ==> (id in met <==> Met(old(items)[id], tp, currentHW))
        invariant items == old(items) - met && answered == old(answered) + met
        decreases |todo|
      {
        HasMember(todo);
        var id :| id in todo;
        if Met(items[id], tp, currentHW) {
          Drop(old(items), met, id);
          items := items - {id};
          met, answered := met + {id}, answered + {id};
        }
        todo := todo - {id};
      }
      AllMet(old(View()), met, tp, currentHW);
    }

    method Cancel(id: int)
      modifies this
      ensures View() == Cancelled(old(View()), id)
    {
      items := items - {id};
    }
  }
}
