/**
 The stores that refuse duplicate versions: DynamoDB by the condition on every put, Cosmos
 by the uniqueness of document ids. Both keep an aggregate's records in version order and
 write in transactions of at most 100 records.
 */
module ConditionalStores {
  import opened Machine
  import opened Listing
  import opened OrderModel
  import opened Paging

  const MAX_TRANSACT_ITEMS: int := 100

  /** The two services differ in how their answers are paged. */
  datatype Service = DynamoDB | Cosmos

  /**
   What becomes of one call: it gets through and its answer comes back; it never arrives; or
   it is carried out and still reported as an error, as after a timeout or when a retry of
   the same call meets the records of the first.
   */
  datatype Delivery = Delivered | Lost | Unacknowledged

  predicate Has(p: seq<Record>, v: int) {
    exists i :: 0 <= i < |p| && p[i].version == v
  }

  /** Puts a record where its version belongs. */
  function Insert(p: seq<Record>, r: Record): seq<Record> {
    if p == [] || p[|p| - 1].version < r.version then p + [r]
    else Insert(p[..|p| - 1], r) + [p[|p| - 1]]
  }

  function InsertAll(p: seq<Record>, batch: seq<Record>): seq<Record> {
    if batch == [] then p else Insert(InsertAll(p, batch[..|batch| - 1]), batch[|batch| - 1])
  }

  /** No version of the batch exists, and none occurs twice in it. */
  predicate Accepts(p: seq<Record>, batch: seq<Record>) {
    forall i :: 0 <= i < |batch| ==> !Has(p, batch[i].version) && !Has(batch[..i], batch[i].version)
  }

  lemma {:induction false} InsertKeeps(p: seq<Record>, r: Record)
    requires Versioned(p) && !Has(p, r.version)
    ensures Versioned(Insert(p, r))
    ensures forall x :: x in Insert(p, r) <==> x in p || x == r
  {
    if p != [] && r.version < p[|p| - 1].version {
      var front, last := p[..|p| - 1], p[|p| - 1];
      assert p == front + [last];
      InsertKeeps(front, r);
      var q := Insert(front, r);
      forall i | 0 <= i < |q| ensures q[i].version < last.version {
        assert q[i] in q;
      }
    }
  }

  lemma {:induction false} InsertAllKeeps(p: seq<Record>, batch: seq<Record>)
    requires Versioned(p) && Accepts(p, batch)
    ensures Versioned(InsertAll(p, batch))
    ensures forall x :: x in InsertAll(p, batch) <==> x in p || x in batch
  {
    if batch != [] {
      var front, last := batch[..|batch| - 1], batch[|batch| - 1];
      assert batch == front + [last];
      assert Accepts(p, front) by {
        forall i | 0 <= i < |front| ensures !Has(p, front[i].version) && !Has(front[..i], front[i].version) {
          assert front[..i] == batch[..i];
        }
      }
      InsertAllKeeps(p, front);
      var q := InsertAll(p, front);
      forall i | 0 <= i < |q| ensures q[i].version != last.version {
        assert q[i] in q;
      }
      InsertKeeps(q, last);
    }
  }

  /** Versions 1 to |p|, each once. */
  ghost predicate Gapless(p: seq<Record>) {
    forall i :: 0 <= i < |p| ==> p[i].version == i + 1
  }

  /** The records that a save for version `from` + 1 onwards consists of. */
  ghost predicate Follows(records: seq<Record>, from: int) {
    forall i :: 0 <= i < |records| ==> records[i].version == from + 1 + i
  }

  lemma {:induction false} InsertAllAppends(p: seq<Record>, batch: seq<Record>)
    requires Gapless(p) && Follows(batch, |p|)
    ensures InsertAll(p, batch) == p + batch && Accepts(p, batch)
  {
    hide Accepts;
    NextAreAccepted(p, batch);
    if batch != [] {
      var front, last := batch[..|batch| - 1], batch[|batch| - 1];
      InsertAllAppends(p, front);
      var q := p + front;
      assert q != [] ==> q[|q| - 1].version < last.version;
      assert Insert(q, last) == q + [last];
    }
  }

  lemma NextAreAccepted(p: seq<Record>, batch: seq<Record>)
    requires Gapless(p) && Follows(batch, |p|)
    ensures Accepts(p, batch)
  {
  }

  ghost predicate AllOrdered(partitions: map<string, seq<Record>>) {
    forall id :: id in partitions ==> Versioned(partitions[id])
  }

  class ConditionalStore {
    const service: Service
    var partitions: map<string, seq<Record>>
    var views: map<string, Order>
    var summaries: map<string, OrderSummary>

    function Partition(id: string): seq<Record>
      reads this
    {
      Get(partitions, id)
    }

    ghost predicate Valid()
      reads this
    {
      AllOrdered(partitions)
    }

    constructor (service: Service)
      ensures Valid() && this.service == service && partitions == map[] && views == map[] && summaries == map[]
    {
      this.service := service;
      partitions, views, summaries := map[], map[], map[];
    }

    /** All records of a transaction or none; an error does not say which. */
    method TransactWrite(id: string, batch: seq<Record>, delivery: Delivery) returns (ok: bool)
      requires Valid()
      modifies this`partitions
      ensures Valid()
      ensures ok <==> delivery.Delivered? && Accepts(old(Partition(id)), batch)
      ensures partitions == if !delivery.Lost? && Accepts(old(Partition(id)), batch)
                            then old(partitions)[id := InsertAll(old(Partition(id)), batch)]
                            else old(partitions)
    {
      var accepted := !delivery.Lost? && Accepts(Partition(id), batch);
      if accepted {
        InsertAllKeeps(Partition(id), batch);
        partitions := partitions[id := InsertAll(Partition(id), batch)];
      }
      ok := accepted && delivery.Delivered?;
    }

    /** The last n records of the log at the first query, however the service pages them. */
    method LoadTail(id: string, n: int, replies: seq<Reply<Record>>) returns (ok: bool, history: seq<Record>)
      ensures ok ==> history == if n <= 0 then [] else Tail(Partition(id), n)
      ensures !ok ==> exists i :: 0 <= i < |replies| && replies[i].Failure?
    {
      match service
      case DynamoDB => ok, history := QueryTail(Partition(id), n, replies);
      case Cosmos => ok, history := PagerTail(Partition(id), n, replies);
    }

    /** SaveAggregate, for the aggregate and for its projection: an unconditional put. */
    method SaveAggregate(id: string, o: Order, stored: bool)
      modifies this`views
      ensures views == if stored then old(views)[id := o] else old(views)
    {
      if stored {
        views := views[id := o];
      }
    }

    method SaveSummary(id: string, summary: OrderSummary, stored: bool)
      modifies this`summaries
      ensures summaries == if stored then old(summaries)[id := summary] else old(summaries)
    {
      if stored {
        summaries := summaries[id := summary];
      }
    }

    /**
     Writes batch after batch up to the first error. `failed` is where the failing batch
     starts: the records before it are stored, and its own exactly when it was carried out
     and only its answer got lost.
     */
    method Save(id: string, records: seq<Record>, fate: nat -> Delivery) returns (ok: bool, ghost failed: nat)
      requires Valid()
      modifies this`partitions
      ensures Valid()
      ensures forall other :: other != id ==> Partition(other) == old(Partition(other))
      ensures ok ==> failed == |records| && Partition(id) == InsertAll(old(Partition(id)), records)
      ensures !ok ==> failed < |records| && failed % 100 == 0
      ensures !ok ==> FailedAt(old(Partition(id)), records, fate, failed, Partition(id))
      ensures forall b: nat :: b * 100 < failed ==> fate(b).Delivered?
      ensures 1 <= |records| <= 100 ==> OneBatch(old(partitions), id, records, fate, ok, partitions)
    {
      hide Accepts, InsertAll, Versioned;
      var i, batchNo := 0, 0;
      ghost var before := Partition(id);
      InsertNothing(before, records);
      ok, failed := true, 0;
      while ok && i < |records|
        invariant 0 <= i <= |records| && batchNo >= 0 && Valid() && failed == i
        invariant i < |records| ==> i == MAX_TRANSACT_ITEMS * batchNo
        invariant i <= MAX_TRANSACT_ITEMS * batchNo < i + MAX_TRANSACT_ITEMS
        invariant forall b: nat :: b < batchNo ==> fate(b).Delivered?
        invariant ok ==> Partition(id) == InsertAll(before, records[..i])
        invariant !ok ==> i < |records| && FailedAt(before, records, fate, i, Partition(id))
        invariant forall other :: other != id ==> Partition(other) == old(Partition(other))
        invariant i == 0 ==> batchNo == 0 && (ok ==> partitions == old(partitions))
        invariant 1 <= |records| <= MAX_TRANSACT_ITEMS && (i > 0 || !ok) ==>
                    OneBatch(old(partitions), id, records, fate, ok, partitions)
        decreases |records| - i, ok
      {
        var batch := BatchAt(records, i);
        assert i == 0 && |records| <= MAX_TRANSACT_ITEMS ==> batch == records;
        ok := TransactWrite(id, batch, fate(batchNo));
        InsertAllConcat(before, records[..i], batch);
        assert records[..i] + batch == records[..i + |batch|];
        if ok {
          i, batchNo := i + |batch|, batchNo + 1;
          failed := i;
        } else {
          BatchNumber(i, batchNo);
        }
      }
      assert records[..|records|] == records;
    }
  }

  /** What a failed save leaves: all before the failing batch, and that one if it was carried out. */
  ghost predicate FailedAt(p: seq<Record>, records: seq<Record>, fate: nat -> Delivery, failed: nat,
                           after: seq<Record>)
    requires failed <= |records|
  {
    var before, batch := InsertAll(p, records[..failed]), BatchAt(records, failed);
    var delivery := fate(failed / MAX_TRANSACT_ITEMS);
    && (!delivery.Delivered? || !Accepts(before, batch))
    && after == if delivery.Unacknowledged? && Accepts(before, batch)
                then InsertAll(p, records[..failed + |batch|])
                else before
  }

  /** A save of one batch is one transaction: all or nothing. */
  ghost predicate OneBatch(before: map<string, seq<Record>>, id: string, records: seq<Record>, fate: nat -> Delivery,
                           ok: bool, after: map<string, seq<Record>>)
  {
    var accepted := Accepts(Get(before, id), records);
    && (ok <==> fate(0).Delivered? && accepted)
    && after == if !fate(0).Lost? && accepted then before[id := InsertAll(Get(before, id), records)] else before
  }

  function BatchAt(records: seq<Record>, i: nat): (batch: seq<Record>)
    requires i <= |records|
    ensures |batch| == Min(100, |records| - i)
  {
    records[i..Min(i + MAX_TRANSACT_ITEMS, |records|)]
  }

  lemma BatchNumber(i: int, b: int)
    requires i == MAX_TRANSACT_ITEMS * b
    ensures i % MAX_TRANSACT_ITEMS == 0 && i / MAX_TRANSACT_ITEMS == b
  {
  }

  /** Whatever a save of the next versions got done, the log is still without gaps. */
  lemma PartialSaveKeepsGapless(p: seq<Record>, records: seq<Record>, stored: nat)
    requires Gapless(p) && Follows(records, |p|) && stored <= |records|
    ensures InsertAll(p, records[..stored]) == p + records[..stored] && Gapless(p + records[..stored])
  {
    InsertAllAppends(p, records[..stored]);
  }

  /**
   A failed save of the next versions can only have failed on its way, and has left the log
   longer by whole batches: those before the failing one, and that one iff it was carried out.
   */
  lemma FailedSaveKeepsGapless(p: seq<Record>, records: seq<Record>, fate: nat -> Delivery, failed: nat,
                               after: seq<Record>)
    requires Gapless(p) && Follows(records, |p|) && failed < |records| && FailedAt(p, records, fate, failed, after)
    ensures var delivery := fate(failed / MAX_TRANSACT_ITEMS);
            var stored := if delivery.Unacknowledged? then failed + |BatchAt(records, failed)| else failed;
            !delivery.Delivered? && after == p + records[..stored] && Gapless(after)
  {
    hide InsertAll, Accepts;
    var batch := BatchAt(records, failed);
    PartialSaveKeepsGapless(p, records, failed);
    PartialSaveKeepsGapless(p, records, failed + |batch|);
    NextAreAccepted(p + records[..failed], batch);
  }

  lemma InsertNothing(p: seq<Record>, records: seq<Record>)
    ensures InsertAll(p, records[..0]) == p
  {
  }

  lemma {:induction false} InsertAllConcat(p: seq<Record>, a: seq<Record>, b: seq<Record>)
    ensures InsertAll(p, a + b) == InsertAll(InsertAll(p, a), b)
  {
    if b == [] {
      assert a + b == a;
    } else {
      assert (a + b)[..|a + b| - 1] == a + b[..|b| - 1];
      InsertAllConcat(p, a, b[..|b| - 1]);
    }
  }
}
