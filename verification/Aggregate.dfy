/** The generated aggregate and builder as the objects they are, updated field by field. */
module Aggregates {
  import opened Machine
  import opened OrderModel

  /** The aggregate message behind a pointer: its methods overwrite fields of `value`. */
  class Aggregate {
    var value: Order

    constructor ()
      ensures value == ZERO
    {
      value := ZERO;
    }

    constructor Clone(a: Aggregate)
      ensures value == a.value
    {
      value := a.value;
    }

    method SetCreated(e: Event)
      modifies this
      ensures value == old(value).(createAt := e.at, createBy := e.actor)
    {
      value := value.(createAt := e.at);
      value := value.(createBy := e.actor);
    }

    method SetModified(e: Event)
      modifies this
      ensures value == Modified(old(value), e)
    {
      value := value.(modifyAt := e.at);
      value := value.(modifyBy := e.actor);
    }

    /** Overwrites every field but the id, so that nothing of the old state can show through. */
    method RestoreSnapshot(s: Order, version: int)
      modifies this
      ensures value == s.(id := old(value).id, version := version)
    {
      value := value.(
        state := s.state, customerId := s.customerId, customerName := s.customerName,
        createAt := s.createAt, createBy := s.createBy, modifyAt := s.modifyAt, modifyBy := s.modifyBy,
        totalCents := s.totalCents, itemCount := s.itemCount,
        shippingAddress := s.shippingAddress, placedAt := s.placedAt,
        items := s.items, tags := s.tags, billing := s.billing);
      value := value.(version := version);
    }

    /** Applies one event; fails on a type it has no case for, with id and version already stamped. */
    method On(e: Event) returns (ok: bool)
      modifies this
      ensures value == OrderModel.On(old(value), e)
      ensures ok <==> Handled(e)
      ensures !ok <==> e.body.Foreign?
    {
      value := value.(id := e.id, version := e.version);
      ok := true;
      match e.body {
        case Created(customerId, customerName) =>
          SetCreated(e);
          SetModified(e);
          value := value.(customerId := customerId, customerName := customerName);
          value := value.(state := Draft);
        case ItemAdded(item) =>
          SetModified(e);
          if item.Some? {
            value := value.(items := value.items[item.value.itemId := item.value]);
          }
        case ItemRemoved(itemId) =>
          SetModified(e);
          value := value.(items := value.items - {itemId});
        case TagAdded(tag) =>
          SetModified(e);
          if tag.Some? {
            value := value.(tags := value.tags[tag.value.key := tag.value]);
          }
        case TagRemoved(key) =>
          SetModified(e);
          value := value.(tags := value.tags - {key});
        case ShippingSet(address) =>
          SetModified(e);
          value := value.(shippingAddress := address);
        case BillingSet(billing) =>
          SetModified(e);
          value := value.(billing := billing);
        case BillingCleared(billing) =>
          SetModified(e);
          value := value.(billing := billing);
        case OrderPlaced(placedAt) =>
          SetModified(e);
          value := value.(placedAt := placedAt);
          value := value.(state := Placed);
        case OrderCancelled(_) =>
          SetModified(e);
          value := value.(state := Cancelled);
        case Snapshot(s) =>
          RestoreSnapshot(s, e.version);
        case Foreign(_) =>
          ok := false;
      }
    }

    /** Derives count and total from the items. */
    method AfterOn()
      modifies this
      ensures value == OrderModel.AfterOn(old(value))
    {
      value := value.(itemCount := Wrap32(|value.items|));
      var total := SumLines(value.items);
      value := value.(totalCents := total);
    }
  }

  /**
   The loop of `AfterOn`. Go iterates a map in no particular order: the loop takes the items
   in any order, wraps every product and every sum, and still gets the one total.
   */
  method SumLines(items: map<string, LineItem>) returns (total: int)
    ensures total == Wrap64(ExactTotal(items))
  {
    hide Wrap64, LineTotal;
    total := 0;
    var rest := items;
    WrapZero(ExactTotal(items));
    while rest.Keys != {}
      invariant Wrap64(total + ExactTotal(rest)) == Wrap64(ExactTotal(items)) && Wrap64(total) == total
      decreases |rest|
    {
      var k :| k in rest.Keys;
      ExactTotalRemove(rest, k);
      TotalStep(total, LineTotal(rest[k]), ExactTotal(rest - {k}));
      total := Wrap64(total + Wrap64(LineTotal(rest[k])));
      rest := rest - {k};
    }
    assert rest == map[];
  }

  lemma WrapZero(x: int)
    ensures Wrap64(0) == 0 && Wrap64(0 + x) == Wrap64(x)
  {
  }

  lemma TotalStep(total: int, line: int, rest: int)
    requires Wrap64(total) == total
    ensures Wrap64(Wrap64(total + Wrap64(line)) + rest) == Wrap64(total + (line + rest))
    ensures Wrap64(Wrap64(total + Wrap64(line))) == Wrap64(total + Wrap64(line))
  {
  }

  class Builder {
    const id: string
    var version: int
    var events: seq<Event>

    constructor (id: string, version: int)
      ensures this.id == id && this.version == version && events == []
    {
      this.id := id;
      this.version := version;
      events := [];
    }

    method NextVersion() returns (v: int)
      modifies this`version
      ensures v == version == old(version) + 1
    {
      version := version + 1;
      v := version;
    }

    /** The ten generated builder methods differ only in the body of the event. */
    method Append(actor: string, body: Body, at: int)
      modifies this
      ensures version == old(version) + 1
      ensures events == old(events) + [Event(id, version, at, actor, body)]
    {
      var v := NextVersion();
      events := events + [Event(id, v, at, actor, body)];
    }

    /** A snapshot of `a` right behind every version that is a multiple of the interval. */
    method TakeSnapshot(n: int, a: Aggregate, at: int)
      requires n > 0
      modifies this, a
      ensures old(version) % n == 0 ==>
                && version == old(version) + 1
                && events == old(events) + [Event(id, version, at, SNAPSHOT_ACTOR, Snapshot(AfterOn(old(a.value))))]
      ensures old(version) % n != 0 ==> version == old(version) && events == old(events)
    {
      if version % n == 0 {
        a.AfterOn();
        var copy := new Aggregate.Clone(a);
        Append(SNAPSHOT_ACTOR, Snapshot(copy.value), at);
      }
    }
  }

  /** Builds the events of a command on a copy; the aggregate it was given stays as it is. */
  method EmitEventsOf(n: int, c: Command, a: Aggregate, clock: Clock) returns (events: seq<Event>)
    requires n > 0
    ensures events == EmitEvents(n, c, a.value, clock)
  {
    var b := new Builder(c.id, a.value.version);
    var copy := new Aggregate.Clone(a);
    b.Append(c.actor, EventBody(c.request), clock.eventAt);
    var _ := copy.On(b.events[|b.events| - 1]);
    OnStampsVersion(a.value, b.events[0]);
    b.TakeSnapshot(n, copy, clock.snapshotAt);
    events := b.events;
  }
}
