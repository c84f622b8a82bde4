/**
 What a command does to an order, from what it asks for to what the next load returns,
 and what it leaves in the log.
 */
module OrderCommands {
  import opened Machine
  import opened OrderModel
  import opened Listing
  import opened Replays
  import opened OrderSafety
  import opened OrderHistory

  /** The order `o` with what the request asks for, before derived fields, version and stamp. */
  ghost predicate Granted(c: Command, at: int, o: Order, b: Order) {
    match c.request
    case Create(customerId, customerName) =>
      b == o.(id := c.id, state := Draft, customerId := customerId, customerName := customerName,
              createAt := at, createBy := c.actor)
    case AddItem(item) =>
      b == if item.None? then o else o.(items := o.items[item.value.itemId := item.value])
    case RemoveItem(itemId) =>
      && b == o.(items := b.items)
      && forall k :: (k in b.items <==> k in o.items && k != itemId) && (k in b.items ==> b.items[k] == o.items[k])
    case AddTag(tag) =>
      b == if tag.None? then o else o.(tags := o.tags[tag.value.key := tag.value])
    case RemoveTag(key) =>
      && b == o.(tags := b.tags)
      && forall k :: (k in b.tags <==> k in o.tags && k != key) && (k in b.tags ==> b.tags[k] == o.tags[k])
    case SetShipping(address) => b == o.(shippingAddress := address)
    case SetBilling(billing) => b == o.(billing := billing)
    case ClearBilling => b == o.(billing := None)
    case Place(placedAt) => b == o.(placedAt := placedAt, state := Placed)
    case Cancel(_) => b == o.(state := Cancelled)
  }

  /** The kind of the record a request leaves, and what of it no order shows. */
  ghost predicate Recorded(r: Request, body: Body) {
    match r
    case Create(_, _) => body.Created?
    case AddItem(item) => body.ItemAdded? && body.item == item
    case RemoveItem(_) => body.ItemRemoved?
    case AddTag(tag) => body.TagAdded? && body.tag == tag
    case RemoveTag(_) => body.TagRemoved?
    case SetShipping(_) => body.ShippingSet?
    case SetBilling(_) => body.BillingSet?
    case ClearBilling => body.BillingCleared?
    case Place(_) => body.OrderPlaced?
    case Cancel(reason) => body.OrderCancelled? && body.reason == reason
  }

  /** The batch of a command on a log: its event and, where a snapshot is due, the snapshot of the result. */
  ghost predicate BatchOf(n: int, log: seq<Event>, c: Command, clock: Clock, batch: seq<Event>, result: Order)
    requires n > 0
  {
    && |batch| == (if (|log| + 1) % n == 0 then 2 else 1)
    && batch[0].id == c.id && batch[0].version == |log| + 1
    && batch[0].at == clock.eventAt && batch[0].actor == c.actor
    && Recorded(c.request, batch[0].body)
    && (|batch| == 2 ==>
         && batch[1].id == c.id && batch[1].version == |log| + 2
         && batch[1].at == clock.snapshotAt && batch[1].actor == "snapshot@system"
         && batch[1].body == Snapshot(result.(version := |log| + 1)))
  }

  /** `result` is what was granted, stamped and numbered, with its derived fields. */
  ghost predicate ResultOf(c: Command, clock: Clock, o: Order, version: int, result: Order) {
    exists granted :: Granted(c, clock.eventAt, o, granted) && Stamped(c, clock, granted, version, result)
  }

  ghost predicate Stamped(c: Command, clock: Clock, granted: Order, version: int, result: Order) {
    && result == granted.(version := version, modifyAt := clock.eventAt, modifyBy := c.actor,
                          itemCount := result.itemCount, totalCents := result.totalCents)
    && (granted.items == map[] ==> result.itemCount == result.totalCents == 0)
  }

  lemma EventGrants(c: Command, clock: Clock, o: Order)
    requires c.request.Create? || o.id == c.id
    ensures var e := DomainEvent(c, o.version, clock);
            var b := On(o, e);
            && b.version == o.version + 1
            && Granted(c, clock.eventAt, o,
                       b.(version := o.version, modifyAt := o.modifyAt, modifyBy := o.modifyBy))
            && b.modifyAt == clock.eventAt && b.modifyBy == c.actor
            && Recorded(c.request, e.body)
  {
    match c.request {
      case Create(_, _) =>
      case AddItem(_) =>
      case RemoveItem(_) =>
      case AddTag(_) =>
      case RemoveTag(_) =>
      case SetShipping(_) =>
      case SetBilling(_) =>
      case ClearBilling =>
      case Place(_) =>
      case Cancel(_) =>
    }
  }

  /** Deriving touches nothing but count and total. */
  lemma DerivesOnly(o: Order)
    ensures AfterOn(o) == o.(itemCount := AfterOn(o).itemCount, totalCents := AfterOn(o).totalCents)
    ensures o.items == map[] ==> AfterOn(o).itemCount == AfterOn(o).totalCents == 0
  {
  }

  lemma EventResults(c: Command, clock: Clock, o: Order, version: int)
    requires c.request.Create? || o.id == c.id
    ensures ResultOf(c, clock, o, version, AfterOn(On(o, DomainEvent(c, o.version, clock))).(version := version))
  {
    hide On, AfterOn, Granted;
    var b := On(o, DomainEvent(c, o.version, clock));
    EventGrants(c, clock, o);
    DerivesOnly(b);
    var granted := b.(version := o.version, modifyAt := o.modifyAt, modifyBy := o.modifyBy);
    assert Stamped(c, clock, granted, version, AfterOn(b).(version := version));
  }

  /**
   Every command that passes on a log does to the order what it asks for and nothing else, as the
   next load shows it, whether or not a snapshot was due; and it leaves the records it should.
   */
  lemma CommandTakesEffect(n: int, id: string, log: seq<Event>, c: Command, clock: Clock)
    requires n >= 2 && LogOk(n, id, log) && (log == [] || |log| % n != 0)
    requires c.id == id && Admit(c.request, Load(n, log)).Accept?
    ensures var batch := EmitEvents(n, c, Load(n, log), clock);
            var result := Load(n, log + batch);
            && ResultOf(c, clock, Load(n, log), |log| + |batch|, result)
            && BatchOf(n, log, c, clock, batch, result)
  {
    hide LogOk, Load, Admit, On, AfterOn, ResultOf, Recorded, Granted;
    var o := Load(n, log);
    var e := DomainEvent(c, o.version, clock);
    LoadIsFullReplay(n, id, log);
    IdKept(n, id, log, c.request);
    EventGrants(c, clock, o);
    EmitExtends(n, id, log, c, clock);
    var batch := EmitEvents(n, c, o, clock);
    LoadContinues(n, id, log, batch);
    EventResults(c, clock, o, |log| + |batch|);
    ReplaySnoc(o, [], e);
    assert [] + [e] == [e];
    VersionOfAfterOn(On(o, e));
    if |batch| == 2 {
      var s := batch[1];
      assert batch == [e] + [s];
      ReplaySnoc(o, [e], s);
      OnStampsVersion(o, e);
      SnapshotRestores(On(o, e), s);
    } else {
      assert batch == [e];
    }
  }

  lemma VersionOfAfterOn(o: Order)
    ensures AfterOn(o).version == o.version
  {
  }

  lemma IdKept(n: int, id: string, log: seq<Event>, r: Request)
    requires n >= 2 && LogOk(n, id, log) && Admit(r, Load(n, log)).Accept?
    ensures r.Create? || Load(n, log).id == id
  {
    hide LogOk, Load, GuardState, Evaluate, ProtoValidate;
    LoadedOrderOk(n, id, log, |log|);
    assert log[..|log|] == log;
  }
}
