/**
 The Order aggregate: its events, its commands, what one event does to it, which
 commands its gates let through and what an accepted command emits.

 Protobuf getters on an absent message return zero values, so a snapshot event whose
 payload is missing behaves as one that carries `ZERO`.
 */
module OrderModel {
  import opened Machine

  datatype State = Unspecified | Draft | Placed | Paid | Shipped | Delivered | Cancelled

  datatype LineItem = LineItem(itemId: string, description: string, priceCents: int, quantity: int)

  datatype Tag = Tag(key: string, value: string)

  datatype Billing = Billing(method_: string, reference: string)

  datatype Order = Order(
    id: string, version: int, state: State,
    customerId: string, customerName: string,
    createAt: int, createBy: string, modifyAt: int, modifyBy: string,
    totalCents: int, itemCount: int,
    shippingAddress: string, placedAt: int,
    items: map<string, LineItem>, tags: map<string, Tag>, billing: Option<Billing>)

  /** A freshly allocated aggregate. */
  const ZERO: Order := Order("", 0, Unspecified, "", "", 0, "", 0, "", 0, 0, "", 0, map[], map[], None)

  datatype Body =
    | Created(customerId: string, customerName: string)
    | ItemAdded(item: Option<LineItem>)
    | ItemRemoved(itemId: string)
    | TagAdded(tag: Option<Tag>)
    | TagRemoved(key: string)
    | ShippingSet(shippingAddress: string)
    | BillingSet(billing: Option<Billing>)
    | BillingCleared(clearedTo: Option<Billing>)
    | OrderPlaced(placedAt: int)
    | OrderCancelled(reason: string)
    | Snapshot(snapshot: Order)
    | Foreign(typeName: string)  // a message type the aggregate has no case for

  datatype Event = Event(id: string, version: int, at: int, actor: string, body: Body)

  datatype Request =
    | Create(customerId: string, customerName: string)
    | AddItem(item: Option<LineItem>)
    | RemoveItem(itemId: string)
    | AddTag(tag: Option<Tag>)
    | RemoveTag(key: string)
    | SetShipping(shippingAddress: string)
    | SetBilling(billing: Option<Billing>)
    | ClearBilling
    | Place(placedAt: int)
    | Cancel(reason: string)

  datatype Command = Command(id: string, actor: string, request: Request)

  datatype Error = AlreadyCreated | NotCreatedYet | ValidationFailed | StateNotAllowed | ItemAlreadyPresent

  datatype Verdict = Accept | Skip | Reject(error: Error)

  // ---------------------------------------------------------------- applying events

  predicate Handled(e: Event) {
    !e.body.Foreign?
  }

  function Modified(o: Order, e: Event): Order {
    o.(modifyAt := e.at, modifyBy := e.actor)
  }

  /** What `On` leaves behind. A snapshot replaces everything but the id and the version. */
  function On(o: Order, e: Event): Order {
    var b := o.(id := e.id, version := e.version);
    match e.body
    case Created(customerId, customerName) =>
      Modified(b, e).(createAt := e.at, createBy := e.actor,
                      customerId := customerId, customerName := customerName, state := Draft)
    case ItemAdded(item) =>
      if item.Some? then Modified(b, e).(items := b.items[item.value.itemId := item.value]) else Modified(b, e)
    case ItemRemoved(itemId) => Modified(b, e).(items := b.items - {itemId})
    case TagAdded(tag) =>
      if tag.Some? then Modified(b, e).(tags := b.tags[tag.value.key := tag.value]) else Modified(b, e)
    case TagRemoved(key) => Modified(b, e).(tags := b.tags - {key})
    case ShippingSet(address) => Modified(b, e).(shippingAddress := address)
    case BillingSet(billing) => Modified(b, e).(billing := billing)
    case BillingCleared(billing) => Modified(b, e).(billing := billing)
    case OrderPlaced(placedAt) => Modified(b, e).(placedAt := placedAt, state := Placed)
    case OrderCancelled(_) => Modified(b, e).(state := Cancelled)
    case Snapshot(s) => s.(id := e.id, version := e.version)
    case Foreign(_) => b
  }

  lemma OnStampsVersion(o: Order, e: Event)
    ensures On(o, e).version == e.version && On(o, e).id == e.id
  {
  }

  /** The state after a list of events. */
  function Replay(o: Order, log: seq<Event>): Order {
    if log == [] then o else On(Replay(o, log[..|log| - 1]), log[|log| - 1])
  }

  lemma ReplayNothing(o: Order)
    ensures Replay(o, []) == o
  {
  }

  lemma ReplaySnoc(o: Order, log: seq<Event>, e: Event)
    ensures Replay(o, log + [e]) == On(Replay(o, log), e)
  {
  }

  lemma {:induction false} ReplayConcat(o: Order, a: seq<Event>, b: seq<Event>)
    ensures Replay(o, a + b) == Replay(Replay(o, a), b)
  {
    if b == [] {
      assert a + b == a;
    } else {
      var m := |b| - 1;
      assert (a + b)[..|a + b| - 1] == a + b[..m];
      ReplayConcat(o, a, b[..m]);
    }
  }

  // ---------------------------------------------------------------- derived fields

  function LineTotal(item: LineItem): int {
    item.priceCents * item.quantity
  }

  /** The mathematical total, free of any width and of any order. */
  ghost function ExactTotal(items: map<string, LineItem>): int {
    if items == map[] then 0 else
      var k :| k in items;
      LineTotal(items[k]) + ExactTotal(items - {k})
  }

  /** Whichever item is taken out first, the rest adds up to the same total. */
  lemma {:induction false} ExactTotalRemove(items: map<string, LineItem>, k: string)
    requires k in items
    ensures ExactTotal(items) == LineTotal(items[k]) + ExactTotal(items - {k})
    decreases |items|
  {
    var j :| j in items && ExactTotal(items) == LineTotal(items[j]) + ExactTotal(items - {j});
    if j != k {
      ExactTotalRemove(items - {j}, k);
      ExactTotalRemove(items - {k}, j);
      assert items - {j} - {k} == items - {k} - {j};
    }
  }

  /** `AfterOn`: the count as an int32 and the total as an int64. */
  ghost function AfterOn(o: Order): Order {
    o.(itemCount := Wrap32(|o.items|), totalCents := Wrap64(ExactTotal(o.items)))
  }

  /** The reported total is the true one exactly when the true one fits an int64. */
  lemma TotalExact(o: Order)
    ensures AfterOn(o).totalCents == ExactTotal(o.items) <==> -TWO63 <= ExactTotal(o.items) < TWO63
  {
  }

  /** Events read no derived field: a wrong count and total never reach anything else. */
  lemma OnIgnoresDerived(o: Order, count: int, total: int, e: Event)
    ensures var r := On(o.(itemCount := count, totalCents := total), e);
            r == if e.body.Snapshot? then On(o, e) else On(o, e).(itemCount := count, totalCents := total)
  {
    match e.body {
      case Created(_, _) =>
      case ItemAdded(_) =>
      case ItemRemoved(_) =>
      case TagAdded(_) =>
      case TagRemoved(_) =>
      case ShippingSet(_) =>
      case BillingSet(_) =>
      case BillingCleared(_) =>
      case OrderPlaced(_) =>
      case OrderCancelled(_) =>
      case Snapshot(_) =>
      case Foreign(_) =>
    }
  }

  lemma AfterOnOverwrites(o: Order, count: int, total: int)
    ensures AfterOn(o.(itemCount := count, totalCents := total)) == AfterOn(o)
  {
  }

  /** Replaying on top of derived fields gives what deriving them once at the end gives. */
  lemma AfterOnAbsorbed(o: Order, e: Event)
    ensures AfterOn(On(AfterOn(o), e)) == AfterOn(On(o, e))
  {
    var d := AfterOn(o);
    assert d == o.(itemCount := d.itemCount, totalCents := d.totalCents);
    OnIgnoresDerived(o, d.itemCount, d.totalCents, e);
    AfterOnOverwrites(On(o, e), d.itemCount, d.totalCents);
  }

  lemma {:induction false} AfterOnAbsorbedByReplay(o: Order, log: seq<Event>)
    ensures AfterOn(Replay(AfterOn(o), log)) == AfterOn(Replay(o, log))
  {
    if log == [] {
    } else {
      var m := |log| - 1;
      AfterOnAbsorbedByReplay(o, log[..m]);
      AfterOnAbsorbed(Replay(AfterOn(o), log[..m]), log[m]);
      AfterOnAbsorbed(Replay(o, log[..m]), log[m]);
    }
  }

  // ---------------------------------------------------------------- gates

  function ValidateVersion(r: Request, version: int): Verdict {
    if r.Create? then (if version != 0 then Reject(AlreadyCreated) else Accept)
    else if version == 0 then Reject(NotCreatedYet) else Accept
  }

  /** The one field constraint the schema declares: SetBilling must carry a billing. */
  function ProtoValidate(r: Request): Verdict {
    if r.SetBilling? && r.billing.None? then Reject(ValidationFailed) else Accept
  }

  function GuardState(r: Request, s: State): Verdict {
    if r.Create? || r.SetBilling? || r.ClearBilling? then Accept
    else if r.Cancel? then (if s in {Draft, Placed, Paid} then Accept else Reject(StateNotAllowed))
    else if s == Draft then Accept else Reject(StateNotAllowed)
  }

  /** The item id the AddItem evaluator looks up: the empty string when there is no item. */
  function ItemKey(item: Option<LineItem>): string {
    if item.Some? then item.value.itemId else ""
  }

  function Evaluate(r: Request, items: map<string, LineItem>): Verdict {
    if r.RemoveItem? then (if r.itemId in items then Accept else Skip)
    else if r.AddItem? then (if ItemKey(r.item) in items then Reject(ItemAlreadyPresent) else Accept)
    else Accept
  }

  /** The gates of `Apply` in their order; the first that does not accept decides. */
  function Admit(r: Request, o: Order): Verdict {
    var v := ValidateVersion(r, o.version);
    if !v.Accept? then v else
    var p := ProtoValidate(r);
    if !p.Accept? then p else
    var g := GuardState(r, o.state);
    if !g.Accept? then g else
    Evaluate(r, o.items)
  }

  // ---------------------------------------------------------------- emitting events

  const SNAPSHOT_ACTOR: string := "snapshot@system"

  function EventBody(r: Request): Body {
    match r
    case Create(customerId, customerName) => Created(customerId, customerName)
    case AddItem(item) => ItemAdded(item)
    case RemoveItem(itemId) => ItemRemoved(itemId)
    case AddTag(tag) => TagAdded(tag)
    case RemoveTag(key) => TagRemoved(key)
    case SetShipping(address) => ShippingSet(address)
    case SetBilling(billing) => BillingSet(billing)
    case ClearBilling => BillingCleared(None)
    case Place(placedAt) => OrderPlaced(placedAt)
    case Cancel(reason) => OrderCancelled(reason)
  }

  /** The clock readings one command takes: for its event and for a snapshot behind it. */
  datatype Clock = Clock(eventAt: int, snapshotAt: int)

  function DomainEvent(c: Command, version: int, clock: Clock): Event {
    Event(c.id, version + 1, clock.eventAt, c.actor, EventBody(c.request))
  }

  ghost function SnapshotEvent(id: string, o: Order, at: int): Event {
    Event(id, o.version + 1, at, SNAPSHOT_ACTOR, Snapshot(AfterOn(o)))
  }

  /** One event and, when its version is a multiple of the interval, a snapshot right behind it. */
  ghost function EmitEvents(n: int, c: Command, o: Order, clock: Clock): (events: seq<Event>)
    requires n > 0
    ensures 1 <= |events| <= 2
    ensures forall i :: 0 <= i < |events| ==> events[i].version == o.version + 1 + i && events[i].id == c.id
  {
    var e := DomainEvent(c, o.version, clock);
    if e.version % n == 0 then [e, SnapshotEvent(c.id, On(o, e), clock.snapshotAt)] else [e]
  }

  // ---------------------------------------------------------------- projection

  datatype OrderSummary = OrderSummary(
    id: string, state: State, customerId: string, customerName: string,
    totalCents: int, itemCount: int, placedAt: int, createAt: int)

  function Summarize(o: Order): OrderSummary {
    OrderSummary(o.id, o.state, o.customerId, o.customerName, o.totalCents, o.itemCount, o.placedAt, o.createAt)
  }
}
