/**
 What every log of an Order keeps, read through `Load`: through snapshots, through tails,
 and at every prefix a reader may see.
 */
module OrderSafety {
  import opened Machine
  import opened OrderModel
  import opened Replays

  /** How the loaded aggregate changes when the record `e` becomes visible. */
  ghost predicate Evolves(id: string, a: Order, e: Event, b: Order) {
    && e.version == a.version + 1 == b.version
    && if e.body.Snapshot? then b == a.(version := e.version) && a.version > 0
       else Justified(id, a, e) && b == AfterOn(On(a, e))
  }

  /** One more record in view is one evolution step of what `Load` returns. */
  lemma LoadEvolves(n: int, id: string, log: seq<Event>, k: nat)
    requires n >= 2 && LogOk(n, id, log) && k < |log|
    ensures Evolves(id, Load(n, log[..k]), log[k], Load(n, log[..k + 1]))
  {
    var before, after, e := log[..k], log[..k + 1], log[k];
    LogOkPrefix(n, id, log, k);
    LogOkPrefix(n, id, log, k + 1);
    LoadIsFullReplay(n, id, before);
    LoadIsFullReplay(n, id, after);
    assert after[..k] == before;
    assert RecordOk(n, id, log, k);
    SnapshotIffMultiple(n, id, log, k);
    AfterOnAbsorbed(Replay(ZERO, before), e);
    if e.body.Snapshot? {
      ReplayId(n, id, before);
      SnapshotRestores(Replay(ZERO, before), e);
    }
  }

  // ---------------------------------------------------------------- the life of an order

  ghost predicate Reaches(s: State, t: State) {
    || s == t
    || (s == Unspecified && t in {Draft, Placed, Cancelled})
    || (s == Draft && t in {Placed, Cancelled})
    || (s == Placed && t == Cancelled)
  }

  ghost predicate Frozen(s: State) {
    s != Unspecified && s != Draft
  }

  /** Everything but billing, the modification stamp, the state and the version. */
  ghost predicate SameContents(a: Order, b: Order) {
    && a.id == b.id && a.customerId == b.customerId && a.customerName == b.customerName
    && a.createAt == b.createAt && a.createBy == b.createBy
    && a.totalCents == b.totalCents && a.itemCount == b.itemCount
    && a.shippingAddress == b.shippingAddress && a.placedAt == b.placedAt
    && a.items == b.items && a.tags == b.tags
  }

  /** What holds of a loaded order at every prefix. */
  ghost predicate OrderOk(id: string, o: Order) {
    && LifeOk(id, o)
    && KeysOk(o)
    && AfterOn(o) == o
  }

  ghost predicate LifeOk(id: string, o: Order) {
    && o.version >= 0
    && (o.state == Unspecified <==> o.version == 0)
    && o.state in {Unspecified, Draft, Placed, Cancelled}
    && (o.version > 0 ==> o.id == id)
  }

  ghost predicate KeysOk(o: Order) {
    && (forall k :: k in o.items ==> o.items[k].itemId == k)
    && (forall k :: k in o.tags ==> o.tags[k].key == k)
  }

  lemma EventMovesState(id: string, a: Order, e: Event)
    requires Justified(id, a, e) && LifeOk(id, a)
    ensures LifeOk(id, On(a, e)) && Reaches(a.state, On(a, e).state)
  {
    hide Evaluate, ProtoValidate;
    var c: Command, clock: Clock :|
      c.id == id && Admit(c.request, a).Accept? && e == DomainEvent(c, a.version, clock);
  }

  lemma EventKeepsKeys(a: Order, e: Event)
    requires KeysOk(a) && !e.body.Snapshot?
    ensures KeysOk(On(a, e))
  {
  }

  lemma AfterOnIdempotent(o: Order)
    ensures AfterOn(AfterOn(o)) == AfterOn(o)
  {
  }

  lemma EvolvesKeepsOrderOk(id: string, a: Order, e: Event, b: Order)
    requires Evolves(id, a, e, b) && OrderOk(id, a)
    ensures OrderOk(id, b) && Reaches(a.state, b.state)
  {
    if e.body.Snapshot? {
      AfterOnKeepsVersion(a, e.version);
    } else {
      EventMovesState(id, a, e);
      EventKeepsKeys(a, e);
      AfterOnIdempotent(On(a, e));
    }
  }

  lemma ZeroOk(id: string)
    ensures OrderOk(id, ZERO)
  {
  }

  lemma {:induction false} LoadedOrderOk(n: int, id: string, log: seq<Event>, k: nat)
    requires n >= 2 && LogOk(n, id, log) && k <= |log|
    ensures OrderOk(id, Load(n, log[..k])) && Load(n, log[..k]).version == k
  {
    hide RecordOk, LogOk, OrderOk, Evolves, Replay, AfterOn;
    if k == 0 {
      assert log[..0] == [];
      ZeroOk(id);
    } else {
      var a, b := Load(n, log[..k - 1]), Load(n, log[..k]);
      LoadedOrderOk(n, id, log, k - 1);
      LoadEvolves(n, id, log, k - 1);
      EvolvesKeepsOrderOk(id, a, log[k - 1], b);
    }
  }

  /** Out of DRAFT only billing and the state itself are still open. */
  lemma FrozenEvents(id: string, a: Order, e: Event)
    requires Justified(id, a, e) && LifeOk(id, a) && Frozen(a.state)
    ensures e.body.BillingSet? || e.body.BillingCleared? || e.body.OrderCancelled?
    ensures e.id == a.id
  {
  }

  lemma EvolvesKeepsContents(id: string, a: Order, e: Event, b: Order)
    requires Evolves(id, a, e, b) && OrderOk(id, a) && Frozen(a.state)
    ensures SameContents(a, b)
  {
    if !e.body.Snapshot? {
      FrozenEvents(id, a, e);
      assert On(a, e).items == a.items;
    }
  }

  /**
   Frozen after draft: whatever happens later, the state only moves forward, and from the
   moment the order has left DRAFT its contents and its totals never change.
   */
  lemma {:induction false} FrozenAfterDraft(n: int, id: string, log: seq<Event>, i: nat, j: nat)
    requires n >= 2 && LogOk(n, id, log) && i <= j <= |log|
    ensures var a, b := Load(n, log[..i]), Load(n, log[..j]);
            Reaches(a.state, b.state) && (Frozen(a.state) ==> SameContents(a, b))
  {
    hide LogOk, Load, Evolves, OrderOk;
    if i < j {
      FrozenAfterDraft(n, id, log, i, j - 1);
      LoadedOrderOk(n, id, log, j - 1);
      LoadEvolves(n, id, log, j - 1);
      var m, b := Load(n, log[..j - 1]), Load(n, log[..j]);
      EvolvesKeepsOrderOk(id, m, log[j - 1], b);
      if Frozen(m.state) {
        EvolvesKeepsContents(id, m, log[j - 1], b);
      }
    }
  }

  // ---------------------------------------------------------------- creation

  ghost predicate BornOf(o: Order, e: Event) {
    && e.body.Created?
    && o.createAt == e.at && o.createBy == e.actor
    && o.customerId == e.body.customerId && o.customerName == e.body.customerName
  }

  lemma CreatedOnlyFirst(n: int, id: string, log: seq<Event>, k: nat)
    requires n >= 2 && LogOk(n, id, log) && k < |log|
    ensures log[k].body.Created? <==> k == 0
  {
    hide Load, LogOk, AfterOn, Evaluate, ProtoValidate;
    LoadedOrderOk(n, id, log, k);
    LoadEvolves(n, id, log, k);
  }

  lemma EvolvesKeepsBirth(id: string, a: Order, e: Event, b: Order, born: Event)
    requires Evolves(id, a, e, b) && BornOf(a, born) && !e.body.Created?
    ensures BornOf(b, born)
  {
  }

  /**
   Single creation: record 1 is the only Created record, and whoever loads the order at
   any later point, from a snapshot tail or not, gets its creator, time and customer.
   */
  lemma {:induction false} SingleCreation(n: int, id: string, log: seq<Event>, k: nat)
    requires n >= 2 && LogOk(n, id, log) && 1 <= k <= |log|
    ensures forall i :: 0 <= i < |log| ==> (log[i].body.Created? <==> i == 0)
    ensures BornOf(Load(n, log[..k]), log[0])
  {
    forall i | 0 <= i < |log| ensures log[i].body.Created? <==> i == 0 {
      CreatedOnlyFirst(n, id, log, i);
    }
    LoadEvolves(n, id, log, k - 1);
    if k == 1 {
    } else {
      SingleCreation(n, id, log, k - 1);
      EvolvesKeepsBirth(id, Load(n, log[..k - 1]), log[k - 1], Load(n, log[..k]), log[0]);
    }
  }

  // ---------------------------------------------------------------- conservation

  function ItemsAdded(log: seq<Event>): nat {
    if log == [] then 0 else
      var b := log[|log| - 1].body;
      ItemsAdded(log[..|log| - 1]) + (if b.ItemAdded? && b.item.Some? then 1 else 0)
  }

  function ItemsRemoved(log: seq<Event>): nat {
    if log == [] then 0 else
      ItemsRemoved(log[..|log| - 1]) + (if log[|log| - 1].body.ItemRemoved? then 1 else 0)
  }

  lemma AddedIsNew(id: string, a: Order, e: Event)
    requires Justified(id, a, e) && e.body.ItemAdded? && e.body.item.Some?
    ensures e.body.item.value.itemId !in a.items
  {
  }

  lemma RemovedIsPresent(id: string, a: Order, e: Event)
    requires Justified(id, a, e) && e.body.ItemRemoved?
    ensures e.body.itemId in a.items
  {
  }

  function ItemDelta(b: Body): int {
    if b.ItemAdded? && b.item.Some? then 1 else if b.ItemRemoved? then -1 else 0
  }

  lemma EvolvesCounts(id: string, a: Order, e: Event, b: Order)
    requires Evolves(id, a, e, b)
    ensures |b.items| == |a.items| + ItemDelta(e.body)
  {
    hide Justified;
    if e.body.ItemRemoved? {
      RemovedIsPresent(id, a, e);
      assert a.items == b.items[e.body.itemId := a.items[e.body.itemId]];
    } else if e.body.ItemAdded? && e.body.item.Some? {
      AddedIsNew(id, a, e);
    } else {
      assert b.items == a.items;
    }
  }

  /**
   Conservation: at every prefix, the items in the order are the ItemAdded records that
   carried an item, less the ItemRemoved records, and each item is filed under its own id.
   */
  lemma {:induction false} ItemsConserved(n: int, id: string, log: seq<Event>, k: nat)
    requires n >= 2 && LogOk(n, id, log) && k <= |log|
    ensures var o := Load(n, log[..k]);
            && |o.items| == ItemsAdded(log[..k]) - ItemsRemoved(log[..k])
            && (forall key :: key in o.items ==> o.items[key].itemId == key)
  {
    hide RecordOk, LogOk, Evolves, Replay, AfterOn, LifeOk, Load, ItemsAdded, ItemsRemoved, ItemDelta;
    LoadedOrderOk(n, id, log, k);
    if k == 0 {
      assert log[..0] == [];
      NothingCounted(n);
    } else {
      ItemsConserved(n, id, log, k - 1);
      LoadEvolves(n, id, log, k - 1);
      EvolvesCounts(id, Load(n, log[..k - 1]), log[k - 1], Load(n, log[..k]));
      CountsStep(log[..k]);
      assert log[..k][..k - 1] == log[..k - 1];
    }
  }

  lemma NothingCounted(n: int)
    requires n >= 0
    ensures |Load(n, []).items| == ItemsAdded([]) - ItemsRemoved([]) == 0
  {
  }

  lemma CountsStep(log: seq<Event>)
    requires log != []
    ensures ItemsAdded(log) - ItemsRemoved(log)
         == ItemsAdded(log[..|log| - 1]) - ItemsRemoved(log[..|log| - 1]) + ItemDelta(log[|log| - 1].body)
  {
  }

  // ---------------------------------------------------------------- totals that do not fit

  /** Two commands the gates let through, after which the total reported is not the total. */
  lemma TotalCanOverflow(id: string, clock: Clock)
    ensures var item := LineItem("item", "", TWO63 / 2, 2);
            var commits := [Commit(Command(id, "", Create("", "")), clock),
                            Commit(Command(id, "", AddItem(Some(item))), clock)];
            var o := Load(SNAPSHOT_EVERY, SerialLog(SNAPSHOT_EVERY, commits));
            && Admitted(SNAPSHOT_EVERY, id, commits)
            && ExactTotal(o.items) == TWO63
            && o.totalCents == -TWO63
  {
    hide SerialLog, Admitted, On, Replay, EmitEvents, Admit, Load, AfterOn, ExactTotal;
    var n, item := SNAPSHOT_EVERY, LineItem("item", "", TWO63 / 2, 2);
    var c0 := Commit(Command(id, "", Create("", "")), clock);
    var c1 := Commit(Command(id, "", AddItem(Some(item))), clock);
    assert [] + [c0] == [c0] && [c0] + [c1] == [c0, c1];
    SerialSnoc(n, id, [], c0);
    SerialSnoc(n, id, [c0], c1);
    NoCommands(n, id);
    CreateThenAdd(c0, c1, item);
  }

  lemma NoCommands(n: int, id: string)
    requires n > 0
    ensures Admitted(n, id, []) && SerialLog(n, []) == [] && Load(n, []) == ZERO
  {
  }

  lemma CreateThenAdd(c0: Commit, c1: Commit, item: LineItem)
    requires c0.command.request.Create? && c1.command.request == AddItem(Some(item))
    ensures var n := SNAPSHOT_EVERY;
            var first := EmitEvents(n, c0.command, ZERO, c0.clock);
            var created := Load(n, [] + first);
            var second := EmitEvents(n, c1.command, created, c1.clock);
            && Admit(c0.command.request, ZERO).Accept?
            && Admit(c1.command.request, created).Accept?
            && Load(n, [] + first + second).items == map[item.itemId := item]
            && Load(n, [] + first + second).totalCents == Wrap64(LineTotal(item))
            && ExactTotal(map[item.itemId := item]) == LineTotal(item)
  {
    hide On, Replay, EmitEvents, Load, Admit, AfterOn, ExactTotal;
    var n := SNAPSHOT_EVERY;
    var e, f := DomainEvent(c0.command, 0, c0.clock), DomainEvent(c1.command, 1, c1.clock);
    EmitsOne(c0.command, ZERO, c0.clock);
    assert [] + [e] == [e] && [] + [e] + [f] == [e] + [f];
    var created := Load(n, [e]);
    CreatedLoads(n, c0);
    EmitsOne(c1.command, created, c1.clock);
    AddedLoads(e, f, item);
    OneItemTotal(item);
    AddPasses(c1.command.request, created);
  }

  lemma EmitsOne(c: Command, o: Order, clock: Clock)
    requires 0 <= o.version < SNAPSHOT_EVERY - 1
    ensures EmitEvents(SNAPSHOT_EVERY, c, o, clock) == [DomainEvent(c, o.version, clock)]
  {
  }

  lemma CreatedLoads(n: int, c: Commit)
    requires n >= 1 && c.command.request.Create?
    ensures var e := DomainEvent(c.command, 0, c.clock);
            var o := Load(n, [e]);
            && Admit(c.command.request, ZERO).Accept?
            && Replay(ZERO, [e]).items == o.items == map[] && o.version == 1 && o.state == Draft
  {
    var e := DomainEvent(c.command, 0, c.clock);
    assert [] + [e] == [e];
    ReplaySnoc(ZERO, [], e);
  }

  lemma AddPasses(r: Request, o: Order)
    requires r.AddItem? && o.version > 0 && o.state == Draft && o.items == map[]
    ensures Admit(r, o).Accept?
  {
  }

  lemma AddedLoads(e: Event, f: Event, item: LineItem)
    requires Replay(ZERO, [e]).items == map[] && f.body == ItemAdded(Some(item))
    ensures var o := Load(SNAPSHOT_EVERY, [e] + [f]);
            o.items == map[item.itemId := item] && o.totalCents == Wrap64(ExactTotal(o.items))
  {
    hide Replay, ExactTotal;
    ReplaySnoc(ZERO, [e], f);
  }

  lemma OneItemTotal(item: LineItem)
    ensures ExactTotal(map[item.itemId := item]) == LineTotal(item)
  {
    var items := map[item.itemId := item];
    ExactTotalRemove(items, item.itemId);
    assert items - {item.itemId} == map[];
  }
}
