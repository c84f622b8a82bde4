/**
 The derived fields by the records of the log: how many items there are, what each record
 adds to the total, and what the stored summary says.
 */
module OrderTotals {
  import opened Machine
  import opened OrderModel
  import opened Listing
  import opened Replays
  import opened OrderSafety
  import opened OrderHistory
  import opened OrderGates
  import opened Protocol
  import opened OrderRuns

  /** A loaded order is its own derivation. */
  lemma LoadedIsDerived(n: int, id: string, log: seq<Event>)
    requires n >= 2 && LogOk(n, id, log)
    ensures AfterOn(Load(n, log)) == Load(n, log)
  {
    hide LogOk, Load, AfterOn;
    LoadedOrderOk(n, id, log, |log|);
    assert log[..|log|] == log;
  }

  /** The count is items added less items removed, as an int32. */
  lemma CountByRecords(n: int, id: string, log: seq<Event>)
    requires n >= 2 && LogOk(n, id, log)
    ensures var count, true_ := Load(n, log).itemCount, ItemsAdded(log) - ItemsRemoved(log);
            && -0x8000_0000 <= count < 0x8000_0000
            && (count - true_) % 0x1_0000_0000 == 0
            && (true_ < 0x8000_0000 ==> count == true_)
  {
    hide LogOk, Load, ExactTotal;
    LoadedIsDerived(n, id, log);
    ItemsConserved(n, id, log, |log|);
    assert log[..|log|] == log;
  }

  // ---------------------------------------------------------------- the total, record by record

  ghost predicate SameInt64(x: int, y: int) {
    (x - y) % 0x1_0000_0000_0000_0000 == 0
  }

  lemma AddedTotal(items: map<string, LineItem>, item: LineItem)
    requires item.itemId !in items
    ensures ExactTotal(items[item.itemId := item]) == ExactTotal(items) + item.priceCents * item.quantity
  {
    var after := items[item.itemId := item];
    ExactTotalRemove(after, item.itemId);
    assert after - {item.itemId} == items;
  }

  lemma RemovedTotal(items: map<string, LineItem>, itemId: string)
    requires itemId in items
    ensures ExactTotal(items - {itemId}) == ExactTotal(items) - items[itemId].priceCents * items[itemId].quantity
  {
    ExactTotalRemove(items, itemId);
  }

  lemma TotalIs(o: Order)
    requires AfterOn(o) == o
    ensures SameInt64(o.totalCents, ExactTotal(o.items)) && -TWO63 <= o.totalCents < TWO63
  {
  }

  lemma Differences(x: int, y: int, a: int, b: int)
    requires SameInt64(x, a) && SameInt64(y, b)
    ensures SameInt64(x - y, a - b)
  {
  }

  /** What a record does to the total: adds price times quantity, takes it off again, or nothing. */
  ghost predicate TotalMoves(e: Event, a: Order, b: Order) {
    match e.body
    case ItemAdded(Some(item)) => SameInt64(b.totalCents - a.totalCents, item.priceCents * item.quantity)
    case ItemRemoved(itemId) =>
      && itemId in a.items
      && SameInt64(a.totalCents - b.totalCents, a.items[itemId].priceCents * a.items[itemId].quantity)
    case _ => b.totalCents == a.totalCents
  }

  lemma ItemsMove(id: string, a: Order, e: Event, b: Order)
    requires Evolves(id, a, e, b)
    ensures match e.body
            case ItemAdded(Some(item)) => item.itemId !in a.items && b.items == a.items[item.itemId := item]
            case ItemRemoved(itemId) => itemId in a.items && b.items == a.items - {itemId}
            case _ => b.items == a.items
  {
    hide Justified;
    if e.body.ItemAdded? && e.body.item.Some? {
      AddedIsNew(id, a, e);
    }
    if e.body.ItemRemoved? {
      RemovedIsPresent(id, a, e);
    }
  }

  lemma EvolvesTotal(id: string, a: Order, e: Event, b: Order)
    requires Evolves(id, a, e, b) && AfterOn(a) == a && AfterOn(b) == b
    ensures TotalMoves(e, a, b)
  {
    hide Evolves, AfterOn, ExactTotal, SameInt64;
    ItemsMove(id, a, e, b);
    TotalIs(a);
    TotalIs(b);
    match e.body {
      case ItemAdded(Some(item)) =>
        AddedTotal(a.items, item);
        Differences(b.totalCents, a.totalCents, ExactTotal(b.items), ExactTotal(a.items));
      case ItemRemoved(itemId) =>
        RemovedTotal(a.items, itemId);
        Differences(a.totalCents, b.totalCents, ExactTotal(a.items), ExactTotal(b.items));
      case _ =>
        SameItemsSameTotal(a, b);
    }
  }

  lemma SameItemsSameTotal(a: Order, b: Order)
    requires AfterOn(a) == a && AfterOn(b) == b && a.items == b.items
    ensures a.totalCents == b.totalCents
  {
  }

  /** At every record of every log of admitted commands; an empty log totals zero. */
  lemma TotalByRecords(n: int, id: string, log: seq<Event>, k: nat)
    requires n >= 2 && LogOk(n, id, log) && k < |log|
    ensures Load(n, log[..0]).totalCents == 0
    ensures TotalMoves(log[k], Load(n, log[..k]), Load(n, log[..k + 1]))
  {
    hide LogOk, Load, Evolves, AfterOn, TotalMoves;
    NothingLoaded(n);
    assert log[..0] == [];
    LogOkPrefix(n, id, log, k);
    LogOkPrefix(n, id, log, k + 1);
    LoadedIsDerived(n, id, log[..k]);
    LoadedIsDerived(n, id, log[..k + 1]);
    LoadEvolves(n, id, log, k);
    EvolvesTotal(id, Load(n, log[..k]), log[k], Load(n, log[..k + 1]));
  }

  // ---------------------------------------------------------------- summaries

  /** A summary that says of the order what the records of the log say. */
  ghost predicate SummaryShows(n: int, id: string, log: seq<Event>, s: OrderSummary)
    requires n > 0 && log != [] && log[0].body.Created?
  {
    && s.id == id && s.state == StateOf(log)
    && s.customerId == log[0].body.customerId && s.customerName == log[0].body.customerName
    && s.createAt == log[0].at
    && (forall i :: LastWhere(log, Places(), i) ==> s.placedAt == if i < 0 then 0 else log[i].body.placedAt)
    && (s.itemCount - (ItemsAdded(log) - ItemsRemoved(log))) % 0x1_0000_0000 == 0
    && -0x8000_0000 <= s.itemCount < 0x8000_0000
    && SameInt64(s.totalCents, ExactTotal(Load(n, log).items))
    && -TWO63 <= s.totalCents < TWO63
  }

  lemma SummaryByRecords(n: int, id: string, log: seq<Event>)
    requires n >= 2 && LogOk(n, id, log) && log != []
    ensures log[0].body.Created? && SummaryShows(n, id, log, Summarize(Load(n, log)))
  {
    hide LogOk, Load, AfterOn, ExactTotal, StateOf, LastWhere, SameInt64, Shown, ItemsAdded, ItemsRemoved;
    BirthShown(n, id, log);
    StateByRecords(n, id, log);
    CountByRecords(n, id, log);
    LoadedIsDerived(n, id, log);
    TotalIs(Load(n, log));
    PlacingOf(n, id, log);
  }

  lemma BirthShown(n: int, id: string, log: seq<Event>)
    requires n >= 2 && LogOk(n, id, log) && log != []
    ensures log[0].body.Created? && BornOf(Load(n, log), log[0]) && Load(n, log).id == id
  {
    hide LogOk, Load, AfterOn, KeysOk;
    assert log[..|log|] == log;
    SingleCreation(n, id, log, |log|);
    LoadedOrderOk(n, id, log, |log|);
  }

  lemma PlacingOf(n: int, id: string, log: seq<Event>)
    requires n >= 2 && LogOk(n, id, log)
    ensures forall i :: LastWhere(log, Places(), i) ==>
                          Load(n, log).placedAt == if i < 0 then 0 else log[i].body.placedAt
  {
    hide LogOk, Load;
    LoadShows(n, id, log);
    forall i | LastWhere(log, Places(), i) ensures PlacingAt(log, i, Load(n, log)) {
      assert PlacingShown(log, Load(n, log));
    }
  }

  // ---------------------------------------------------------------- in every run

  /**
   At every prefix of the log of every concurrent run the loaded order is what the records
   say, count and total included.
   */
  lemma RecordsInEveryRun(n: int, id: string, actions: seq<Action>, k: nat)
    requires n >= 2 && k <= |LogOf(n, Run(n, id, actions))|
    ensures var log := LogOf(n, Run(n, id, actions));
            && Shown(log[..k], Load(n, log[..k]))
            && Load(n, log[..k]).state == StateOf(log[..k])
            && Load(n, log[..k]).itemCount == Wrap32(ItemsAdded(log[..k]) - ItemsRemoved(log[..k]))
            && (k < |log| ==> TotalMoves(log[k], Load(n, log[..k]), Load(n, log[..k + 1])))
  {
    hide LogOk, LogOf, Load, Run, Shown, StateOf, TotalMoves, AfterOn, ItemsAdded, ItemsRemoved;
    var log := LogOf(n, Run(n, id, actions));
    RunLogOk(n, id, actions);
    LogOkPrefix(n, id, log, k);
    LoadShows(n, id, log[..k]);
    StateByRecords(n, id, log[..k]);
    CountIsWrapped(n, id, log[..k]);
    if k < |log| {
      TotalByRecords(n, id, log, k);
    }
  }

  lemma CountIsWrapped(n: int, id: string, log: seq<Event>)
    requires n >= 2 && LogOk(n, id, log)
    ensures Load(n, log).itemCount == Wrap32(ItemsAdded(log) - ItemsRemoved(log))
  {
    hide LogOk, Load, ExactTotal;
    LoadedIsDerived(n, id, log);
    ItemsConserved(n, id, log, |log|);
    assert log[..|log|] == log;
  }

  lemma LoadedIs(n: int, log: seq<Event>, o: Order)
    requires n > 0 && LoadedFrom(n, log, o)
    ensures 0 <= o.version <= |log| && o == Load(n, log[..o.version])
  {
  }

  /** The stored summary of every concurrent run is the one the records of some prefix call for. */
  lemma SummaryInEveryRun(n: int, id: string, actions: seq<Action>)
    requires n >= 2 && Run(n, id, actions).summary.Some?
    ensures var s := Run(n, id, actions);
            var log := LogOf(n, s);
            exists k :: 1 <= k <= |log| && log[0].body.Created? && SummaryShows(n, id, log[..k], s.summary.value)
  {
    hide LogOk, SerialLog, Load, Run, SummaryShows, Summarize, LoadedFrom;
    var s := Run(n, id, actions);
    var log := LogOf(n, s);
    MaterializedViews(n, id, actions);
    RunLogOk(n, id, actions);
    var i :| 0 <= i < |s.offered| && s.summary.value == Summarize(s.offered[i]);
    var k := s.offered[i].version;
    assert 1 <= k <= |log| && s.offered[i] == Load(n, log[..k]) by { LoadedIs(n, log, s.offered[i]); }
    LogOkPrefix(n, id, log, k);
    SummaryByRecords(n, id, log[..k]);
    assert log[..k][0] == log[0];
  }
}
