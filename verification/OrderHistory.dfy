/**
 What an order shows, read off the records of its log by their positions. Nothing here
 speaks of how events are applied: each field is what the last record about it says.
 */
module OrderHistory {
  import opened Machine
  import opened OrderModel
  import opened Replays
  import opened OrderSafety

  /** `i` is the last record that `about` holds of, -1 when there is none. */
  ghost predicate LastWhere(log: seq<Event>, about: Event -> bool, i: int) {
    && -1 <= i < |log|
    && (i >= 0 ==> about(log[i]))
    && forall j :: i < j < |log| ==> !about(log[j])
  }

  /** There always is one. */
  lemma {:induction false} LastExists(log: seq<Event>, about: Event -> bool) returns (i: int)
    ensures LastWhere(log, about, i)
  {
    if log == [] {
      i := -1;
    } else if about(log[|log| - 1]) {
      i := |log| - 1;
    } else {
      i := LastExists(log[..|log| - 1], about);
    }
  }

  lemma LastSnoc(log: seq<Event>, e: Event, about: Event -> bool, i: int)
    requires LastWhere(log + [e], about, i)
    ensures if about(e) then i == |log| else LastWhere(log, about, i)
  {
    var all := log + [e];
    assert all[|log|] == e;
    assert forall j :: 0 <= j < |log| ==> all[j] == log[j];
  }

  // ---------------------------------------------------------------- which records are about what

  function SetsShipping(): Event -> bool {
    (e: Event) => e.body.ShippingSet?
  }

  function SetsBilling(): Event -> bool {
    (e: Event) => e.body.BillingSet? || e.body.BillingCleared?
  }

  function Places(): Event -> bool {
    (e: Event) => e.body.OrderPlaced?
  }

  function Creates(): Event -> bool {
    (e: Event) => e.body.Created?
  }

  function MovesState(): Event -> bool {
    (e: Event) => e.body.Created? || e.body.OrderPlaced? || e.body.OrderCancelled?
  }

  function Happens(): Event -> bool {
    (e: Event) => !e.body.Snapshot? && !e.body.Foreign?
  }

  function NamesTag(key: string): Event -> bool {
    (e: Event) =>
      || (e.body.TagAdded? && e.body.tag.Some? && e.body.tag.value.key == key)
      || (e.body.TagRemoved? && e.body.key == key)
  }

  function NamesItem(itemId: string): Event -> bool {
    (e: Event) =>
      || (e.body.ItemAdded? && e.body.item.Some? && e.body.item.value.itemId == itemId)
      || (e.body.ItemRemoved? && e.body.itemId == itemId)
  }

  // ---------------------------------------------------------------- what they make an order show

  ghost predicate ShippingAt(log: seq<Event>, i: int, o: Order)
    requires LastWhere(log, SetsShipping(), i)
  {
    o.shippingAddress == if i < 0 then "" else log[i].body.shippingAddress
  }

  ghost predicate BillingAt(log: seq<Event>, i: int, o: Order)
    requires LastWhere(log, SetsBilling(), i)
  {
    o.billing == if i < 0 then None
                 else if log[i].body.BillingSet? then log[i].body.billing
                 else log[i].body.clearedTo
  }

  ghost predicate PlacingAt(log: seq<Event>, i: int, o: Order)
    requires LastWhere(log, Places(), i)
  {
    o.placedAt == if i < 0 then 0 else log[i].body.placedAt
  }

  ghost predicate CreationAt(log: seq<Event>, i: int, o: Order)
    requires LastWhere(log, Creates(), i)
  {
    if i < 0 then o.customerId == o.customerName == o.createBy == "" && o.createAt == 0
    else
      && o.customerId == log[i].body.customerId && o.customerName == log[i].body.customerName
      && o.createAt == log[i].at && o.createBy == log[i].actor
  }

  ghost predicate ModificationAt(log: seq<Event>, i: int, o: Order)
    requires LastWhere(log, Happens(), i)
  {
    if i < 0 then o.modifyAt == 0 && o.modifyBy == ""
    else o.modifyAt == log[i].at && o.modifyBy == log[i].actor
  }

  ghost predicate StateAt(log: seq<Event>, i: int, o: Order)
    requires LastWhere(log, MovesState(), i)
  {
    o.state == if i < 0 then Unspecified
               else if log[i].body.Created? then Draft
               else if log[i].body.OrderPlaced? then Placed else Cancelled
  }

  /** A tag is there iff the last record naming its key added it, and it is what that record carried. */
  ghost predicate TagAt(log: seq<Event>, key: string, i: int, o: Order)
    requires LastWhere(log, NamesTag(key), i)
  {
    && (key in o.tags <==> i >= 0 && log[i].body.TagAdded?)
    && (key in o.tags ==> Some(o.tags[key]) == log[i].body.tag)
  }

  ghost predicate ItemAt(log: seq<Event>, key: string, i: int, o: Order)
    requires LastWhere(log, NamesItem(key), i)
  {
    && (key in o.items <==> i >= 0 && log[i].body.ItemAdded?)
    && (key in o.items ==> Some(o.items[key]) == log[i].body.item)
  }

  ghost predicate ShippingShown(log: seq<Event>, o: Order) {
    forall i :: LastWhere(log, SetsShipping(), i) ==> ShippingAt(log, i, o)
  }

  ghost predicate BillingShown(log: seq<Event>, o: Order) {
    forall i :: LastWhere(log, SetsBilling(), i) ==> BillingAt(log, i, o)
  }

  ghost predicate PlacingShown(log: seq<Event>, o: Order) {
    forall i :: LastWhere(log, Places(), i) ==> PlacingAt(log, i, o)
  }

  ghost predicate CreationShown(log: seq<Event>, o: Order) {
    forall i :: LastWhere(log, Creates(), i) ==> CreationAt(log, i, o)
  }

  ghost predicate ModificationShown(log: seq<Event>, o: Order) {
    forall i :: LastWhere(log, Happens(), i) ==> ModificationAt(log, i, o)
  }

  ghost predicate StateShown(log: seq<Event>, o: Order) {
    forall i :: LastWhere(log, MovesState(), i) ==> StateAt(log, i, o)
  }

  ghost predicate TagsShown(log: seq<Event>, o: Order) {
    forall key, i :: LastWhere(log, NamesTag(key), i) ==> TagAt(log, key, i, o)
  }

  ghost predicate ItemsShown(log: seq<Event>, o: Order) {
    forall key, i :: LastWhere(log, NamesItem(key), i) ==> ItemAt(log, key, i, o)
  }

  /** Every field an event can set is what the last record about it says. */
  ghost predicate Shown(log: seq<Event>, o: Order) {
    && ShippingShown(log, o) && BillingShown(log, o) && PlacingShown(log, o)
    && CreationShown(log, o) && ModificationShown(log, o) && StateShown(log, o)
    && TagsShown(log, o) && ItemsShown(log, o)
  }

  // ---------------------------------------------------------------- one more record

  /** `e` takes `a` to `b`, whatever becomes of derived fields, id and version. */
  ghost predicate Moves(a: Order, e: Event, b: Order) {
    b == (if e.body.Snapshot? then a else On(a, e)).(
           id := b.id, version := b.version, itemCount := b.itemCount, totalCents := b.totalCents)
  }

  lemma ShippingStep(log: seq<Event>, a: Order, e: Event, b: Order)
    requires ShippingShown(log, a) && Moves(a, e, b)
    ensures ShippingShown(log + [e], b)
  {
    forall i | LastWhere(log + [e], SetsShipping(), i) ensures ShippingAt(log + [e], i, b) {
      LastSnoc(log, e, SetsShipping(), i);
    }
  }

  lemma BillingStep(log: seq<Event>, a: Order, e: Event, b: Order)
    requires BillingShown(log, a) && Moves(a, e, b)
    ensures BillingShown(log + [e], b)
  {
    forall i | LastWhere(log + [e], SetsBilling(), i) ensures BillingAt(log + [e], i, b) {
      LastSnoc(log, e, SetsBilling(), i);
    }
  }

  lemma PlacingStep(log: seq<Event>, a: Order, e: Event, b: Order)
    requires PlacingShown(log, a) && Moves(a, e, b)
    ensures PlacingShown(log + [e], b)
  {
    forall i | LastWhere(log + [e], Places(), i) ensures PlacingAt(log + [e], i, b) {
      LastSnoc(log, e, Places(), i);
    }
  }

  lemma CreationMoved(a: Order, e: Event, b: Order)
    requires Moves(a, e, b)
    ensures if e.body.Created?
            then b.customerId == e.body.customerId && b.customerName == e.body.customerName
                 && b.createAt == e.at && b.createBy == e.actor
            else b.customerId == a.customerId && b.customerName == a.customerName
                 && b.createAt == a.createAt && b.createBy == a.createBy
  {
  }

  lemma CreationStep(log: seq<Event>, a: Order, e: Event, b: Order)
    requires CreationShown(log, a) && Moves(a, e, b)
    ensures CreationShown(log + [e], b)
  {
    hide Moves;
    CreationMoved(a, e, b);
    forall i | LastWhere(log + [e], Creates(), i) ensures CreationAt(log + [e], i, b) {
      LastSnoc(log, e, Creates(), i);
    }
  }

  lemma ModificationStep(log: seq<Event>, a: Order, e: Event, b: Order)
    requires ModificationShown(log, a) && Moves(a, e, b)
    ensures ModificationShown(log + [e], b)
  {
    forall i | LastWhere(log + [e], Happens(), i) ensures ModificationAt(log + [e], i, b) {
      LastSnoc(log, e, Happens(), i);
    }
  }

  lemma StateStep(log: seq<Event>, a: Order, e: Event, b: Order)
    requires StateShown(log, a) && Moves(a, e, b)
    ensures StateShown(log + [e], b)
  {
    forall i | LastWhere(log + [e], MovesState(), i) ensures StateAt(log + [e], i, b) {
      LastSnoc(log, e, MovesState(), i);
    }
  }

  lemma TagsStep(log: seq<Event>, a: Order, e: Event, b: Order)
    requires TagsShown(log, a) && Moves(a, e, b)
    ensures TagsShown(log + [e], b)
  {
    forall key, i | LastWhere(log + [e], NamesTag(key), i) ensures TagAt(log + [e], key, i, b) {
      LastSnoc(log, e, NamesTag(key), i);
    }
  }

  lemma ItemsStep(log: seq<Event>, a: Order, e: Event, b: Order)
    requires ItemsShown(log, a) && Moves(a, e, b)
    ensures ItemsShown(log + [e], b)
  {
    forall key, i | LastWhere(log + [e], NamesItem(key), i) ensures ItemAt(log + [e], key, i, b) {
      LastSnoc(log, e, NamesItem(key), i);
    }
  }

  lemma ShownStep(log: seq<Event>, a: Order, e: Event, b: Order)
    requires Shown(log, a) && Moves(a, e, b)
    ensures Shown(log + [e], b)
  {
    hide Moves, ShippingShown, BillingShown, PlacingShown, CreationShown, ModificationShown, StateShown, TagsShown,
      ItemsShown;
    ShippingStep(log, a, e, b);
    BillingStep(log, a, e, b);
    PlacingStep(log, a, e, b);
    CreationStep(log, a, e, b);
    ModificationStep(log, a, e, b);
    StateStep(log, a, e, b);
    TagsStep(log, a, e, b);
    ItemsStep(log, a, e, b);
  }

  lemma NothingShown()
    ensures Shown([], ZERO)
  {
  }

  /** Replaying any events at all, admitted or not, but for snapshots. */
  lemma {:induction false} ReplayShows(log: seq<Event>)
    requires forall i :: 0 <= i < |log| ==> !log[i].body.Snapshot?
    ensures Shown(log, Replay(ZERO, log))
  {
    hide Shown, On;
    if log == [] {
      NothingShown();
    } else {
      var front, e := log[..|log| - 1], log[|log| - 1];
      ReplayShows(front);
      OnMoves(Replay(ZERO, front), e);
      ShownStep(front, Replay(ZERO, front), e, Replay(ZERO, log));
      assert front + [e] == log;
    }
  }

  lemma OnMoves(a: Order, e: Event)
    requires !e.body.Snapshot?
    ensures Moves(a, e, On(a, e))
  {
  }

  lemma EvolvesMoves(id: string, a: Order, e: Event, b: Order)
    requires Evolves(id, a, e, b)
    ensures Moves(a, e, b)
  {
    hide Justified, On;
  }

  /**
   What the log says. For every log of admitted commands, loaded from a snapshot tail or not,
   every field is what the last record about it says.
   */
  lemma {:induction false} LoadShows(n: int, id: string, log: seq<Event>)
    requires n >= 2 && LogOk(n, id, log)
    ensures Shown(log, Load(n, log))
  {
    hide Shown, Load, LogOk, Evolves, Moves;
    if log == [] {
      NothingShown();
      NothingLoaded(n);
    } else {
      var m := |log| - 1;
      LogOkPrefix(n, id, log, m);
      LoadShows(n, id, log[..m]);
      LoadEvolves(n, id, log, m);
      assert log[..m + 1] == log && log[..m] + [log[m]] == log;
      EvolvesMoves(id, Load(n, log[..m]), log[m], Load(n, log));
      ShownStep(log[..m], Load(n, log[..m]), log[m], Load(n, log));
    }
  }

  lemma NothingLoaded(n: int)
    requires n >= 0
    ensures Load(n, []) == ZERO
  {
  }
}
