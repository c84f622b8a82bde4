/**
 What every command is answered, read off the records of the log: which is let through,
 which is skipped, and with which error the others are refused.
 */
module OrderGates {
  import opened Machine
  import opened OrderModel
  import opened Listing
  import opened Replays
  import opened OrderSafety
  import opened OrderHistory
  import opened Protocol
  import opened OrderRuns

  ghost predicate WasPlaced(log: seq<Event>) {
    exists i :: 0 <= i < |log| && log[i].body.OrderPlaced?
  }

  ghost predicate WasCancelled(log: seq<Event>) {
    exists i :: 0 <= i < |log| && log[i].body.OrderCancelled?
  }

  /** An order that exists and was neither placed nor cancelled. */
  ghost predicate InDraft(log: seq<Event>) {
    log != [] && !WasPlaced(log) && !WasCancelled(log)
  }

  ghost predicate AddsItem(e: Event, itemId: string) {
    e.body.ItemAdded? && e.body.item.Some? && e.body.item.value.itemId == itemId
  }

  ghost predicate RemovesItem(e: Event, itemId: string) {
    e.body.ItemRemoved? && e.body.itemId == itemId
  }

  /** The item was added, and was not removed since. */
  ghost predicate ItemThere(log: seq<Event>, itemId: string) {
    exists i :: 0 <= i < |log| && AddsItem(log[i], itemId) && forall j :: i < j < |log| ==> !RemovesItem(log[j], itemId)
  }

  /**
   The verdict on a request by the records alone. A command on an order that does not exist is
   NotCreatedYet whatever else is wrong with it, a missing billing comes before the state, and
   the state before the items.
   */
  ghost function VerdictOf(log: seq<Event>, r: Request): Verdict {
    if log == [] then
      if r.Create? then Accept else Reject(NotCreatedYet)
    else
      match r
      case Create(_, _) => Reject(AlreadyCreated)
      case SetBilling(billing) => if billing == None then Reject(ValidationFailed) else Accept
      case ClearBilling => Accept
      case Cancel(_) => if WasCancelled(log) then Reject(StateNotAllowed) else Accept
      case AddItem(item) =>
        if !InDraft(log) then Reject(StateNotAllowed)
        else if ItemThere(log, match item case Some(x) => x.itemId case None => "") then Reject(ItemAlreadyPresent)
        else Accept
      case RemoveItem(itemId) =>
        if !InDraft(log) then Reject(StateNotAllowed)
        else if ItemThere(log, itemId) then Accept else Skip
      case AddTag(_) => if InDraft(log) then Accept else Reject(StateNotAllowed)
      case RemoveTag(_) => if InDraft(log) then Accept else Reject(StateNotAllowed)
      case SetShipping(_) => if InDraft(log) then Accept else Reject(StateNotAllowed)
      case Place(_) => if InDraft(log) then Accept else Reject(StateNotAllowed)
  }

  // ---------------------------------------------------------------- the state by the records

  ghost function StateOf(log: seq<Event>): State {
    if log == [] then Unspecified
    else if WasCancelled(log) then Cancelled
    else if WasPlaced(log) then Placed else Draft
  }

  lemma StateOfSnoc(log: seq<Event>, e: Event)
    ensures WasPlaced(log + [e]) <==> WasPlaced(log) || e.body.OrderPlaced?
    ensures WasCancelled(log + [e]) <==> WasCancelled(log) || e.body.OrderCancelled?
  {
    var all := log + [e];
    assert all[|log|] == e;
    if WasPlaced(log) {
      var i :| 0 <= i < |log| && log[i].body.OrderPlaced?;
      assert all[i] == log[i];
    }
    if WasCancelled(log) {
      var i :| 0 <= i < |log| && log[i].body.OrderCancelled?;
      assert all[i] == log[i];
    }
  }

  /** Which records can come in which state, and where they lead. */
  lemma StateMoves(id: string, a: Order, e: Event, b: Order)
    requires Evolves(id, a, e, b) && LifeOk(id, a)
    ensures match e.body
            case Created(_, _) => a.state == Unspecified && b.state == Draft
            case OrderPlaced(_) => a.state == Draft && b.state == Placed
            case OrderCancelled(_) => (a.state == Draft || a.state == Placed) && b.state == Cancelled
            case _ => a.state != Unspecified && b.state == a.state
  {
    hide Evaluate, ProtoValidate;
    if !e.body.Snapshot? {
      var c: Command, clock: Clock :|
        c.id == id && Admit(c.request, a).Accept? && e == DomainEvent(c, a.version, clock);
    }
  }

  lemma {:induction false} StateByRecords(n: int, id: string, log: seq<Event>)
    requires n >= 2 && LogOk(n, id, log)
    ensures Load(n, log).state == StateOf(log)
  {
    hide Load, LogOk, Evolves, WasPlaced, WasCancelled;
    if log == [] {
      NothingLoaded(n);
    } else {
      var m := |log| - 1;
      LogOkPrefix(n, id, log, m);
      StateByRecords(n, id, log[..m]);
      LoadedOrderOk(n, id, log, m);
      LoadEvolves(n, id, log, m);
      assert log[..m + 1] == log && log[..m] + [log[m]] == log;
      StateMoves(id, Load(n, log[..m]), log[m], Load(n, log));
      StateOfSnoc(log[..m], log[m]);
      NoRecords();
    }
  }

  lemma NoRecords()
    ensures !WasPlaced([]) && !WasCancelled([])
  {
  }

  // ---------------------------------------------------------------- the items by the records

  lemma ItemsByRecords(n: int, id: string, log: seq<Event>, itemId: string)
    requires n >= 2 && LogOk(n, id, log)
    ensures itemId in Load(n, log).items <==> ItemThere(log, itemId)
  {
    hide Load, LogOk;
    LoadShows(n, id, log);
    var i := LastExists(log, NamesItem(itemId));
    LastDecides(log, itemId, i, Load(n, log));
  }

  lemma LastDecides(log: seq<Event>, itemId: string, i: int, o: Order)
    requires Shown(log, o) && LastWhere(log, NamesItem(itemId), i)
    ensures itemId in o.items <==> ItemThere(log, itemId)
  {
    assert ItemAt(log, itemId, i, o);
    if i >= 0 && log[i].body.ItemAdded? {
      assert AddsItem(log[i], itemId);
      forall j | i < j < |log| ensures !RemovesItem(log[j], itemId) {
        assert !NamesItem(itemId)(log[j]);
      }
    }
    if ItemThere(log, itemId) {
      var k :| 0 <= k < |log| && AddsItem(log[k], itemId) && forall j :: k < j < |log| ==> !RemovesItem(log[j], itemId);
      assert NamesItem(itemId)(log[k]);
      assert k <= i;
      assert k < i ==> !RemovesItem(log[i], itemId);
    }
  }

  // ---------------------------------------------------------------- the verdict

  /** The gates give, on every log of admitted commands, exactly the verdict its records call for. */
  lemma Verdicts(n: int, id: string, log: seq<Event>, r: Request)
    requires n >= 2 && LogOk(n, id, log)
    ensures Admit(r, Load(n, log)) == VerdictOf(log, r)
  {
    hide Load, LogOk, ItemThere, WasPlaced, WasCancelled;
    assert log[..|log|] == log;
    LoadedOrderOk(n, id, log, |log|);
    StateByRecords(n, id, log);
    if r.AddItem? {
      ItemsByRecords(n, id, log, ItemKey(r.item));
    }
    if r.RemoveItem? {
      ItemsByRecords(n, id, log, r.itemId);
    }
  }

  /** States no command of the order leads to are guarded as well. */
  lemma GuardsOfOtherStates(r: Request, o: Order)
    requires o.version != 0 && o.state in {Paid, Shipped, Delivered}
    ensures r.Cancel? ==> (Admit(r, o) == Accept <==> o.state == Paid)
    ensures r.AddItem? || r.RemoveItem? || r.AddTag? || r.RemoveTag? || r.SetShipping? || r.Place? ==>
              Admit(r, o) == Reject(StateNotAllowed)
    ensures r.ClearBilling? || (r.SetBilling? && r.billing.Some?) ==> Admit(r, o) == Accept
  {
  }

  /**
   Every answer of every concurrent run: a command that was not saved was answered what the
   records of the prefix it had loaded call for, and one that was saved was called for by the
   whole log before it.
   */
  lemma AnswersByRecords(n: int, id: string, actions: seq<Action>)
    requires n >= 2
    ensures var s := Run(n, id, actions);
            var log := LogOf(n, s);
            && (forall i :: 0 <= i < |s.answers| ==>
                  && 0 <= s.answers[i].seen <= |log|
                  && s.answers[i].verdict == VerdictOf(log[..s.answers[i].seen], s.answers[i].command.request))
            && forall i :: 0 <= i < |s.commits| ==>
                 VerdictOf(SerialLog(n, s.commits[..i]), s.commits[i].command.request) == Accept
  {
    hide Run, LogOk, Load, Admit, VerdictOf, SerialLog, Stored, EmitEvents, AfterOn, Replay, Admitted;
    var s := Run(n, id, actions);
    var log := LogOf(n, s);
    Serializability(n, id, actions);
    RunLogOk(n, id, actions);
    forall i | 0 <= i < |s.answers| ensures
        && 0 <= s.answers[i].seen <= |log|
        && s.answers[i].verdict == VerdictOf(log[..s.answers[i].seen], s.answers[i].command.request)
    {
      assert AnswerOk(n, log, s.answers[i]);
      LogOkPrefix(n, id, log, s.answers[i].seen);
      Verdicts(n, id, log[..s.answers[i].seen], s.answers[i].command.request);
    }
    forall i | 0 <= i < |s.commits|
      ensures VerdictOf(SerialLog(n, s.commits[..i]), s.commits[i].command.request) == Accept
    {
      assert BatchSerial(n, id, s, i);
      AdmittedPrefix(n, id, s.commits, i);
      SerialLogOk(n, id, s.commits[..i]);
      LoadIsFullReplay(n, id, SerialLog(n, s.commits[..i]));
      Verdicts(n, id, SerialLog(n, s.commits[..i]), s.commits[i].command.request);
    }
  }
}
