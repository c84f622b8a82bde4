/**
 `Repository.Apply` end to end on a conditional store: bytes in the store, compression,
 tail loading, gates, emission, conditional save, materialization, projection, and other
 writers that commit between its load and its save.
 */
module Repositories {
  import opened Machine
  import opened Listing
  import opened OrderModel
  import opened Replays
  import opened Protocol
  import opened Codecs
  import opened Aggregates
  import opened Paging
  import opened ConditionalStores

  datatype Outcome = Done(version: int) | EmptyAggregateId | Refused(error: Error) | SaveFailed

  /** Record i of the partition is event i of the log, encoded under its version. */
  ghost predicate Stores(c: Codec, p: seq<Record>, log: seq<Event>) {
    && |p| == |log|
    && forall i :: 0 <= i < |p| ==>
         && p[i].version == log[i].version
         && Encode(c, log[i]) == Some(p[i].data)
         && Decode(c, p[i].data) == Some(log[i])
  }

  /** What one command finds and leaves: the log of admitted commands at a commit boundary. */
  ghost predicate LogComplete(n: int, id: string, log: seq<Event>)
    requires n > 0
  {
    LogOk(n, id, log) && (log == [] || |log| % n != 0)
  }

  /** The partitions are in order and hold, encoded, complete logs. */
  ghost predicate Consistent(n: int, c: Codec, partitions: map<string, seq<Record>>, logs: map<string, seq<Event>>)
    requires n > 0
  {
    && AllOrdered(partitions)
    && forall id :: Stores(c, Get(partitions, id), Get(logs, id)) && LogComplete(n, id, Get(logs, id))
  }

  lemma ConsistentCommit(n: int, c: Codec, before: map<string, seq<Record>>, logs: map<string, seq<Event>>,
                         after: map<string, seq<Record>>, id: string, log: seq<Event>)
    requires n > 0 && Consistent(n, c, before, logs) && AllOrdered(after)
    requires forall other :: other != id ==> Get(after, other) == Get(before, other)
    requires Stores(c, Get(after, id), log) && LogComplete(n, id, log)
    ensures Consistent(n, c, after, logs[id := log])
  {
  }

  ghost predicate AllMarshal(c: Codec, events: seq<Event>) {
    forall i :: 0 <= i < |events| ==> c.marshal(events[i]).Some?
  }

  // ---------------------------------------------------------------- what calls do

  /** One command, the clock it reads, and what becomes of its three writes. */
  datatype Work = Work(command: Command, clock: Clock, delivery: Delivery, viewStored: bool, summaryStored: bool)

  /** What a repository keeps, decoded. */
  datatype Book = Book(logs: map<string, seq<Event>>, views: map<string, Order>, summaries: map<string, OrderSummary>)

  const EMPTY_BOOK: Book := Book(map[], map[], map[])

  /** The save takes effect: prepared from the whole log, all of it marshals, and the call arrives. */
  ghost predicate Applied(n: int, c: Codec, b: Book, w: Work, seen: Order)
    requires n > 0
  {
    && seen == Load(n, Get(b.logs, w.command.id))
    && !w.delivery.Lost?
    && AllMarshal(c, EmitEvents(n, w.command, seen, w.clock))
  }

  /** What the save of a command that passed the gates on `seen` does to the book it finds. */
  ghost function AfterSave(n: int, c: Codec, b: Book, w: Work, seen: Order): Book
    requires n > 0
  {
    if !Applied(n, c, b, w, seen) then b else
      b.(logs := b.logs[w.command.id := Get(b.logs, w.command.id) + EmitEvents(n, w.command, seen, w.clock)])
  }

  /** Stores an aggregate and its summary, as far as the two puts get through. */
  ghost function Published(b: Book, w: Work, o: Order): Book {
    b.(views := if w.viewStored then b.views[w.command.id := o] else b.views,
       summaries := if w.summaryStored then b.summaries[w.command.id := Summarize(o)] else b.summaries)
  }

  ghost predicate Acknowledged(n: int, c: Codec, b: Book, w: Work, seen: Order)
    requires n > 0
  {
    Applied(n, c, b, w, seen) && w.delivery.Delivered?
  }

  /** The aggregate that is published: what `Load` returns right after the save. */
  ghost function Resulting(n: int, c: Codec, b: Book, w: Work, seen: Order): Order
    requires n > 0
  {
    Load(n, Get(AfterSave(n, c, b, w, seen).logs, w.command.id))
  }

  /** Save and publish with nobody in between. */
  ghost function Settled(n: int, c: Codec, b: Book, w: Work, seen: Order): Book
    requires n > 0
  {
    var saved := AfterSave(n, c, b, w, seen);
    if Acknowledged(n, c, b, w, seen) then Published(saved, w, Resulting(n, c, b, w, seen)) else saved
  }

  predicate Passes(w: Work, seen: Order) {
    w.command.id != "" && Admit(w.command.request, seen).Accept?
  }

  /** A call that loads the whole log and that nobody interrupts. */
  ghost function AfterWork(n: int, c: Codec, b: Book, w: Work): Book
    requires n > 0
  {
    var seen := Load(n, Get(b.logs, w.command.id));
    if Passes(w, seen) then Settled(n, c, b, w, seen) else b
  }

  ghost function AfterAll(n: int, c: Codec, b: Book, works: seq<Work>): Book
    requires n > 0
  {
    if works == [] then b else AfterWork(n, c, AfterAll(n, c, b, works[..|works| - 1]), works[|works| - 1])
  }

  /** Save, and publish once `late` have come in between. */
  ghost function SettledLate(n: int, c: Codec, b: Book, w: Work, seen: Order, late: seq<Work>): Book
    requires n > 0
  {
    var saved := AfterSave(n, c, b, w, seen);
    if !Acknowledged(n, c, b, w, seen) then saved
    else Published(AfterAll(n, c, saved, late), w, Resulting(n, c, b, w, seen))
  }

  lemma WorkGrowsLog(n: int, c: Codec, b: Book, w: Work, id: string)
    requires n > 0
    ensures Get(b.logs, id) <= Get(AfterWork(n, c, b, w).logs, id)
  {
    hide Load, EmitEvents, Admit, AllMarshal;
  }

  class Repository {
    const n: int
    const codec: Codec
    const store: ConditionalStore
    ghost var logs: map<string, seq<Event>>

    ghost function Log(id: string): seq<Event>
      reads this
    {
      Get(logs, id)
    }

    ghost function Kept(): Book
      reads this, store
    {
      Book(logs, store.views, store.summaries)
    }

    ghost predicate Valid()
      reads this, store
    {
      n >= 2 && Sound(codec) && Consistent(n, codec, store.partitions, logs)
    }

    constructor (n: int, codec: Codec, service: Service)
      requires n >= 2 && Sound(codec)
      ensures Valid() && fresh(store) && this.n == n && this.codec == codec && Kept() == EMPTY_BOOK
    {
      this.n, this.codec := n, codec;
      store := new ConditionalStore(service);
      logs := map[];
    }

    /** The aggregate from its tail. Fails when there is no record or a page does not come. */
    method LoadAggregate(id: string, replies: seq<Reply<Record>>) returns (ok: bool, a: Aggregate)
      requires Valid()
      ensures fresh(a)
      ensures ok ==> Log(id) != [] && a.value == Load(n, Log(id))
      ensures !ok ==> Log(id) == [] || exists i :: 0 <= i < |replies| && replies[i].Failure?
    {
      a := new Aggregate();
      var history;
      ok, history := store.LoadTail(id, n, replies);
      if ok && history == [] {
        ok := false;
      }
      if ok {
        assert LogComplete(n, id, Log(id)) && Stores(codec, store.Partition(id), Log(id));
        TailStores(codec, store.Partition(id), Log(id), n);
        TailHandled(n, id, Log(id));
        ok := ReplayRecords(codec, history, Tail(Log(id), n), a);
      }
    }

    /**
     `Save`: encodes every event, then one conditional transaction. It takes effect exactly
     when the events continue the log as it is now, whatever log they were prepared from.
     */
    method Persist(id: string, base: nat, events: seq<Event>, delivery: Delivery) returns (ok: bool)
      requires Valid() && 1 <= |events| <= MAX_TRANSACT_ITEMS && base <= |Log(id)|
      requires forall i :: 0 <= i < |events| ==> events[i].version == base + 1 + i
      modifies store`partitions
      ensures store.Valid()
      ensures ok <==> base == |Log(id)| && delivery.Delivered? && AllMarshal(codec, events)
      ensures if base == |Log(id)| && !delivery.Lost? && AllMarshal(codec, events)
              then Stores(codec, store.Partition(id), Log(id) + events)
              else store.partitions == old(store.partitions)
      ensures forall other :: other != id ==> store.Partition(other) == old(store.Partition(other))
    {
      hide Sound, Decode, LogOk, Versioned, Accepts;
      var records;
      ok, records := EncodeAll(codec, events);
      if ok {
        ghost var failed;
        ghost var p := store.Partition(id);
        StoredGapless(n, id, codec, p, Log(id));
        OnlyNextAccepted(p, records, base);
        StoresConcat(codec, p, Log(id), records, events);
        ok, failed := store.Save(id, records, _ => delivery);
      }
    }

    /** Best effort: apply the new events to the loaded aggregate, derive, store, project. */
    method Materialize(id: string, a: Aggregate, events: seq<Event>, viewStored: bool, summaryStored: bool)
      requires forall i :: 0 <= i < |events| ==> Handled(events[i])
      modifies a, store`views, store`summaries
      ensures var o := AfterOn(Replay(old(a.value), events));
              && store.views == (if viewStored then old(store.views)[id := o] else old(store.views))
              && store.summaries == if summaryStored then old(store.summaries)[id := Summarize(o)]
                                    else old(store.summaries)
    {
      hide On, AfterOn, Replay;
      ReplayNothing(a.value);
      for i := 0 to |events|
        invariant a.value == Replay(old(a.value), events[..i])
        invariant store.views == old(store.views) && store.summaries == old(store.summaries)
      {
        ReplaySnoc(old(a.value), events[..i], events[i]);
        assert events[..i + 1] == events[..i] + [events[i]];
        var ok := a.On(events[i]);
        if !ok {
          return;
        }
      }
      assert events[..|events|] == events;
      a.AfterOn();
      store.SaveAggregate(id, a.value, viewStored);
      store.SaveSummary(id, Summarize(a.value), summaryStored);
    }

    /** The aggregate a command works on: the loaded one, or a fresh one when loading failed. */
    method Fetch(id: string, replies: seq<Reply<Record>>) returns (a: Aggregate)
      requires Valid()
      ensures fresh(a)
      ensures a.value == Load(n, Log(id)) ||
              (a.value == ZERO && exists i :: 0 <= i < |replies| && replies[i].Failure?)
    {
      var ok;
      ok, a := LoadAggregate(id, replies);
      if !ok {
        a := new Aggregate();
      }
    }

    /**
     Steps 6 to 9 of `Apply`, for a command that has passed the gates on an aggregate loaded
     from any prefix of what is by now the log, with `late` committing before it publishes.
     */
    method Commit(w: Work, a: Aggregate, late: seq<Work>) returns (r: Outcome)
      requires Valid() && LoadedFrom(n, Log(w.command.id), a.value) && Passes(w, a.value)
      modifies this, store, a
      ensures Valid()
      ensures Kept() == SettledLate(n, codec, old(Kept()), w, old(a.value), late)
      ensures r == if Acknowledged(n, codec, old(Kept()), w, old(a.value))
                   then Done(|Get(AfterSave(n, codec, old(Kept()), w, old(a.value)).logs, w.command.id)|)
                   else SaveFailed
      decreases |late|, 1
    {
      hide LogOk, Stores, Load, EmitEvents, Admit, On, AfterOn, Replay, Sound, Decode, AllOrdered, AllMarshal, AfterAll;
      var c := w.command;
      ghost var log, o := Log(c.id), a.value;
      assert LogComplete(n, c.id, log);
      CurrentIffSameVersion(n, c.id, log, o);
      var events := EmitEventsOf(n, c, a, w.clock);
      var ok := Persist(c.id, a.value.version, events, w.delivery);
      r := SaveFailed;
      if Applied(n, codec, old(Kept()), w, o) {
        EmitExtends(n, c.id, log, c, w.clock);
        LoadContinues(n, c.id, log, events);
        forall other | other != c.id ensures Get(store.partitions, other) == Get(old(store.partitions), other) {
          assert store.Partition(other) == old(store.Partition(other));
        }
        ConsistentCommit(n, codec, old(store.partitions), logs, store.partitions, c.id, log + events);
        logs := logs[c.id := log + events];
        EmittedHandled(n, c, o, w.clock);
      }
      if ok {
        Meanwhile(late, c.id);
        Materialize(c.id, a, events, w.viewStored, w.summaryStored);
        r := Done(events[|events| - 1].version);
      }
    }

    /** Steps 1 to 5: the verdict of the gates, in their order, on what was loaded. */
    method Check(r: Request, a: Aggregate) returns (v: Verdict)
      ensures v == Admit(r, a.value)
    {
      v := ValidateVersion(r, a.value.version);
      if v.Accept? {
        v := ProtoValidate(r);
      }
      if v.Accept? {
        v := GuardState(r, a.value.state);
      }
      if v.Accept? {
        v := Evaluate(r, a.value.items);
      }
    }

    /**
     `Apply`, with `others` committing between its load and its save and `late` between its
     save and its materialization. The gates decide on what was loaded, `seen`. A command
     that passes them takes effect exactly when that is still the whole log, everything
     marshals and the call arrives; then the log grows by its events. When the answer also
     comes back, it reports the new length and publishes what `Load` returned right after the
     save. A save that fails has left the log as it was or, when only the answer got lost,
     grown by exactly the command's events.
     */
    method Apply(w: Work, replies: seq<Reply<Record>>, others: seq<Work>, late: seq<Work>)
      returns (r: Outcome, ghost seen: Order)
      requires Valid()
      modifies this, store
      ensures Valid()
      ensures || seen == Load(n, old(Log(w.command.id)))
              || (seen == ZERO && exists i :: 0 <= i < |replies| && replies[i].Failure?)
      ensures var found := AfterAll(n, codec, old(Kept()), others);
              var v := Admit(w.command.request, seen);
              && Kept() == (if Passes(w, seen) then SettledLate(n, codec, found, w, seen, late) else old(Kept()))
              && r == (if w.command.id == "" then EmptyAggregateId
                       else if v.Reject? then Refused(v.error)
                       else if v.Skip? then Done(seen.version)
                       else if Acknowledged(n, codec, found, w, seen)
                       then Done(|Get(AfterSave(n, codec, found, w, seen).logs, w.command.id)|)
                       else SaveFailed)
      decreases |others| + |late|, 2
    {
      hide Load, Sound, Consistent, Admit, SettledLate, Acknowledged, AfterSave;
      var id := w.command.id;
      seen := Load(n, Log(id));
      if id == "" {
        return EmptyAggregateId, seen;
      }
      ghost var log := Log(id);
      assert LogComplete(n, id, log) by { ConsistentLog(n, codec, store.partitions, logs, id); }
      LoadVersion(n, id, log);
      LoadNothing(n);
      var a := Fetch(id, replies);
      seen := a.value;
      var v := Check(w.command.request, a);
      match v {
        case Reject(error) => r := Refused(error);
        case Skip => r := Done(a.value.version);
        case Accept =>
          Meanwhile(others, id);
          assert Log(id)[..|log|] == log && Log(id)[..0] == [];
          r := Commit(w, a, late);
      }
    }

    /** Other calls, one after the other. */
    method Meanwhile(others: seq<Work>, ghost id: string)
      requires Valid()
      modifies this, store
      ensures Valid() && Kept() == AfterAll(n, codec, old(Kept()), others) && old(Log(id)) <= Log(id)
      decreases |others|, 0
    {
      hide Load, Sound, Consistent, Admit, SettledLate, AfterWork;
      for i := 0 to |others|
        invariant Valid() && Kept() == AfterAll(n, codec, old(Kept()), others[..i]) && old(Log(id)) <= Log(id)
      {
        WorkGrowsLog(n, codec, Kept(), others[i], id);
        ghost var before := Kept();
        var r, seen := Apply(others[i], [], [], []);
        Alone(n, codec, before, others[i], seen);
        assert others[..i + 1][..i] == others[..i];
      }
      assert others[..|others|] == others;
    }
  }

  lemma TailStores(c: Codec, p: seq<Record>, log: seq<Event>, n: nat)
    requires Stores(c, p, log)
    ensures Stores(c, Tail(p, n), Tail(log, n))
  {
  }

  lemma TailHandled(n: int, id: string, log: seq<Event>)
    requires n > 0 && LogOk(n, id, log)
    ensures forall i :: 0 <= i < |Tail(log, n)| ==> Handled(Tail(log, n)[i])
  {
    forall i | 0 <= i < |log| ensures Handled(log[i]) {
      assert RecordOk(n, id, log, i);
    }
  }

  /** Decodes and applies record after record to a fresh aggregate, then derives. */
  method ReplayRecords(c: Codec, records: seq<Record>, ghost events: seq<Event>, a: Aggregate) returns (ok: bool)
    requires Stores(c, records, events) && a.value == ZERO
    requires forall i :: 0 <= i < |events| ==> Handled(events[i])
    modifies a
    ensures ok && a.value == AfterOn(Replay(ZERO, events))
  {
    hide On, Replay, AfterOn;
    var i := 0;
    ok := true;
    ReplayNothing(ZERO);
    while ok && i < |records|
      invariant ok && i <= |records| && a.value == Replay(ZERO, events[..i])
      decreases |records| - i, ok
    {
      ReplaySnoc(ZERO, events[..i], events[i]);
      assert events[..i + 1] == events[..i] + [events[i]];
      var e := Decode(c, records[i].data);
      if e.None? {
        ok := false;
      } else {
        ok := a.On(e.value);
        i := i + 1;
      }
    }
    assert events[..|events|] == events;
    if ok {
      a.AfterOn();
    }
  }

  lemma StoredGapless(n: int, id: string, c: Codec, p: seq<Record>, log: seq<Event>)
    requires n > 0 && LogComplete(n, id, log) && Stores(c, p, log)
    ensures Gapless(p)
  {
    forall i | 0 <= i < |p| ensures p[i].version == i + 1 {
      assert RecordOk(n, id, log, i);
    }
  }

  /** The store takes a save prepared from some prefix exactly when that was the whole log. */
  lemma OnlyNextAccepted(p: seq<Record>, records: seq<Record>, base: nat)
    requires Gapless(p) && Follows(records, base) && records != [] && base <= |p|
    ensures Accepts(p, records) <==> base == |p|
    ensures base == |p| ==> InsertAll(p, records) == p + records
  {
    if base == |p| {
      InsertAllAppends(p, records);
    } else {
      assert p[base].version == records[0].version;
    }
  }

  lemma Alone(n: int, c: Codec, b: Book, w: Work, seen: Order)
    requires n > 0 && seen == Load(n, Get(b.logs, w.command.id))
    ensures AfterAll(n, c, b, []) == b
    ensures AfterWork(n, c, b, w) == if Passes(w, seen) then SettledLate(n, c, b, w, seen, []) else b
  {
  }

  lemma ConsistentLog(n: int, c: Codec, partitions: map<string, seq<Record>>, logs: map<string, seq<Event>>, id: string)
    requires n > 0 && Consistent(n, c, partitions, logs)
    ensures LogComplete(n, id, Get(logs, id))
  {
  }

  lemma StoresConcat(c: Codec, p: seq<Record>, log: seq<Event>, q: seq<Record>, more: seq<Event>)
    requires Stores(c, p, log) && Stores(c, q, more)
    ensures Stores(c, p + q, log + more)
  {
  }

  method EncodeAll(c: Codec, events: seq<Event>) returns (ok: bool, records: seq<Record>)
    requires Sound(c)
    ensures ok <==> AllMarshal(c, events)
    ensures ok ==> Stores(c, records, events)
  {
    records := [];
    var i := 0;
    ok := true;
    while ok && i < |events|
      invariant i <= |events| && Stores(c, records, events[..i])
      invariant forall j :: 0 <= j < i ==> c.marshal(events[j]).Some?
      invariant !ok ==> i < |events| && c.marshal(events[i]).None?
      decreases |events| - i, ok
    {
      var data := Encode(c, events[i]);
      if data.None? {
        ok := false;
      } else {
        EncodedCarries(c, events[i]);
        CarriesDecodes(c, data.value, events[i]);
        records := records + [Record(events[i].version, data.value)];
        i := i + 1;
      }
    }
  }

  lemma LoadVersion(n: int, id: string, log: seq<Event>)
    requires n > 0 && LogComplete(n, id, log)
    ensures Load(n, log).version == |log|
  {
    LoadIsFullReplay(n, id, log);
  }

  lemma LoadNothing(n: int)
    requires n >= 0
    ensures Load(n, []) == ZERO
  {
  }

  lemma EmittedHandled(n: int, c: Command, o: Order, clock: Clock)
    requires n > 0
    ensures forall i :: 0 <= i < |EmitEvents(n, c, o, clock)| ==> Handled(EmitEvents(n, c, o, clock)[i])
  {
  }
}
