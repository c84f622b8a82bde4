/**
 The memory store hands out its own records, and the repository's two readers overwrite
 `Data` of whatever they are handed. Every later reader of the same store sees those writes.
 */
module MemoryStores {
  import opened Machine
  import opened Compression
  import opened OrderModel
  import opened Codecs
  import opened Aggregates

  /** A stored record; `event` is the event it was made from. */
  class StoredRecord {
    const version: int
    var data: Bytes
    ghost const event: Event

    constructor (version: int, data: Bytes, ghost event: Event)
      ensures this.version == version && this.data == data && this.event == event
    {
      this.version := version;
      this.data := data;
      this.event := event;
    }

    /** The bytes decode to the event, and still will once they are decompressed in place. */
    ghost predicate Intact(c: Codec)
      reads this
    {
      version == event.version && Carries(c, data, event)
    }
  }

  class History {
    var records: seq<StoredRecord>

    constructor ()
      ensures records == []
    {
      records := [];
    }
  }

  class MemoryStore {
    var events: map<string, History>

    ghost function Histories(): set<History>
      reads this
    {
      events.Values
    }

    /** No two aggregates share a history. */
    ghost predicate Valid()
      reads this
    {
      forall a, b :: a in events && b in events && a != b ==> events[a] != events[b]
    }

    ghost function Log(id: string): (records: seq<StoredRecord>)
      reads this, Histories()
      ensures forall r :: r in records ==> r in All()
    {
      if id in events then events[id].records else []
    }

    /** Every record in the store. */
    ghost function All(): set<StoredRecord>
      reads this, Histories()
    {
      set id, r | id in events && r in events[id].records :: r
    }

    constructor ()
      ensures Valid() && events == map[]
    {
      events := map[];
    }

    /** Appends, without looking at versions. */
    method Save(id: string, records: seq<StoredRecord>)
      requires Valid()
      modifies this, Histories()
      ensures Valid() && fresh(Histories() - old(Histories()))
      ensures Log(id) == old(Log(id)) + records
      ensures forall other :: other != id ==> Log(other) == old(Log(other))
      ensures forall r :: r in All() ==> r in records || r in old(All())
    {
      if id !in events {
        var h := new History();
        events := events[id := h];
      }
      var history := events[id];
      history.records := history.records + records;
    }

    /** The stored history itself, not a copy; an empty one for an unknown id. */
    method Load(id: string) returns (h: History)
      ensures id in events ==> h == events[id]
      ensures id !in events ==> fresh(h)
      ensures h.records == Log(id)
    {
      if id in events {
        h := events[id];
      } else {
        h := new History();
      }
    }
  }

  /** The events a list of records was made from. */
  ghost function EventsOf(records: seq<StoredRecord>): seq<Event> {
    seq(|records|, i requires 0 <= i < |records| => records[i].event)
  }

  ghost predicate AllIntact(c: Codec, records: set<StoredRecord>)
    reads records
  {
    forall r :: r in records ==> r.Intact(c)
  }

  ghost predicate AllHandled(events: seq<Event>) {
    forall i :: 0 <= i < |events| ==> Handled(events[i])
  }

  /**
   The repository on a memory store. Its log is what was saved; `Valid` says that the bytes
   still decode to it, whatever readers have overwritten in the meantime.
   */
  class MemoryRepository {
    const codec: Codec
    const store: MemoryStore

    ghost function Log(id: string): seq<Event>
      reads store, store.Histories()
    {
      EventsOf(store.Log(id))
    }

    ghost predicate Valid()
      reads this, store, store.Histories(), store.All()
    {
      Sound(codec) && store.Valid() && AllIntact(codec, store.All())
    }

    constructor (codec: Codec)
      requires Sound(codec)
      ensures Valid() && this.codec == codec && fresh(store) && store.events == map[]
    {
      this.codec := codec;
      store := new MemoryStore();
    }

    /** `Save`, under the id of the first event: all events or, when one does not marshal, none. */
    method Save(events: seq<Event>) returns (ok: bool)
      requires Valid()
      modifies store, store.Histories()
      ensures Valid()
      ensures ok <==> forall e :: e in events ==> codec.marshal(e).Some?
      ensures forall id :: Log(id) == old(Log(id)) + if ok && events != [] && id == events[0].id then events else []
      ensures ok && events != [] ==>
                var before, after := old(store.Log(events[0].id)), store.Log(events[0].id);
                && before <= after && HoldsEncoded(codec, after[|before|..], events)
    {
      hide Carries, Sound, Encode, HoldsEncoded, EventsOf;
      ok := true;
      if events != [] {
        var records;
        ok, records := EncodeRecords(codec, events);
        if ok {
          ghost var before := store.Log(events[0].id);
          store.Save(events[0].id, records);
          assert store.Log(events[0].id)[|before|..] == records;
          EventsOfConcat(before, records);
        }
      }
    }

    /** `History`: the stored records, decompressed in place. The log stays what it was. */
    method History(id: string) returns (ok: bool, h: History)
      requires Valid()
      modifies store.Log(id)
      ensures Valid() && (ok <==> id != "")
      ensures ok ==> EventsOf(h.records) == Log(id) && forall r :: r in h.records ==> !IsGzipped(r.data)
    {
      hide Carries, Sound;
      if id == "" {
        ok := false;
        h := new History();
      } else {
        h := store.Load(id);
        ok := DecompressRecords(codec, h.records);
      }
    }

    /**
     `Load`: the replay of what was saved, however often it was loaded or listed before; an
     error when nothing was saved or an event has no case.
     */
    method Load(id: string) returns (o: Option<Order>)
      requires Valid()
      modifies store.Log(id)
      ensures Valid()
      ensures o == Loaded(Log(id))
    {
      hide Carries, Sound, Replay, AfterOn, AllHandled;
      var h := store.Load(id);
      if h.records == [] {
        o := None;
      } else {
        o := ReplayRecords(codec, h.records);
      }
    }
  }

  lemma EventsOfConcat(a: seq<StoredRecord>, b: seq<StoredRecord>)
    ensures EventsOf(a + b) == EventsOf(a) + EventsOf(b)
  {
  }

  /** The bytes stored for each event are its encoding. */
  ghost predicate HoldsEncoded(c: Codec, records: seq<StoredRecord>, events: seq<Event>)
    reads records
  {
    |records| == |events| && forall j :: 0 <= j < |events| ==> Encode(c, events[j]) == Some(records[j].data)
  }

  /** A fresh record for every event, if they all marshal. */
  method EncodeRecords(c: Codec, events: seq<Event>) returns (ok: bool, records: seq<StoredRecord>)
    requires Sound(c)
    ensures ok <==> forall e :: e in events ==> c.marshal(e).Some?
    ensures ok ==> EventsOf(records) == events && HoldsEncoded(c, records, events)
    ensures fresh(records) && forall r :: r in records ==> r.Intact(c)
  {
    records := [];
    var i := 0;
    ok := true;
    while ok && i < |events|
      invariant i <= |events| && fresh(records)
      invariant EventsOf(records) == events[..i] && forall r :: r in records ==> r.Intact(c)
      invariant |records| == i && forall j :: 0 <= j < i ==> Encode(c, events[j]) == Some(records[j].data)
      invariant forall j :: 0 <= j < i ==> c.marshal(events[j]).Some?
      invariant !ok ==> exists e :: e in events && c.marshal(e).None?
      decreases |events| - i, ok
    {
      var data := Encode(c, events[i]);
      if data.None? {
        assert events[i] in events;
        ok := false;
      } else {
        EncodedCarries(c, events[i]);
        var record := new StoredRecord(events[i].version, data.value, events[i]);
        records := records + [record];
        i := i + 1;
      }
    }
  }

  /**
   Decompresses record after record in place; fails on the first that does not decompress,
   which no intact record does.
   */
  method DecompressRecords(c: Codec, records: seq<StoredRecord>) returns (ok: bool)
    requires forall r :: r in records ==> r.Intact(c)
    modifies records
    ensures ok && forall r :: r in records ==> r.Intact(c) && !IsGzipped(r.data)
  {
    var i := 0;
    ok := true;
    while ok && i < |records|
      invariant ok && i <= |records|
      invariant forall r :: r in records ==> r.Intact(c)
      invariant forall j :: 0 <= j < i ==> !IsGzipped(records[j].data)
      decreases |records| - i, ok
    {
      var record := records[i];
      assert record.Intact(c);
      CarriesDecodes(c, record.data, record.event);
      var p := MaybeDecompress(c.gzip, record.data);
      if p.Some? {
        record.data := p.value;
        i := i + 1;
      } else {
        ok := false;
      }
    }
  }

  /** One turn of the loop of `Load`: decompress in place, unmarshal, apply. */
  method LoadRecord(c: Codec, record: StoredRecord, a: Aggregate) returns (ok: bool)
    requires record.Intact(c)
    modifies record, a
    ensures record.Intact(c)
    ensures ok <==> Handled(record.event)
    ensures ok ==> a.value == On(old(a.value), record.event)
  {
    CarriesDecodes(c, record.data, record.event);
    var p := MaybeDecompress(c.gzip, record.data);
    if p.None? {
      return false;
    }
    record.data := p.value;
    var e := c.unmarshal(p.value);
    if e.None? {
      return false;
    }
    ok := a.On(e.value);
  }

  /** Replays the records, up to the first that cannot be applied, and then derives. */
  method ReplayRecords(c: Codec, records: seq<StoredRecord>) returns (o: Option<Order>)
    requires forall r :: r in records ==> r.Intact(c)
    modifies records
    ensures forall r :: r in records ==> r.Intact(c)
    ensures var events := EventsOf(records);
            o == if AllHandled(events) then Some(AfterOn(Replay(ZERO, events))) else None
  {
    hide On, Replay, Carries, AfterOn;
    ghost var events := EventsOf(records);
    var a := new Aggregate();
    var i, ok := 0, true;
    ReplayNothing(ZERO);
    while ok && i < |records|
      invariant i <= |records| && forall r :: r in records ==> r.Intact(c)
      invariant ok ==> AllHandled(events[..i]) && a.value == Replay(ZERO, events[..i])
      invariant !ok ==> i < |records| && !Handled(events[i])
      decreases |records| - i, ok
    {
      ok := LoadRecord(c, records[i], a);
      ReplaySnoc(ZERO, events[..i], events[i]);
      assert events[..i + 1] == events[..i] + [events[i]];
      if ok {
        i := i + 1;
      }
    }
    assert events[..|events|] == events;
    if ok {
      a.AfterOn();
      o := Some(a.value);
    } else {
      o := None;
    }
  }

  // ---------------------------------------------------------------- any number of reads

  datatype Call = LoadCall(id: string) | HistoryCall(id: string)

  /** What a load of a log of decoded events returns. */
  ghost function Loaded(log: seq<Event>): Option<Order> {
    if log != [] && AllHandled(log) then Some(AfterOn(Replay(ZERO, log))) else None
  }

  /**
   Any sequence of `Load` and `History` calls, each overwriting the records it is handed,
   leaves the decoded log of every aggregate as it was, and all loads agree with it.
   */
  method ReadMany(repo: MemoryRepository, calls: seq<Call>) returns (answers: seq<Option<Order>>)
    requires repo.Valid()
    modifies repo.store.All()
    ensures repo.Valid() && forall id :: repo.Log(id) == old(repo.Log(id))
    ensures |answers| == |calls|
    ensures forall i :: 0 <= i < |calls| && calls[i].LoadCall? ==> answers[i] == Loaded(old(repo.Log(calls[i].id)))
  {
    hide Carries, Sound, Replay, AfterOn, AllHandled, EventsOf;
    answers := [];
    for k := 0 to |calls|
      invariant repo.Valid() && |answers| == k
      invariant forall i :: 0 <= i < k && calls[i].LoadCall? ==> answers[i] == Loaded(old(repo.Log(calls[i].id)))
    {
      var o := None;
      match calls[k] {
        case LoadCall(id) =>
          o := repo.Load(id);
        case HistoryCall(id) =>
          var ok, h := repo.History(id);
      }
      answers := answers + [o];
    }
  }
}
