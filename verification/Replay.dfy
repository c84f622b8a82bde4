/**
 Logs, the snapshots in them, and loading only their tail.

 `Load` is what the repository computes: replay the last n records from a fresh
 aggregate, then derive. `Meaning` is what an event-sourced aggregate means: replay the
 domain events alone. The theorems say that the two agree on every log that commands
 produce, and on every prefix of it.
 */
module Replays {
  import opened Machine
  import opened OrderModel
  import opened Listing

  const SNAPSHOT_EVERY: int := 50

  /** The aggregate `Apply` works on: a fresh one when there is nothing to load. */
  ghost function Load(n: int, log: seq<Event>): Order
    requires n >= 0
  {
    if log == [] then ZERO else AfterOn(Replay(ZERO, Tail(log, n)))
  }

  // ---------------------------------------------------------------- running commands one by one

  datatype Commit = Commit(command: Command, clock: Clock)

  /** The log after a list of commands, each run on what it loads from the log before it. */
  ghost function SerialLog(n: int, commits: seq<Commit>): seq<Event>
    requires n > 0
  {
    if commits == [] then [] else
      var c := commits[|commits| - 1];
      var before := SerialLog(n, commits[..|commits| - 1]);
      before + EmitEvents(n, c.command, Load(n, before), c.clock)
  }

  /** Each command passes the gates when its turn comes, and all address the aggregate `id`. */
  ghost predicate Admitted(n: int, id: string, commits: seq<Commit>)
    requires n > 0
  {
    commits == [] ||
    var m := |commits| - 1;
    && Admitted(n, id, commits[..m])
    && commits[m].command.id == id
    && Admit(commits[m].command.request, Load(n, SerialLog(n, commits[..m]))).Accept?
  }

  // ---------------------------------------------------------------- the shape of such logs

  /** A record other than a snapshot is the event of a command its predecessor state admits. */
  ghost predicate Justified(id: string, before: Order, e: Event) {
    exists c: Command, clock: Clock ::
      c.id == id && Admit(c.request, before).Accept? && e == DomainEvent(c, before.version, clock)
  }

  /** What record `i` of a log must be, given the records before it. */
  ghost predicate RecordOk(n: int, id: string, log: seq<Event>, i: nat)
    requires n > 0 && i < |log|
  {
    var before := AfterOn(Replay(ZERO, log[..i]));
    && log[i].version == i + 1
    && log[i].id == id
    && if i > 0 && i % n == 0
       then log[i].body == Snapshot(before)
       else Justified(id, before, log[i])
  }

  ghost predicate LogOk(n: int, id: string, log: seq<Event>)
    requires n > 0
  {
    forall i :: 0 <= i < |log| ==> RecordOk(n, id, log, i)
  }

  lemma LogOkPrefix(n: int, id: string, log: seq<Event>, k: nat)
    requires n > 0 && LogOk(n, id, log) && k <= |log|
    ensures LogOk(n, id, log[..k])
  {
    forall i | 0 <= i < k ensures RecordOk(n, id, log[..k], i) {
      assert RecordOk(n, id, log, i);
      assert log[..k][..i] == log[..i];
    }
  }

  lemma LogOkExtend(n: int, id: string, log: seq<Event>, e: Event)
    requires n > 0 && LogOk(n, id, log)
    requires RecordOk(n, id, log + [e], |log|)
    ensures LogOk(n, id, log + [e])
  {
    var all := log + [e];
    forall i | 0 <= i < |all| ensures RecordOk(n, id, all, i) {
      if i < |log| {
        assert RecordOk(n, id, log, i);
        assert all[..i] == log[..i];
      }
    }
  }

  lemma ReplayVersion(n: int, id: string, log: seq<Event>)
    requires n > 0 && LogOk(n, id, log)
    ensures Replay(ZERO, log).version == |log|
  {
    if log != [] {
      var m := |log| - 1;
      assert RecordOk(n, id, log, m);
      OnStampsVersion(Replay(ZERO, log[..m]), log[m]);
    }
  }

  // ---------------------------------------------------------------- tail loading

  /** After a snapshot nothing of what was there before is left. */
  lemma SnapshotOverwrites(a: Order, b: Order, e: Event)
    requires e.body.Snapshot?
    ensures On(a, e) == On(b, e)
  {
  }

  lemma ReplayFromSnapshot(a: Order, b: Order, log: seq<Event>, i: nat)
    requires i < |log| && log[i].body.Snapshot?
    ensures Replay(a, log) == Replay(b, log)
  {
    var head, rest := log[..i + 1], log[i + 1..];
    assert log == head + rest;
    assert head[..|head| - 1] == log[..i];
    ReplayConcat(a, head, rest);
    ReplayConcat(b, head, rest);
    SnapshotOverwrites(Replay(a, log[..i]), Replay(b, log[..i]), log[i]);
  }

  /** Among any n consecutive positions one is a multiple of n. */
  lemma WindowHasMultiple(n: int, from: int) returns (i: int)
    requires n > 0 && from > 0
    ensures from <= i < from + n && i % n == 0
  {
    var q := (from - 1) / n + 1;
    i := n * q;
    assert from - 1 == n * (q - 1) + (from - 1) % n;
    assert n * (q - 1) == n * q - n;
    DivModUnique(i, n, q, 0);
  }

  /** Replaying the last n records from nothing is replaying all of them. */
  lemma TailReplaysAll(n: int, id: string, log: seq<Event>)
    requires n > 0 && LogOk(n, id, log)
    ensures Replay(ZERO, Tail(log, n)) == Replay(ZERO, log)
  {
    if |log| > n {
      var from := |log| - n;
      var i := WindowHasMultiple(n, from);
      assert RecordOk(n, id, log, i);
      assert log == log[..from] + log[from..];
      ReplayConcat(ZERO, log[..from], log[from..]);
      ReplayFromSnapshot(ZERO, Replay(ZERO, log[..from]), log[from..], i - from);
    }
  }

  lemma LoadIsFullReplay(n: int, id: string, log: seq<Event>)
    requires n > 0 && LogOk(n, id, log)
    ensures Load(n, log) == AfterOn(Replay(ZERO, log))
    ensures Load(n, log).version == |log|
  {
    TailReplaysAll(n, id, log);
    ReplayVersion(n, id, log);
  }

  /** Applying new events to a loaded aggregate gives what a load of the longer log gives. */
  lemma LoadContinues(n: int, id: string, log: seq<Event>, events: seq<Event>)
    requires n > 0 && LogOk(n, id, log + events)
    ensures AfterOn(Replay(Load(n, log), events)) == Load(n, log + events)
    ensures Load(n, log + events).version == |log| + |events|
  {
    hide LogOk, Load, AfterOn, Replay;
    LogOkPrefix(n, id, log + events, |log|);
    assert (log + events)[..|log|] == log;
    LoadIsFullReplay(n, id, log);
    LoadIsFullReplay(n, id, log + events);
    ReplayConcat(ZERO, log, events);
    AfterOnAbsorbedByReplay(Replay(ZERO, log), events);
  }

  // ---------------------------------------------------------------- commands produce such logs

  lemma NextMod(n: int, x: int)
    requires n >= 2 && x % n == 0
    ensures (x + 1) % n == 1
  {
    DivModUnique(x + 1, n, x / n, 1);
  }

  lemma EmitExtends(n: int, id: string, log: seq<Event>, c: Command, clock: Clock)
    requires n >= 2 && LogOk(n, id, log) && (log == [] || |log| % n != 0)
    requires c.id == id && Admit(c.request, Load(n, log)).Accept?
    ensures var all := log + EmitEvents(n, c, Load(n, log), clock);
            LogOk(n, id, all) && |all| % n != 0
  {
    var o := Load(n, log);
    LoadIsFullReplay(n, id, log);
    var e := DomainEvent(c, o.version, clock);
    var one := log + [e];
    assert one[..|log|] == log;
    assert Justified(id, o, e);
    assert RecordOk(n, id, one, |log|);
    LogOkExtend(n, id, log, e);
    if e.version % n == 0 {
      var s := SnapshotEvent(c.id, On(o, e), clock.snapshotAt);
      var two := one + [s];
      assert two[..|one|] == one;
      AfterOnAbsorbed(Replay(ZERO, log), e);
      OnStampsVersion(o, e);
      assert RecordOk(n, id, two, |one|);
      LogOkExtend(n, id, one, s);
      NextMod(n, |one|);
      assert two == log + EmitEvents(n, c, o, clock);
    }
  }

  /** Every log that admitted commands produce is in shape, for every interval n >= 2. */
  lemma {:induction false} SerialLogOk(n: int, id: string, commits: seq<Commit>)
    requires n >= 2 && Admitted(n, id, commits)
    ensures LogOk(n, id, SerialLog(n, commits))
    ensures commits == [] || |SerialLog(n, commits)| % n != 0
  {
    if commits != [] {
      var m := |commits| - 1;
      SerialLogOk(n, id, commits[..m]);
      EmitExtends(n, id, SerialLog(n, commits[..m]), commits[m].command, commits[m].clock);
    }
  }

  // ---------------------------------------------------------------- snapshot placement

  function SnapshotCount(log: seq<Event>): nat {
    if log == [] then 0
    else SnapshotCount(log[..|log| - 1]) + (if log[|log| - 1].body.Snapshot? then 1 else 0)
  }

  ghost predicate IsSnapshotAt(log: seq<Event>, v: int) {
    1 <= v <= |log| && log[v - 1].body.Snapshot?
  }

  lemma {:induction false} SnapshotsCounted(n: int, id: string, log: seq<Event>)
    requires n >= 2 && LogOk(n, id, log) && |log| >= 1
    ensures SnapshotCount(log) == (|log| - 1) / n
  {
    var m := |log| - 1;
    SnapshotIffMultiple(n, id, log, m);
    if m == 0 {
      assert SnapshotCount(log[..0]) == 0;
      DivModUnique(0, n, 0, 0);
    } else {
      LogOkPrefix(n, id, log, m);
      SnapshotsCounted(n, id, log[..m]);
      DivStep(n, m);
    }
  }

  lemma DivStep(n: int, m: int)
    requires n >= 2 && m >= 1
    ensures m / n == (m - 1) / n + (if m % n == 0 then 1 else 0)
  {
    var q, r := m / n, m % n;
    assert m == n * q + r;
    if r == 0 {
      assert n * (q - 1) == n * q - n;
      DivModUnique(m - 1, n, q - 1, n - 1);
    } else {
      DivModUnique(m - 1, n, q, r - 1);
    }
  }

  lemma SnapshotIffMultiple(n: int, id: string, log: seq<Event>, i: nat)
    requires n >= 2 && LogOk(n, id, log) && i < |log|
    ensures log[i].body.Snapshot? <==> i > 0 && i % n == 0
  {
    assert RecordOk(n, id, log, i);
  }

  lemma ModOneIff(n: int, v: int)
    requires n >= 2
    ensures v % n == 1 <==> (v - 1) % n == 0
  {
    if v % n == 1 {
      DivModUnique(v - 1, n, v / n, 0);
    }
    if (v - 1) % n == 0 {
      NextMod(n, v - 1);
    }
  }

  /**
   Where snapshots are: at version v exactly when v > 1 and v mod n = 1; (V-1) div n of
   them in V records; and in every window of the last n records unless it is everything.
   */
  ghost predicate SnapshotsInPlace(n: int, log: seq<Event>)
    requires n >= 2
  {
    && (forall v :: 1 <= v <= |log| ==> (IsSnapshotAt(log, v) <==> v > 1 && v % n == 1))
    && (log != [] ==> SnapshotCount(log) == (|log| - 1) / n)
    && (|log| <= n || exists i :: 0 <= i < n && Tail(log, n)[i].body.Snapshot?)
  }

  /** Every prefix of every log of admitted commands has its snapshots there. */
  lemma SnapshotPlacement(n: int, id: string, commits: seq<Commit>, k: nat)
    requires n >= 2 && Admitted(n, id, commits) && k <= |SerialLog(n, commits)|
    ensures SnapshotsInPlace(n, SerialLog(n, commits)[..k])
  {
    SerialLogOk(n, id, commits);
    LogOkPrefix(n, id, SerialLog(n, commits), k);
    PlacementIn(n, id, SerialLog(n, commits)[..k]);
  }

  lemma PlacementIn(n: int, id: string, log: seq<Event>)
    requires n >= 2 && LogOk(n, id, log)
    ensures SnapshotsInPlace(n, log)
  {
    forall v | 1 <= v <= |log| ensures IsSnapshotAt(log, v) <==> v > 1 && v % n == 1 {
      SnapshotIffMultiple(n, id, log, v - 1);
      ModOneIff(n, v);
    }
    if log != [] {
      SnapshotsCounted(n, id, log);
    }
    if |log| > n {
      var from := |log| - n;
      var i := WindowHasMultiple(n, from);
      SnapshotIffMultiple(n, id, log, i);
      assert Tail(log, n)[i - from] == log[i];
    }
  }

  // ---------------------------------------------------------------- what a log means

  /** The domain events of a log, without the snapshots. */
  function DomainEvents(log: seq<Event>): seq<Event> {
    if log == [] then [] else
      var m := |log| - 1;
      DomainEvents(log[..m]) + (if log[m].body.Snapshot? then [] else [log[m]])
  }

  /** The aggregate that a log of events stands for, had snapshots never been invented. */
  ghost function Meaning(log: seq<Event>): Order {
    AfterOn(Replay(ZERO, DomainEvents(log))).(version := |log|)
  }

  lemma AfterOnKeepsVersion(o: Order, v: int)
    ensures AfterOn(o.(version := v)) == AfterOn(o).(version := v)
  {
  }

  lemma OnForgetsVersion(o: Order, v: int, e: Event)
    ensures On(o.(version := v), e) == On(o, e)
  {
  }

  lemma SnapshotRestores(o: Order, e: Event)
    requires e.body == Snapshot(AfterOn(o)) && e.id == o.id
    ensures AfterOn(On(o, e)) == AfterOn(o).(version := e.version)
  {
  }

  lemma {:induction false} ReplayIsMeaning(n: int, id: string, log: seq<Event>)
    requires n >= 2 && LogOk(n, id, log)
    ensures AfterOn(Replay(ZERO, log)) == Meaning(log)
  {
    if log != [] {
      var m := |log| - 1;
      var front, e := log[..m], log[m];
      LogOkPrefix(n, id, log, m);
      ReplayIsMeaning(n, id, front);
      var o, d := Replay(ZERO, front), Replay(ZERO, DomainEvents(front));
      assert RecordOk(n, id, log, m);
      if e.body.Snapshot? {
        SnapshotIffMultiple(n, id, log, m);
        ReplayId(n, id, front);
        SnapshotRestores(o, e);
        assert DomainEvents(log) == DomainEvents(front);
      } else {
        DomainStep(o, d, e, m);
        assert DomainEvents(log)[..|DomainEvents(front)|] == DomainEvents(front);
      }
    }
  }

  /** A domain event takes states that agree up to derived fields and version to such states. */
  lemma DomainStep(o: Order, d: Order, e: Event, v: int)
    requires AfterOn(o) == AfterOn(d).(version := v)
    ensures AfterOn(On(o, e)) == AfterOn(On(d, e)).(version := e.version)
  {
    AfterOnAbsorbed(o, e);
    AfterOnAbsorbed(d, e);
    OnForgetsVersion(AfterOn(d), v, e);
    OnStampsVersion(d, e);
  }

  lemma ReplayId(n: int, id: string, log: seq<Event>)
    requires n > 0 && LogOk(n, id, log) && log != []
    ensures Replay(ZERO, log).id == id
  {
    var m := |log| - 1;
    assert RecordOk(n, id, log, m);
    OnStampsVersion(Replay(ZERO, log[..m]), log[m]);
  }

  /**
   Tail loading preserves meaning. For every prefix of every log that admitted commands
   produce, the aggregate loaded from the last n records is the one all records replay to
   and the one the domain events alone stand for, and its version is the prefix's length.
   */
  lemma TailLoadingPreservesMeaning(n: int, id: string, commits: seq<Commit>, k: nat)
    requires n >= 2 && Admitted(n, id, commits) && k <= |SerialLog(n, commits)|
    ensures var log := SerialLog(n, commits)[..k];
            Load(n, log) == AfterOn(Replay(ZERO, log)) == Meaning(log) && Load(n, log).version == k
  {
    SerialLogOk(n, id, commits);
    LogOkPrefix(n, id, SerialLog(n, commits), k);
    LoadIsFullReplay(n, id, SerialLog(n, commits)[..k]);
    ReplayIsMeaning(n, id, SerialLog(n, commits)[..k]);
  }

  lemma OrderTailLoading(id: string, commits: seq<Commit>, k: nat)
    requires Admitted(SNAPSHOT_EVERY, id, commits) && k <= |SerialLog(SNAPSHOT_EVERY, commits)|
    ensures var log := SerialLog(SNAPSHOT_EVERY, commits)[..k];
            && Load(50, log) == Meaning(log)
            && forall v :: 1 <= v <= k ==> (IsSnapshotAt(log, v) <==> v > 1 && v % 50 == 1)
  {
    TailLoadingPreservesMeaning(SNAPSHOT_EVERY, id, commits, k);
    SnapshotPlacement(SNAPSHOT_EVERY, id, commits, k);
  }

  lemma SerialSnoc(n: int, id: string, commits: seq<Commit>, c: Commit)
    requires n > 0
    ensures var before := SerialLog(n, commits);
            && SerialLog(n, commits + [c]) == before + EmitEvents(n, c.command, Load(n, before), c.clock)
            && (Admitted(n, id, commits + [c]) <==>
                Admitted(n, id, commits) && c.command.id == id && Admit(c.command.request, Load(n, before)).Accept?)
  {
  }

  /** A created order at interval one, and what its two records load to. */
  lemma CreatedAtIntervalOne(c: Commit) returns (log: seq<Event>)
    requires c.command.request.Create?
    ensures Admitted(1, c.command.id, [c]) && SerialLog(1, [c]) == log && |log| == 2
    ensures Load(1, log).state == Replay(ZERO, log).state == Draft && Load(1, log).version == 2
  {
    assert [] + [c] == [c];
    SerialSnoc(1, c.command.id, [], c);
    log := SerialLog(1, [c]);
    var e := DomainEvent(c.command, 0, c.clock);
    var s := SnapshotEvent(c.command.id, On(ZERO, e), c.clock.snapshotAt);
    assert log == [e] + [s];
    assert Tail(log, 1) == [] + [s];
    ReplaySnoc(ZERO, [], s);
    ReplaySnoc(ZERO, [e], s);
  }

  /** At interval one an event without its snapshot is all that is loaded. */
  lemma LoadsOnlyTheLast(before: seq<Event>, e: Event)
    requires before != [] && Replay(ZERO, before).state == Draft && e.body.ShippingSet?
    ensures Load(1, before + [e]).state == Unspecified && AfterOn(Replay(ZERO, before + [e])).state == Draft
  {
    assert Tail(before + [e], 1) == [] + [e];
    ReplaySnoc(ZERO, [], e);
    ReplaySnoc(ZERO, before, e);
  }

  lemma EmitsTwo(c: Command, o: Order, clock: Clock)
    ensures |EmitEvents(1, c, o, clock)| == 2 && EmitEvents(1, c, o, clock)[0] == DomainEvent(c, o.version, clock)
  {
  }

  /**
   Two is the smallest interval with this property. At interval one the prefix that ends
   right before the last snapshot loads only its last event, onto an order that was
   never created.
   */
  lemma IntervalOneLosesPrefixes(id: string, clock: Clock)
    ensures var commits := [Commit(Command(id, "", Create("", "")), clock),
                            Commit(Command(id, "", SetShipping("")), clock)];
            && Admitted(1, id, commits)
            && |SerialLog(1, commits)| == 4
            && Load(1, SerialLog(1, commits)[..3]).state == Unspecified
            && AfterOn(Replay(ZERO, SerialLog(1, commits)[..3])).state == Draft
  {
    hide SerialLog, Admitted, Load, Replay, AfterOn, On, EmitEvents;
    var c0 := Commit(Command(id, "", Create("", "")), clock);
    var c1 := Commit(Command(id, "", SetShipping("")), clock);
    assert [c0] + [c1] == [c0, c1];
    var before := CreatedAtIntervalOne(c0);
    SerialSnoc(1, id, [c0], c1);
    var e := DomainEvent(c1.command, 2, clock);
    EmitsTwo(c1.command, Load(1, before), clock);
    assert SerialLog(1, [c0, c1])[..3] == before + [e];
    LoadsOnlyTheLast(before, e);
  }
}
