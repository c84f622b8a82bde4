/**
 Many writers, one aggregate, no locks.

 Each writer runs `Apply` as separate steps that interleave with the steps of all the
 others: load, decide, save, materialize, project. A load may see the log as it was at
 any earlier moment, down to a single record, or fail; a save may be lost on its way,
 refused, or succeed without the writer hearing of it; a writer may stop at any point.
 The store does one thing for them: it writes the records of one save together, and only
 when none of their versions exists.

 A run is a list of actions. An action that is not enabled changes nothing.
 */
module Protocol {
  import opened Machine
  import opened OrderModel
  import opened Listing
  import opened Replays
  import opened OrderSafety

  datatype Phase =
    | Idle
    | Loaded(command: Command, order: Order)
    | Saving(command: Command, order: Order, clock: Clock)
    | Saved(order: Order, events: seq<Event>)
    | Projecting(order: Order)

  datatype Answer = Answer(command: Command, seen: int, verdict: Verdict)

  /**
   `records` is the conditional store, `view` and `summary` are the materialized items.
   `commits`, `answers` and `offered` only record what happened: the saves that took
   effect in the order they did, the commands answered without a save, and the
   aggregates handed to SaveAggregate.
   */
  datatype System = System(
    records: map<int, Event>, writers: map<nat, Phase>,
    view: Option<Order>, summary: Option<OrderSummary>,
    commits: seq<Commit>, answers: seq<Answer>, offered: seq<Order>)

  datatype Action =
    | ReadLog(w: nat, command: Command, upTo: nat)
    | FailToRead(w: nat, command: Command)
    | Decide(w: nat, clock: Clock)
    | Write(w: nat, delivered: bool, acknowledged: bool)
    | Materialize(w: nat, stored: bool)
    | Project(w: nat, stored: bool)
    | Stop(w: nat)

  const START: System := System(map[], map[], None, None, [], [], [])

  function PhaseOf(s: System, w: nat): Phase {
    if w in s.writers then s.writers[w] else Idle
  }

  function Enter(s: System, w: nat, p: Phase): System {
    s.(writers := s.writers[w := p])
  }

  /** The condition of every put of a save: its version is not there yet. */
  ghost predicate NoneExists(records: map<int, Event>, events: seq<Event>) {
    forall i :: 0 <= i < |events| ==> events[i].version !in records
  }

  /** One transaction: every record under its version. */
  ghost function WriteAll(records: map<int, Event>, events: seq<Event>): map<int, Event> {
    if events == [] then records else
      var m := |events| - 1;
      WriteAll(records, events[..m])[events[m].version := events[m]]
  }

  ghost function Step(n: int, id: string, s: System, a: Action): System
    requires n > 0
  {
    var p := PhaseOf(s, a.w);
    match a
    case ReadLog(w, c, upTo) =>
      if p.Idle? && c.id == id then Enter(s, w, Loaded(c, Load(n, Records(s.records, upTo)))) else s
    case FailToRead(w, c) =>
      if p.Idle? && c.id == id then Enter(s, w, Loaded(c, ZERO)) else s
    case Decide(w, clock) =>
      if !p.Loaded? then s else
        var v := Admit(p.command.request, p.order);
        if v.Accept? then Enter(s, w, Saving(p.command, p.order, clock))
        else Enter(s, w, Idle).(answers := s.answers + [Answer(p.command, p.order.version, v)])
    case Write(w, delivered, acknowledged) =>
      if !p.Saving? then s else
        var events := EmitEvents(n, p.command, p.order, p.clock);
        if delivered && NoneExists(s.records, events) then
          Enter(s, w, if acknowledged then Saved(p.order, events) else Idle)
            .(records := WriteAll(s.records, events), commits := s.commits + [Commit(p.command, p.clock)])
        else Enter(s, w, Idle)
    case Materialize(w, stored) =>
      if !p.Saved? then s else
        var o := AfterOn(Replay(p.order, p.events));
        Enter(s, w, Projecting(o)).(offered := s.offered + [o], view := if stored then Some(o) else s.view)
    case Project(w, stored) =>
      if !p.Projecting? then s else
        Enter(s, w, Idle).(summary := if stored then Some(Summarize(p.order)) else s.summary)
    case Stop(w) => Enter(s, w, Idle)
  }

  ghost function Run(n: int, id: string, actions: seq<Action>): System
    requires n > 0
  {
    if actions == [] then START
    else Step(n, id, Run(n, id, actions[..|actions| - 1]), actions[|actions| - 1])
  }

  /** The log of a system, as its committed commands wrote it. */
  ghost function LogOf(n: int, s: System): seq<Event>
    requires n > 0
  {
    SerialLog(n, s.commits)
  }

  // ---------------------------------------------------------------- the invariant

  /** `o` is what loading some prefix of the log gives: the prefix as long as its version. */
  ghost predicate LoadedFrom(n: int, log: seq<Event>, o: Order)
    requires n > 0
  {
    0 <= o.version <= |log| && o == Load(n, log[..o.version])
  }

  ghost predicate PhaseOk(n: int, id: string, log: seq<Event>, p: Phase)
    requires n > 0
  {
    match p
    case Idle => true
    case Loaded(c, o) => c.id == id && LoadedFrom(n, log, o)
    case Saving(c, o, _) => c.id == id && LoadedFrom(n, log, o) && Admit(c.request, o).Accept?
    case Saved(o, events) =>
      && LoadedFrom(n, log, o)
      && events != []
      && o.version + |events| <= |log|
      && events == log[o.version..o.version + |events|]
    case Projecting(o) => LoadedFrom(n, log, o) && o.version > 0
  }

  ghost predicate AnswerOk(n: int, log: seq<Event>, a: Answer)
    requires n > 0
  {
    && 0 <= a.seen <= |log|
    && a.verdict == Admit(a.command.request, Load(n, log[..a.seen]))
    && !a.verdict.Accept?
  }

  ghost predicate StoreOk(n: int, id: string, s: System)
    requires n > 0
  {
    Admitted(n, id, s.commits) && Holds(s.records, LogOf(n, s))
  }

  ghost predicate WritersOk(n: int, id: string, s: System)
    requires n > 0
  {
    && (forall w :: w in s.writers ==> PhaseOk(n, id, LogOf(n, s), s.writers[w]))
    && (forall i :: 0 <= i < |s.answers| ==> AnswerOk(n, LogOf(n, s), s.answers[i]))
  }

  ghost predicate ViewsOk(n: int, s: System)
    requires n > 0
  {
    && (forall i :: 0 <= i < |s.offered| ==> s.offered[i].version > 0 && LoadedFrom(n, LogOf(n, s), s.offered[i]))
    && (s.view.Some? ==> s.view.value in s.offered)
    && (s.summary.Some? ==> exists i :: 0 <= i < |s.offered| && s.summary.value == Summarize(s.offered[i]))
    && (forall w :: w in s.writers && s.writers[w].Projecting? ==> s.writers[w].order in s.offered)
  }

  ghost predicate Inv(n: int, id: string, s: System)
    requires n > 0
  {
    StoreOk(n, id, s) && WritersOk(n, id, s) && ViewsOk(n, s)
  }

  // ---------------------------------------------------------------- it is kept by every step

  lemma GrowKeepsPhase(n: int, id: string, log: seq<Event>, more: seq<Event>, p: Phase)
    requires n > 0 && PhaseOk(n, id, log, p)
    ensures PhaseOk(n, id, log + more, p)
  {
    if !p.Idle? {
      assert (log + more)[..p.order.version] == log[..p.order.version];
    }
    if p.Saved? {
      var k, l := p.order.version, |p.events|;
      assert (log + more)[k..k + l] == log[k..k + l];
    }
  }

  lemma GrowKeepsLoaded(n: int, log: seq<Event>, more: seq<Event>, o: Order)
    requires n > 0 && LoadedFrom(n, log, o)
    ensures LoadedFrom(n, log + more, o)
  {
    assert (log + more)[..o.version] == log[..o.version];
  }

  lemma GrowKeepsAnswer(n: int, log: seq<Event>, more: seq<Event>, a: Answer)
    requires n > 0 && AnswerOk(n, log, a)
    ensures AnswerOk(n, log + more, a)
  {
    assert (log + more)[..a.seen] == log[..a.seen];
  }

  lemma {:induction false} WriteAllHolds(records: map<int, Event>, log: seq<Event>, events: seq<Event>)
    requires Holds(records, log)
    requires forall i :: 0 <= i < |events| ==> events[i].version == |log| + 1 + i
    ensures Holds(WriteAll(records, events), log + events)
  {
    if events == [] {
      assert log + events == log;
    } else {
      WriteAllHolds(records, log, events[..|events| - 1]);
    }
  }

  lemma LogOfOk(n: int, id: string, s: System)
    requires n >= 2 && StoreOk(n, id, s)
    ensures LogOk(n, id, LogOf(n, s))
  {
    SerialLogOk(n, id, s.commits);
  }

  /** A read at any moment, cut anywhere, loads some prefix. */
  lemma ReadLoadsPrefix(n: int, id: string, s: System, upTo: nat)
    requires n >= 2 && StoreOk(n, id, s)
    ensures LoadedFrom(n, LogOf(n, s), Load(n, Records(s.records, upTo)))
  {
    hide LogOk, SerialLog, Admitted, Load;
    var log := LogOf(n, s);
    var b := Min(upTo, |log|);
    RecordsArePrefix(s.records, log, upTo);
    LogOfOk(n, id, s);
    LoadedOrderOk(n, id, log, b);
  }

  lemma FreshIsEmptyPrefix(n: int, log: seq<Event>)
    requires n > 0
    ensures LoadedFrom(n, log, ZERO)
  {
  }

  /** The heart of it: a save that is not refused was prepared from the whole log. */
  lemma UnrefusedSaveSawEverything(n: int, id: string, s: System, c: Command, o: Order, clock: Clock)
    requires n > 0 && StoreOk(n, id, s) && LoadedFrom(n, LogOf(n, s), o)
    requires NoneExists(s.records, EmitEvents(n, c, o, clock))
    ensures o.version == |LogOf(n, s)| && o == Load(n, LogOf(n, s))
  {
    hide SerialLog, Admitted, Load;
    var log, events := LogOf(n, s), EmitEvents(n, c, o, clock);
    assert events[0].version == o.version + 1;
    assert log[..|log|] == log;
  }

  lemma CommitExtends(n: int, id: string, s: System, c: Command, o: Order, clock: Clock)
    requires n >= 2 && StoreOk(n, id, s)
    requires PhaseOk(n, id, LogOf(n, s), Saving(c, o, clock))
    requires NoneExists(s.records, EmitEvents(n, c, o, clock))
    ensures var events := EmitEvents(n, c, o, clock);
            var s' := s.(records := WriteAll(s.records, events), commits := s.commits + [Commit(c, clock)]);
            && StoreOk(n, id, s')
            && LogOf(n, s') == LogOf(n, s) + events
            && o.version == |LogOf(n, s)|
  {
    hide Load, EmitEvents;
    UnrefusedSaveSawEverything(n, id, s, c, o, clock);
    SerialSnoc(n, id, s.commits, Commit(c, clock));
    WriteAllHolds(s.records, LogOf(n, s), EmitEvents(n, c, o, clock));
  }

  /** The aggregate that is materialized is the one a load right after the save returns. */
  lemma MaterializedIsLoaded(n: int, id: string, log: seq<Event>, o: Order, events: seq<Event>)
    requires n >= 2 && LogOk(n, id, log) && PhaseOk(n, id, log, Saved(o, events))
    ensures var m := AfterOn(Replay(o, events)); LoadedFrom(n, log, m) && m.version == o.version + |events| > 0
  {
    hide LogOk, Load, AfterOn, Replay;
    var k := o.version;
    var j := k + |events|;
    LogOkPrefix(n, id, log, j);
    assert log[..j] == log[..k] + events;
    LoadContinues(n, id, log[..k], events);
  }

  /** A step that leaves the log alone and moves one writer to a phase that is in order. */
  lemma EnterKeepsWriters(n: int, id: string, s: System, w: nat, p: Phase)
    requires n > 0 && WritersOk(n, id, s) && PhaseOk(n, id, LogOf(n, s), p)
    ensures WritersOk(n, id, Enter(s, w, p))
  {
  }

  lemma EnterKeepsViews(n: int, s: System, w: nat, p: Phase)
    requires n > 0 && ViewsOk(n, s) && (p.Projecting? ==> p.order in s.offered)
    ensures ViewsOk(n, Enter(s, w, p))
  {
  }

  lemma ReadKeepsInv(n: int, id: string, s: System, a: Action)
    requires n >= 2 && Inv(n, id, s) && (a.ReadLog? || a.FailToRead? || a.Stop?)
    ensures Inv(n, id, Step(n, id, s, a))
  {
    hide ViewsOk, WritersOk, LoadedFrom, Load, SerialLog, Admitted;
    var p :=
      if a.ReadLog? then Loaded(a.command, Load(n, Records(s.records, a.upTo)))
      else if a.FailToRead? then Loaded(a.command, ZERO) else Idle;
    if a.ReadLog? {
      ReadLoadsPrefix(n, id, s, a.upTo);
    }
    FreshIsEmptyPrefix(n, LogOf(n, s));
    if p.Idle? || p.command.id == id {
      EnterKeepsWriters(n, id, s, a.w, p);
      EnterKeepsViews(n, s, a.w, p);
    }
  }

  lemma DecideKeepsInv(n: int, id: string, s: System, a: Action)
    requires n >= 2 && Inv(n, id, s) && a.Decide?
    ensures Inv(n, id, Step(n, id, s, a))
  {
    hide ViewsOk, Load, SerialLog, Admitted, Admit;
    var p := PhaseOf(s, a.w);
    if p.Loaded? {
      var v := Admit(p.command.request, p.order);
      var q := if v.Accept? then Saving(p.command, p.order, a.clock) else Idle;
      EnterKeepsWriters(n, id, s, a.w, q);
      EnterKeepsViews(n, s, a.w, q);
      if !v.Accept? {
        AnswersKeepViews(n, Enter(s, a.w, q), s.answers + [Answer(p.command, p.order.version, v)]);
      }
    }
  }

  lemma AnswersKeepViews(n: int, s: System, answers: seq<Answer>)
    requires n > 0 && ViewsOk(n, s)
    ensures ViewsOk(n, s.(answers := answers))
  {
  }

  lemma GrowKeepsWriters(n: int, id: string, s: System, s': System, more: seq<Event>)
    requires n > 0 && WritersOk(n, id, s)
    requires s'.writers == s.writers && s'.answers == s.answers && LogOf(n, s') == LogOf(n, s) + more
    ensures WritersOk(n, id, s')
  {
    hide PhaseOk, AnswerOk, LogOf;
    forall w | w in s'.writers ensures PhaseOk(n, id, LogOf(n, s'), s'.writers[w]) {
      GrowKeepsPhase(n, id, LogOf(n, s), more, s.writers[w]);
    }
    forall i | 0 <= i < |s'.answers| ensures AnswerOk(n, LogOf(n, s'), s'.answers[i]) {
      GrowKeepsAnswer(n, LogOf(n, s), more, s.answers[i]);
    }
  }

  lemma GrowKeepsViews(n: int, s: System, s': System, more: seq<Event>)
    requires n > 0 && ViewsOk(n, s)
    requires s'.writers == s.writers && s'.view == s.view && s'.summary == s.summary && s'.offered == s.offered
    requires LogOf(n, s') == LogOf(n, s) + more
    ensures ViewsOk(n, s')
  {
    hide LoadedFrom, LogOf;
    forall i | 0 <= i < |s.offered| ensures LoadedFrom(n, LogOf(n, s'), s.offered[i]) {
      GrowKeepsLoaded(n, LogOf(n, s), more, s.offered[i]);
    }
  }

  lemma WriteKeepsInv(n: int, id: string, s: System, a: Action)
    requires n >= 2 && Inv(n, id, s) && a.Write?
    ensures Inv(n, id, Step(n, id, s, a))
  {
    hide WritersOk, ViewsOk, Load, SerialLog, Admitted, Admit, EmitEvents, WriteAll, NoneExists;
    var p := PhaseOf(s, a.w);
    if p.Saving? {
      PhaseOfOk(n, id, s, a.w);
      var events := EmitEvents(n, p.command, p.order, p.clock);
      if a.delivered && NoneExists(s.records, events) {
        CommitExtends(n, id, s, p.command, p.order, p.clock);
        var t := s.(records := WriteAll(s.records, events), commits := s.commits + [Commit(p.command, p.clock)]);
        GrowKeepsWriters(n, id, s, t, events);
        GrowKeepsViews(n, s, t, events);
        var q := if a.acknowledged then Saved(p.order, events) else Idle;
        assert LogOf(n, t)[p.order.version..p.order.version + |events|] == events;
        GrowKeepsLoaded(n, LogOf(n, s), events, p.order);
        EnterKeepsWriters(n, id, t, a.w, q);
        EnterKeepsViews(n, t, a.w, q);
        assert Step(n, id, s, a) == Enter(t, a.w, q);
      } else {
        EnterKeepsWriters(n, id, s, a.w, Idle);
        EnterKeepsViews(n, s, a.w, Idle);
      }
    }
  }

  lemma PhaseOfOk(n: int, id: string, s: System, w: nat)
    requires n > 0 && WritersOk(n, id, s)
    ensures PhaseOk(n, id, LogOf(n, s), PhaseOf(s, w))
  {
  }

  lemma MaterializeKeepsInv(n: int, id: string, s: System, a: Action)
    requires n >= 2 && Inv(n, id, s) && a.Materialize?
    ensures Inv(n, id, Step(n, id, s, a))
  {
    hide WritersOk, ViewsOk, LoadedFrom, Load, Replay, AfterOn, SerialLog, Admitted;
    var p := PhaseOf(s, a.w);
    if p.Saved? {
      PhaseOfOk(n, id, s, a.w);
      LogOfOk(n, id, s);
      MaterializedIsLoaded(n, id, LogOf(n, s), p.order, p.events);
      var o := AfterOn(Replay(p.order, p.events));
      OfferKeepsViews(n, s, o, a.stored);
      OfferKeepsWriters(n, id, s, o, a.stored);
      var t := Offer(s, o, a.stored);
      EnterKeepsWriters(n, id, t, a.w, Projecting(o));
      EnterKeepsViews(n, t, a.w, Projecting(o));
    }
  }

  function Offer(s: System, o: Order, stored: bool): System {
    s.(offered := s.offered + [o], view := if stored then Some(o) else s.view)
  }

  lemma OfferKeepsViews(n: int, s: System, o: Order, stored: bool)
    requires n > 0 && ViewsOk(n, s) && LoadedFrom(n, LogOf(n, s), o) && o.version > 0
    ensures ViewsOk(n, Offer(s, o, stored))
  {
    hide LoadedFrom, SerialLog;
    var t := Offer(s, o, stored);
    assert forall x :: x in s.offered ==> x in t.offered;
    assert t.offered[|s.offered|] == o;
    if s.summary.Some? {
      var i :| 0 <= i < |s.offered| && s.summary.value == Summarize(s.offered[i]);
      assert t.offered[i] == s.offered[i];
    }
  }

  lemma OfferKeepsWriters(n: int, id: string, s: System, o: Order, stored: bool)
    requires n > 0 && WritersOk(n, id, s)
    ensures WritersOk(n, id, Offer(s, o, stored))
  {
  }

  lemma ProjectKeepsInv(n: int, id: string, s: System, a: Action)
    requires n >= 2 && Inv(n, id, s) && a.Project?
    ensures Inv(n, id, Step(n, id, s, a))
  {
    hide PhaseOk, AnswerOk, LoadedFrom, SerialLog, Admitted;
    var p := PhaseOf(s, a.w);
    if p.Projecting? {
      EnterKeepsWriters(n, id, s, a.w, Idle) by {
        assert PhaseOk(n, id, LogOf(n, s), Idle) by { IdleOk(n, id, LogOf(n, s)); }
      }
      EnterKeepsViews(n, s, a.w, Idle);
      assert p.order in s.offered;
    }
  }

  lemma IdleOk(n: int, id: string, log: seq<Event>)
    requires n > 0
    ensures PhaseOk(n, id, log, Idle)
  {
  }

  lemma {:induction false} RunKeepsInv(n: int, id: string, actions: seq<Action>)
    requires n >= 2
    ensures Inv(n, id, Run(n, id, actions))
  {
    hide Inv, Step;
    if actions == [] {
      StartOk(n, id);
    } else {
      var m := |actions| - 1;
      var s, a := Run(n, id, actions[..m]), actions[m];
      RunKeepsInv(n, id, actions[..m]);
      match a {
        case ReadLog(_, _, _) => ReadKeepsInv(n, id, s, a);
        case FailToRead(_, _) => ReadKeepsInv(n, id, s, a);
        case Stop(_) => ReadKeepsInv(n, id, s, a);
        case Decide(_, _) => DecideKeepsInv(n, id, s, a);
        case Write(_, _, _) => WriteKeepsInv(n, id, s, a);
        case Materialize(_, _) => MaterializeKeepsInv(n, id, s, a);
        case Project(_, _) => ProjectKeepsInv(n, id, s, a);
      }
    }
  }

  lemma StartOk(n: int, id: string)
    requires n >= 2
    ensures Inv(n, id, START)
  {
  }

  // ---------------------------------------------------------------- serializability

  /** Batch `i` stands in the store behind the log before it, and is what its command emits from that log. */
  ghost predicate BatchSerial(n: int, id: string, s: System, i: nat)
    requires n > 0 && i < |s.commits|
  {
    var c, before := s.commits[i], SerialLog(n, s.commits[..i]);
    var o := AfterOn(Replay(ZERO, before));
    var batch := EmitEvents(n, c.command, o, c.clock);
    && c.command.id == id
    && Admit(c.command.request, o).Accept?
    && o.version == |before|
    && Stored(s.records, |before| + 1, batch)
  }

  ghost predicate Stored(records: map<int, Event>, from: int, batch: seq<Event>) {
    forall j :: 0 <= j < |batch| ==> from + j in records && records[from + j] == batch[j]
  }

  lemma PrefixStored(records: map<int, Event>, log: seq<Event>, before: seq<Event>, batch: seq<Event>)
    requires Holds(records, log) && before + batch <= log
    ensures Stored(records, |before| + 1, batch)
  {
  }

  lemma {:induction false} AdmittedPrefix(n: int, id: string, commits: seq<Commit>, i: nat)
    requires n > 0 && Admitted(n, id, commits) && i <= |commits|
    ensures Admitted(n, id, commits[..i])
    ensures SerialLog(n, commits[..i]) <= SerialLog(n, commits)
    decreases |commits|
  {
    hide Load, EmitEvents, Admit;
    if i == |commits| {
      assert commits[..i] == commits;
    } else {
      var front := commits[..|commits| - 1];
      AdmittedPrefix(n, id, front, i);
      assert front[..i] == commits[..i];
    }
  }

  lemma BatchIsSerial(n: int, id: string, s: System, i: nat)
    requires n >= 2 && StoreOk(n, id, s) && i < |s.commits|
    ensures BatchSerial(n, id, s, i)
  {
    hide Load, EmitEvents, Replay, AfterOn, LogOk, Admit, Holds, SerialLog, Admitted, Stored;
    var front, c := s.commits[..i], s.commits[i];
    AdmittedPrefix(n, id, s.commits, i);
    AdmittedPrefix(n, id, s.commits, i + 1);
    assert s.commits[..i + 1] == front + [c];
    SerialSnoc(n, id, front, c);
    SerialLogOk(n, id, front);
    var before := SerialLog(n, front);
    LoadIsFullReplay(n, id, before);
    PrefixStored(s.records, LogOf(n, s), before, EmitEvents(n, c.command, Load(n, before), c.clock));
  }

  /**
   Serializability without locks. However the steps of any number of writers interleave,
   the store holds exactly the versions 1 to V; they are the log of the committed commands
   run one by one in commit order, each admitted by the full replay of the log before it
   and emitting its batch from it; and a command that was answered without a save got the
   answer that some prefix of that log gives.
   */
  lemma Serializability(n: int, id: string, actions: seq<Action>)
    requires n >= 2
    ensures var s := Run(n, id, actions);
            && Admitted(n, id, s.commits)
            && Holds(s.records, SerialLog(n, s.commits))
            && (forall i :: 0 <= i < |s.commits| ==> BatchSerial(n, id, s, i))
            && (forall i :: 0 <= i < |s.answers| ==> AnswerOk(n, SerialLog(n, s.commits), s.answers[i]))
  {
    hide SerialLog, Admitted, Holds, BatchSerial, AnswerOk, PhaseOk;
    var s := Run(n, id, actions);
    RunKeepsInv(n, id, actions);
    forall i | 0 <= i < |s.commits| ensures BatchSerial(n, id, s, i) {
      BatchIsSerial(n, id, s, i);
    }
  }

  // ---------------------------------------------------------------- materialized views

  /**
   In every concurrent run each aggregate handed to SaveAggregate is what `Load` returns on
   a committed prefix, what is stored is one of them and the stored summary is the summary
   of one of them. The stored aggregate is current exactly when its version is the log's.
   */
  lemma MaterializedViews(n: int, id: string, actions: seq<Action>)
    requires n >= 2
    ensures var s := Run(n, id, actions);
            var log := SerialLog(n, s.commits);
            && (forall i :: 0 <= i < |s.offered| ==> LoadedFrom(n, log, s.offered[i]) && s.offered[i].version > 0)
            && (s.summary.Some? ==> exists i :: 0 <= i < |s.offered| && s.summary.value == Summarize(s.offered[i]))
            && (s.view.Some? ==>
                 && s.view.value in s.offered
                 && (s.view.value == Load(n, log) <==> s.view.value.version == |log|))
  {
    hide LoadedFrom, SerialLog, Load, LogOk;
    var s := Run(n, id, actions);
    var log := SerialLog(n, s.commits);
    RunKeepsInv(n, id, actions);
    if s.view.Some? {
      LogOfOk(n, id, s);
      assert LoadedFrom(n, log, s.view.value);
      CurrentIffSameVersion(n, id, log, s.view.value);
    }
  }

  lemma CurrentIffSameVersion(n: int, id: string, log: seq<Event>, o: Order)
    requires n >= 2 && LogOk(n, id, log) && LoadedFrom(n, log, o)
    ensures o == Load(n, log) <==> o.version == |log|
  {
    hide Load, LogOk;
    LoadIsFullReplay(n, id, log);
    assert log[..|log|] == log;
  }

  /** Commands one after the other, each run to its end, with every write stored. */
  ghost function Sequential(n: int, id: string, requests: seq<Commit>): seq<Action>
    requires n > 0
  {
    if requests == [] then [] else
      var m := |requests| - 1;
      var before := Sequential(n, id, requests[..m]);
      before + OneByOne(requests[m], |LogOf(n, Run(n, id, before))|)
  }

  function OneByOne(r: Commit, seen: nat): seq<Action> {
    [ReadLog(0, r.command, seen), Decide(0, r.clock), Write(0, true, true), Materialize(0, true), Project(0, true)]
  }

  ghost predicate UpToDate(n: int, s: System)
    requires n > 0
  {
    var log := LogOf(n, s);
    && PhaseOf(s, 0).Idle?
    && s.view == (if log == [] then None else Some(Load(n, log)))
    && s.summary == (if log == [] then None else Some(Summarize(Load(n, log))))
  }

  lemma RunSnoc(n: int, id: string, actions: seq<Action>, a: Action)
    requires n > 0
    ensures Run(n, id, actions + [a]) == Step(n, id, Run(n, id, actions), a)
  {
  }

  /** The five steps of one `Apply` that nobody interrupts. */
  ghost function Uninterrupted(n: int, id: string, s: System, r: Commit, seen: nat): System
    requires n > 0
  {
    var loaded := Step(n, id, s, ReadLog(0, r.command, seen));
    var decided := Step(n, id, loaded, Decide(0, r.clock));
    var saved := Step(n, id, decided, Write(0, true, true));
    var viewed := Step(n, id, saved, Materialize(0, true));
    Step(n, id, viewed, Project(0, true))
  }

  lemma RunUninterrupted(n: int, id: string, before: seq<Action>, r: Commit, seen: nat)
    requires n > 0
    ensures Run(n, id, before + OneByOne(r, seen)) == Uninterrupted(n, id, Run(n, id, before), r, seen)
  {
    hide Step, Run;
    var a := OneByOne(r, seen);
    var b1, b2, b3, b4 := before + a[..1], before + a[..2], before + a[..3], before + a[..4];
    RunSnoc(n, id, before, a[0]);
    assert b1 == before + [a[0]];
    RunSnoc(n, id, b1, a[1]);
    assert b2 == b1 + [a[1]];
    RunSnoc(n, id, b2, a[2]);
    assert b3 == b2 + [a[2]];
    RunSnoc(n, id, b3, a[3]);
    assert b4 == b3 + [a[3]];
    RunSnoc(n, id, b4, a[4]);
    assert before + a == b4 + [a[4]];
  }

  lemma NextVersionsAreFree(n: int, id: string, s: System, c: Command, o: Order, clock: Clock)
    requires n > 0 && StoreOk(n, id, s) && o.version == |LogOf(n, s)|
    ensures NoneExists(s.records, EmitEvents(n, c, o, clock))
  {
  }

  lemma ReadEverything(n: int, id: string, s: System)
    requires n >= 2 && StoreOk(n, id, s)
    ensures var log := LogOf(n, s);
            Records(s.records, |log|) == log && LoadedFrom(n, log, Load(n, log)) && Load(n, log).version == |log|
  {
    hide Load, LogOk, SerialLog, Admitted;
    var log := LogOf(n, s);
    RecordsArePrefix(s.records, log, |log|);
    LogOfOk(n, id, s);
    LoadIsFullReplay(n, id, log);
    assert log[..|log|] == log;
  }

  lemma UninterruptedRejected(n: int, id: string, s: System, r: Commit)
    requires n >= 2 && Inv(n, id, s) && UpToDate(n, s)
    requires r.command.id != id || !Admit(r.command.request, Load(n, LogOf(n, s))).Accept?
    ensures UpToDate(n, Uninterrupted(n, id, s, r, |LogOf(n, s)|))
  {
    hide Load, SerialLog, Admitted, Admit, Holds, WritersOk, ViewsOk, LoadedFrom;
    ReadEverything(n, id, s);
  }

  lemma UninterruptedAccepted(n: int, id: string, s: System, r: Commit)
    requires n >= 2 && Inv(n, id, s) && UpToDate(n, s)
    requires r.command.id == id && Admit(r.command.request, Load(n, LogOf(n, s))).Accept?
    ensures UpToDate(n, Uninterrupted(n, id, s, r, |LogOf(n, s)|))
  {
    hide Load, SerialLog, Admitted, Admit, WritersOk, ViewsOk, EmitEvents, WriteAll, NoneExists, Replay, AfterOn, LogOk;
    var log := LogOf(n, s);
    var o := Load(n, log);
    ReadEverything(n, id, s);
    NextVersionsAreFree(n, id, s, r.command, o, r.clock);
    CommitExtends(n, id, s, r.command, o, r.clock);
    var events := EmitEvents(n, r.command, o, r.clock);
    var t := s.(records := WriteAll(s.records, events), commits := s.commits + [r]);
    GrowKeepsLoaded(n, log, events, o);
    assert (log + events)[|log|..|log| + |events|] == events;
    LogOfOk(n, id, t);
    MaterializedIsLoaded(n, id, log + events, o, events);
    CurrentIffSameVersion(n, id, log + events, AfterOn(Replay(o, events)));
  }

  /** A command that does not pass is answered with its verdict and leaves no other trace. */
  lemma RefusedIsAnswered(n: int, id: string, s: System, w: nat, clock: Clock)
    requires n > 0 && PhaseOf(s, w).Loaded?
    requires !Admit(PhaseOf(s, w).command.request, PhaseOf(s, w).order).Accept?
    ensures var p, t := PhaseOf(s, w), Step(n, id, s, Decide(w, clock));
            && |t.answers| == |s.answers| + 1 && t.answers[..|s.answers|] == s.answers
            && t.answers[|s.answers|].command == p.command && t.answers[|s.answers|].seen == p.order.version
            && t.answers[|s.answers|].verdict == Admit(p.command.request, p.order)
            && PhaseOf(t, w).Idle? && t.records == s.records && t.commits == s.commits
            && t.view == s.view && t.summary == s.summary
  {
    hide Admit, Load;
  }

  /** In a sequential run the stored aggregate and summary are those of the whole log. */
  lemma {:induction false} SequentialViewsAreCurrent(n: int, id: string, requests: seq<Commit>)
    requires n >= 2
    ensures UpToDate(n, Run(n, id, Sequential(n, id, requests)))
  {
    hide Inv, UpToDate, Uninterrupted, Admit, Run;
    if requests == [] {
      SequentialStart(n, id);
    } else {
      var m := |requests| - 1;
      var before := Sequential(n, id, requests[..m]);
      var s := Run(n, id, before);
      SequentialViewsAreCurrent(n, id, requests[..m]);
      RunKeepsInv(n, id, before);
      RunUninterrupted(n, id, before, requests[m], |LogOf(n, s)|);
      if requests[m].command.id == id && Admit(requests[m].command.request, Load(n, LogOf(n, s))).Accept? {
        UninterruptedAccepted(n, id, s, requests[m]);
      } else {
        UninterruptedRejected(n, id, s, requests[m]);
      }
    }
  }

  lemma SequentialStart(n: int, id: string)
    requires n > 0
    ensures UpToDate(n, Run(n, id, []))
  {
  }
}
