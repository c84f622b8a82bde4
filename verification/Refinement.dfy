/**
 Calls of `Apply` over bytes are runs of the protocol. What a repository keeps for an
 aggregate is, at every moment, the state of some run of `Protocol`, so that everything
 proved of runs holds of the repository.
 */
module Refinement {
  import opened Machine
  import opened OrderModel
  import opened Listing
  import opened Replays
  import opened Protocol
  import opened OrderRuns
  import opened Codecs
  import opened ConditionalStores
  import opened Repositories
  import Paging

  function Lookup<T>(m: map<string, T>, id: string): Option<T> {
    if id in m then Some(m[id]) else None
  }

  /** The system is what the book holds for the aggregate `id`. */
  ghost predicate Mirrors(n: int, id: string, b: Book, s: System)
    requires n > 0
  {
    && LogOf(n, s) == Get(b.logs, id)
    && s.view == Lookup(b.views, id)
    && s.summary == Lookup(b.summaries, id)
  }

  /** No writer but `p` has moved. */
  ghost predicate OthersKept(s: System, t: System, p: nat) {
    forall q: nat :: q != p ==> PhaseOf(t, q) == PhaseOf(s, q)
  }

  // ---------------------------------------------------------------- the two halves of a call

  /** Load and decide. */
  function Begin(p: nat, w: Work, failed: bool, length: nat): seq<Action> {
    [if failed then FailToRead(p, w.command) else ReadLog(p, w.command, length), Decide(p, w.clock)]
  }

  ghost function Store(n: int, c: Codec, p: nat, w: Work, seen: Order): Action
    requires n > 0
  {
    var arrives := !w.delivery.Lost? && AllMarshal(c, EmitEvents(n, w.command, seen, w.clock));
    Write(p, arrives, w.delivery.Delivered?)
  }

  function Publish(p: nat, w: Work): seq<Action> {
    [Materialize(p, w.viewStored), Project(p, w.summaryStored)]
  }

  lemma BeginSteps(n: int, id: string, before: seq<Action>, p: nat, w: Work, failed: bool)
    requires n >= 2 && w.command.id == id && PhaseOf(Run(n, id, before), p).Idle?
    ensures var s := Run(n, id, before);
            var seen := if failed then ZERO else Load(n, LogOf(n, s));
            var t := Run(n, id, before + Begin(p, w, failed, |LogOf(n, s)|));
            && LogOf(n, t) == LogOf(n, s) && t.view == s.view && t.summary == s.summary
            && OthersKept(s, t, p)
            && PhaseOf(t, p) == if Admit(w.command.request, seen).Accept?
                                then Saving(w.command, seen, w.clock) else Idle
  {
    hide Load, Admit, Run, SerialLog, Inv;
    var s := Run(n, id, before);
    var a := Begin(p, w, failed, |LogOf(n, s)|);
    RunSnoc(n, id, before, a[0]);
    RunSnoc(n, id, before + [a[0]], a[1]);
    assert before + a == before + [a[0]] + [a[1]];
    RunKeepsInv(n, id, before);
    assert StoreOk(n, id, s) by { InvStore(n, id, s); }
    ReadEverything(n, id, s);
  }

  lemma InvStore(n: int, id: string, s: System)
    requires n > 0 && Inv(n, id, s)
    ensures StoreOk(n, id, s) && WritersOk(n, id, s)
  {
  }

  /** The events a writer has saved and is going to publish. */
  ghost function Prepared(n: int, w: Work, seen: Order): seq<Event>
    requires n > 0
  {
    EmitEvents(n, w.command, seen, w.clock)
  }

  lemma StoreRefused(n: int, id: string, s: System, c: Codec, p: nat, w: Work, b: Book, seen: Order)
    requires n >= 2 && w.command.id == id && Mirrors(n, id, b, s) && StoreOk(n, id, s)
    requires PhaseOf(s, p) == Saving(w.command, seen, w.clock) && LoadedFrom(n, LogOf(n, s), seen)
    requires !Applied(n, c, b, w, seen)
    ensures var t := Step(n, id, s, Store(n, c, p, w, seen));
            Mirrors(n, id, b, t) && PhaseOf(t, p).Idle? && OthersKept(s, t, p)
  {
    hide Load, SerialLog, EmitEvents, AllMarshal, LoadedFrom, StoreOk, NoneExists, WriteAll;
    if NoneExists(s.records, EmitEvents(n, w.command, seen, w.clock)) {
      UnrefusedSaveSawEverything(n, id, s, w.command, seen, w.clock);
    }
  }

  lemma StoreApplied(n: int, id: string, s: System, c: Codec, p: nat, w: Work, b: Book, seen: Order)
    requires n >= 2 && w.command.id == id && Mirrors(n, id, b, s) && StoreOk(n, id, s)
    requires PhaseOk(n, id, LogOf(n, s), Saving(w.command, seen, w.clock))
    requires PhaseOf(s, p) == Saving(w.command, seen, w.clock)
    requires Applied(n, c, b, w, seen)
    ensures var t := Step(n, id, s, Store(n, c, p, w, seen));
            && Mirrors(n, id, AfterSave(n, c, b, w, seen), t) && OthersKept(s, t, p)
            && PhaseOf(t, p) == if w.delivery.Delivered? then Protocol.Saved(seen, Prepared(n, w, seen)) else Idle
  {
    hide Load, SerialLog, EmitEvents, AllMarshal, StoreOk, NoneExists, WriteAll, Replay, AfterOn, Admit, LogOk;
    LogOfOk(n, id, s);
    LoadIsFullReplay(n, id, LogOf(n, s));
    NextVersionsAreFree(n, id, s, w.command, seen, w.clock);
    CommitExtends(n, id, s, w.command, seen, w.clock);
  }

  /** A writer about to save on a load of any prefix saves as the call does. */
  lemma StoreStep(n: int, id: string, before: seq<Action>, c: Codec, p: nat, w: Work, b: Book, seen: Order)
    requires n >= 2 && w.command.id == id && Mirrors(n, id, b, Run(n, id, before))
    requires PhaseOf(Run(n, id, before), p) == Saving(w.command, seen, w.clock)
    ensures var s, t := Run(n, id, before), Run(n, id, before + [Store(n, c, p, w, seen)]);
            && Mirrors(n, id, AfterSave(n, c, b, w, seen), t) && OthersKept(s, t, p)
            && PhaseOf(t, p) == if Acknowledged(n, c, b, w, seen)
                                then Protocol.Saved(seen, Prepared(n, w, seen)) else Idle
  {
    hide Load, Run, Step, Applied, Mirrors, Inv, StoreOk, WritersOk, OthersKept, LogOf, Admit, Prepared;
    var s := Run(n, id, before);
    RunSnoc(n, id, before, Store(n, c, p, w, seen));
    RunKeepsInv(n, id, before);
    InvStore(n, id, s);
    PhaseOfOk(n, id, s, p);
    if Applied(n, c, b, w, seen) {
      StoreApplied(n, id, s, c, p, w, b, seen);
    } else {
      StoreRefused(n, id, s, c, p, w, b, seen);
    }
  }

  /** What is published is what a load right after the save returns. */
  lemma PublishedIsLoaded(n: int, id: string, before: seq<Action>, c: Codec, p: nat, w: Work, b: Book, seen: Order)
    requires n >= 2 && w.command.id == id && Mirrors(n, id, AfterSave(n, c, b, w, seen), Run(n, id, before))
    requires Applied(n, c, b, w, seen)
    ensures AfterOn(Replay(seen, Prepared(n, w, seen))) == Resulting(n, c, b, w, seen)
  {
    hide Load, Run, LogOk, EmitEvents, AllMarshal, Replay, AfterOn, LogOf;
    RunLogOk(n, id, before);
    LoadContinues(n, id, Get(b.logs, id), Prepared(n, w, seen));
  }

  /** Whoever came in between, a writer that has saved publishes what it has. */
  lemma PublishSteps(n: int, id: string, before: seq<Action>, p: nat, w: Work, b: Book, seen: Order, events: seq<Event>)
    requires n >= 2 && w.command.id == id && Mirrors(n, id, b, Run(n, id, before))
    requires PhaseOf(Run(n, id, before), p) == Protocol.Saved(seen, events)
    ensures var s, t := Run(n, id, before), Run(n, id, before + Publish(p, w));
            && Mirrors(n, id, Published(b, w, AfterOn(Replay(seen, events))), t)
            && OthersKept(s, t, p) && PhaseOf(t, p).Idle?
  {
    hide Run, Replay, AfterOn, SerialLog;
    var a := Publish(p, w);
    RunSnoc(n, id, before, a[0]);
    RunSnoc(n, id, before + [a[0]], a[1]);
    assert before + a == before + [a[0]] + [a[1]];
  }

  /** Save and publish, one right behind the other. */
  ghost function Finish(n: int, c: Codec, p: nat, b: Book, w: Work, seen: Order): seq<Action>
    requires n > 0
  {
    [Store(n, c, p, w, seen)] + if Acknowledged(n, c, b, w, seen) then Publish(p, w) else []
  }

  lemma FinishSteps(n: int, id: string, before: seq<Action>, c: Codec, p: nat, w: Work, b: Book, seen: Order)
    requires n >= 2 && w.command.id == id && Mirrors(n, id, b, Run(n, id, before))
    requires PhaseOf(Run(n, id, before), p) == Saving(w.command, seen, w.clock)
    ensures var s, t := Run(n, id, before), Run(n, id, before + Finish(n, c, p, b, w, seen));
            Mirrors(n, id, Settled(n, c, b, w, seen), t) && PhaseOf(t, p).Idle? && OthersKept(s, t, p)
  {
    hide Run, Store, Publish, AfterSave, Resulting, Prepared, Applied, Mirrors, Replay, AfterOn;
    var stored := before + [Store(n, c, p, w, seen)];
    StoreStep(n, id, before, c, p, w, b, seen);
    if Acknowledged(n, c, b, w, seen) {
      PublishedIsLoaded(n, id, stored, c, p, w, b, seen);
      PublishSteps(n, id, stored, p, w, AfterSave(n, c, b, w, seen), seen, Prepared(n, w, seen));
      assert stored + Publish(p, w) == before + Finish(n, c, p, b, w, seen);
    } else {
      assert stored == before + Finish(n, c, p, b, w, seen);
    }
  }

  // ---------------------------------------------------------------- whole calls

  /** The protocol steps, for the aggregate `id`, of a call with nobody in between. */
  ghost function StepsOf(n: int, c: Codec, id: string, p: nat, b: Book, w: Work): seq<Action>
    requires n > 0
  {
    if w.command.id != id then [] else
      var log := Get(b.logs, id);
      var seen := Load(n, log);
      Begin(p, w, false, |log|) + if Admit(w.command.request, seen).Accept? then Finish(n, c, p, b, w, seen) else []
  }

  lemma WorkSteps(n: int, c: Codec, id: string, before: seq<Action>, p: nat, b: Book, w: Work)
    requires n >= 2 && id != "" && Mirrors(n, id, b, Run(n, id, before)) && PhaseOf(Run(n, id, before), p).Idle?
    ensures var s, t := Run(n, id, before), Run(n, id, before + StepsOf(n, c, id, p, b, w));
            && Mirrors(n, id, AfterWork(n, c, b, w), t)
            && PhaseOf(t, p).Idle? && OthersKept(s, t, p)
  {
    hide Load, Run, Settled, Admit, Finish, Begin;
    if w.command.id != id {
      assert before + [] == before;
      OtherWork(n, c, id, b, w);
    } else {
      var log := Get(b.logs, id);
      var seen, begin := Load(n, log), Begin(p, w, false, |log|);
      BeginSteps(n, id, before, p, w, false);
      if Admit(w.command.request, seen).Accept? {
        FinishSteps(n, id, before + begin, c, p, w, b, seen);
        assert before + begin + Finish(n, c, p, b, w, seen) == before + StepsOf(n, c, id, p, b, w);
      } else {
        assert begin + [] == begin;
      }
    }
  }

  /** Work on another aggregate. */
  lemma OtherWork(n: int, c: Codec, id: string, b: Book, w: Work)
    requires n > 0 && w.command.id != id
    ensures var after := AfterWork(n, c, b, w);
            && Get(after.logs, id) == Get(b.logs, id)
            && Lookup(after.views, id) == Lookup(b.views, id)
            && Lookup(after.summaries, id) == Lookup(b.summaries, id)
  {
    hide Load, Admit, EmitEvents, AllMarshal;
  }

  /** The steps of writer 0, who does the work that falls between a load and a save of writer 1. */
  ghost function ActionsOf(n: int, c: Codec, id: string, b: Book, works: seq<Work>): seq<Action>
    requires n > 0
  {
    if works == [] then [] else
      var m := |works| - 1;
      ActionsOf(n, c, id, b, works[..m]) + StepsOf(n, c, id, 0, AfterAll(n, c, b, works[..m]), works[m])
  }

  lemma {:induction false} WorksSteps(n: int, c: Codec, id: string, before: seq<Action>, b: Book, works: seq<Work>)
    requires n >= 2 && id != "" && Mirrors(n, id, b, Run(n, id, before)) && PhaseOf(Run(n, id, before), 0).Idle?
    ensures var s, t := Run(n, id, before), Run(n, id, before + ActionsOf(n, c, id, b, works));
            && Mirrors(n, id, AfterAll(n, c, b, works), t)
            && PhaseOf(t, 0).Idle? && OthersKept(s, t, 0)
  {
    hide Run, AfterWork, StepsOf, Mirrors;
    if works == [] {
      assert before + [] == before;
    } else {
      var m := |works| - 1;
      var front, mid := ActionsOf(n, c, id, b, works[..m]), AfterAll(n, c, b, works[..m]);
      WorksSteps(n, c, id, before, b, works[..m]);
      WorkSteps(n, c, id, before + front, 0, mid, works[m]);
      var last := StepsOf(n, c, id, 0, mid, works[m]);
      assert before + front + last == before + ActionsOf(n, c, id, b, works);
    }
  }

  /** What the book is after a call of `Apply` that `others` and `late` interrupt. */
  ghost function AfterCall(n: int, c: Codec, b: Book, w: Work, others: seq<Work>, late: seq<Work>, seen: Order): Book
    requires n > 0
  {
    if Passes(w, seen) then SettledLate(n, c, AfterAll(n, c, b, others), w, seen, late) else b
  }

  /** The aggregate `id` of the book is in the state of some run, with nobody under way. */
  ghost predicate Reached(n: int, id: string, b: Book)
    requires n > 0
  {
    exists actions :: ReachedBy(n, id, b, actions)
  }

  ghost predicate ReachedBy(n: int, id: string, b: Book, actions: seq<Action>)
    requires n > 0
  {
    var s := Run(n, id, actions);
    Mirrors(n, id, b, s) && PhaseOf(s, 0).Idle? && PhaseOf(s, 1).Idle?
  }

  /** A call on another aggregate, as this one sees it: only what comes in between. */
  lemma CallElsewhere(n: int, c: Codec, id: string, before: seq<Action>, b: Book, w: Work, late: seq<Work>, seen: Order)
    returns (actions: seq<Action>)
    requires n >= 2 && id != "" && w.command.id != id && ReachedBy(n, id, b, before)
    ensures ReachedBy(n, id, SettledLate(n, c, b, w, seen, late), before + actions)
  {
    hide Run, AfterAll, Load, ActionsOf, Applied, Resulting;
    var saved := AfterSave(n, c, b, w, seen);
    if Acknowledged(n, c, b, w, seen) {
      actions := ActionsOf(n, c, id, saved, late);
      WorksSteps(n, c, id, before, saved, late);
    } else {
      actions := [];
      assert before + [] == before;
    }
  }

  /** Save, what comes in between, publish. */
  lemma FinishLate(n: int, c: Codec, id: string, before: seq<Action>, b: Book, w: Work, late: seq<Work>, seen: Order)
    returns (actions: seq<Action>)
    requires n >= 2 && id != "" && w.command.id == id && Mirrors(n, id, b, Run(n, id, before))
    requires PhaseOf(Run(n, id, before), 0).Idle? && PhaseOf(Run(n, id, before), 1) == Saving(w.command, seen, w.clock)
    ensures ReachedBy(n, id, SettledLate(n, c, b, w, seen, late), before + actions)
  {
    hide Run, AfterAll, Load, ActionsOf, Applied, AfterSave, Resulting, Store, Publish, Mirrors, Prepared, Replay,
      AfterOn;
    var store, saved := Store(n, c, 1, w, seen), AfterSave(n, c, b, w, seen);
    StoreStep(n, id, before, c, 1, w, b, seen);
    actions := [store];
    if Acknowledged(n, c, b, w, seen) {
      var stored, between := before + [store], ActionsOf(n, c, id, saved, late);
      PublishedIsLoaded(n, id, stored, c, 1, w, b, seen);
      WorksSteps(n, c, id, stored, saved, late);
      PublishSteps(n, id, stored + between, 1, w, AfterAll(n, c, saved, late), seen, Prepared(n, w, seen));
      actions := [store] + between + Publish(1, w);
      assert before + actions == stored + between + Publish(1, w);
    }
  }

  /** An interrupted call is its own steps with the others' steps where they come in. */
  lemma CallIsRun(n: int, c: Codec, id: string, before: seq<Action>, b: Book, w: Work,
                  others: seq<Work>, late: seq<Work>, seen: Order, failed: bool)
    returns (actions: seq<Action>)
    requires n >= 2 && id != "" && ReachedBy(n, id, b, before)
    requires seen == if failed then ZERO else Load(n, Get(b.logs, w.command.id))
    ensures ReachedBy(n, id, AfterCall(n, c, b, w, others, late, seen), before + actions)
  {
    hide Run, SettledLate, AfterAll, Load, Admit, Begin, ActionsOf;
    var between, mid := ActionsOf(n, c, id, b, others), AfterAll(n, c, b, others);
    if w.command.id != id {
      actions := [];
      assert before + [] == before;
      if Passes(w, seen) {
        WorksSteps(n, c, id, before, b, others);
        var rest := CallElsewhere(n, c, id, before + between, mid, w, late, seen);
        actions := between + rest;
        assert before + actions == before + between + rest;
      }
    } else {
      var begin := Begin(1, w, failed, |Get(b.logs, id)|);
      BeginSteps(n, id, before, 1, w, failed);
      actions := begin;
      if Passes(w, seen) {
        WorksSteps(n, c, id, before + begin, b, others);
        var rest := FinishLate(n, c, id, before + begin + between, mid, w, late, seen);
        actions := begin + between + rest;
        assert before + actions == before + begin + between + rest;
      }
    }
  }

  lemma CallReaches(n: int, c: Codec, id: string, b: Book, w: Work, others: seq<Work>, late: seq<Work>, seen: Order)
    requires n >= 2 && id != "" && Reached(n, id, b)
    requires seen == ZERO || seen == Load(n, Get(b.logs, w.command.id))
    ensures Reached(n, id, AfterCall(n, c, b, w, others, late, seen))
  {
    hide ReachedBy, AfterCall, Load;
    var before :| ReachedBy(n, id, b, before);
    var _ := CallIsRun(n, c, id, before, b, w, others, late, seen, seen == ZERO);
  }

  // ---------------------------------------------------------------- any calls on a repository

  datatype Call = Call(work: Work, replies: seq<Paging.Reply<Record>>, others: seq<Work>, late: seq<Work>)

  /** What runs of the protocol promise of the aggregate `id`, said of a book. */
  ghost predicate Serial(n: int, id: string, b: Book)
    requires n > 0
  {
    var log := Get(b.logs, id);
    && (exists commits :: Admitted(n, id, commits) && SerialLog(n, commits) == log)
    && (id in b.views ==> LoadedFrom(n, log, b.views[id]))
    && (id in b.summaries ==> exists k :: SummaryOf(n, log, k, b.summaries[id]))
  }

  ghost predicate SummaryOf(n: int, log: seq<Event>, k: int, summary: OrderSummary)
    requires n > 0
  {
    1 <= k <= |log| && summary == Summarize(Load(n, log[..k]))
  }

  lemma ReachedIsSerial(n: int, id: string, b: Book)
    requires n >= 2 && Reached(n, id, b)
    ensures Serial(n, id, b)
  {
    hide Run, Load, SerialLog, Admitted;
    var actions :| ReachedBy(n, id, b, actions);
    var s := Run(n, id, actions);
    RunKeepsInv(n, id, actions);
    assert Admitted(n, id, s.commits) && SerialLog(n, s.commits) == Get(b.logs, id);
    if s.summary.Some? {
      var i :| 0 <= i < |s.offered| && s.summary.value == Summarize(s.offered[i]);
      assert SummaryOf(n, Get(b.logs, id), s.offered[i].version, s.summary.value);
    }
  }

  lemma NothingReached(n: int, id: string)
    requires n >= 2
    ensures Reached(n, id, EMPTY_BOOK)
  {
    RunStart(n, id);
    assert ReachedBy(n, id, EMPTY_BOOK, []);
  }

  /**
   Any sequence of calls on a new repository, over bytes, with page faults, other writers in
   between, lost calls and lost answers: every aggregate is in the state of a run of the
   protocol. So its log is that of admitted commands run one by one, and its view and its
   summary are those of committed prefixes.
   */
  method Serve(n: int, codec: Codec, service: Service, calls: seq<Call>)
    returns (repo: Repository, outcomes: seq<Outcome>)
    requires n >= 2 && Sound(codec)
    ensures repo.Valid() && repo.n == n && |outcomes| == |calls|
    ensures forall id :: id != "" ==> Reached(n, id, repo.Kept()) && Serial(n, id, repo.Kept())
  {
    hide Sound, Reached, Serial, AfterAll, SettledLate, Load, Consistent;
    repo := new Repository(n, codec, service);
    outcomes := [];
    forall id: string ensures Reached(n, id, repo.Kept()) {
      NothingReached(n, id);
    }
    for i := 0 to |calls|
      invariant fresh(repo) && fresh(repo.store) && repo.Valid() && repo.n == n && repo.codec == codec
      invariant |outcomes| == i
      invariant forall id :: id != "" ==> Reached(n, id, repo.Kept())
    {
      ghost var before := repo.Kept();
      var r, seen := repo.Apply(calls[i].work, calls[i].replies, calls[i].others, calls[i].late);
      forall id | id != "" ensures Reached(n, id, repo.Kept()) {
        CallReaches(n, codec, id, before, calls[i].work, calls[i].others, calls[i].late, seen);
      }
      outcomes := outcomes + [r];
    }
    forall id | id != "" ensures Serial(n, id, repo.Kept()) {
      ReachedIsSerial(n, id, repo.Kept());
    }
  }
}
