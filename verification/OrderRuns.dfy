/** The safety of orders, stated for every concurrent run and for any two moments of it. */
module OrderRuns {
  import opened Machine
  import opened OrderModel
  import opened Replays
  import opened OrderSafety
  import opened Protocol

  lemma StepGrowsLog(n: int, id: string, s: System, a: Action)
    requires n > 0
    ensures LogOf(n, s) <= LogOf(n, Step(n, id, s, a))
  {
    hide SerialLog, Load, Admit, EmitEvents, WriteAll, NoneExists, Replay, AfterOn;
    var p := PhaseOf(s, a.w);
    if a.Write? && p.Saving? {
      SerialSnoc(n, id, s.commits, Commit(p.command, p.clock));
    }
  }

  /** Nothing that was committed is ever undone or rewritten. */
  lemma {:induction false} LogOnlyGrows(n: int, id: string, actions: seq<Action>, t: nat)
    requires n > 0 && t <= |actions|
    ensures LogOf(n, Run(n, id, actions[..t])) <= LogOf(n, Run(n, id, actions))
    decreases |actions|
  {
    hide LogOf, Step;
    if t == |actions| {
      assert actions[..t] == actions;
    } else {
      var front := actions[..|actions| - 1];
      LogOnlyGrows(n, id, front, t);
      assert front[..t] == actions[..t];
      StepGrowsLog(n, id, Run(n, id, front), actions[|actions| - 1]);
    }
  }

  /** What `Load` returns once the first `t` actions of a run have happened. */
  ghost function LoadedAfter(n: int, id: string, actions: seq<Action>, t: nat): Order
    requires n > 0 && t <= |actions|
  {
    Load(n, LogOf(n, Run(n, id, actions[..t])))
  }

  /**
   Whoever loads an order twice in a run, with anything happening in between, sees its
   state move only forward; once it has left DRAFT, the same contents; and once it exists,
   the same creation.
   */
  lemma OrderLifeInEveryRun(n: int, id: string, actions: seq<Action>, t: nat, u: nat)
    requires n >= 2 && t <= u <= |actions|
    ensures var a, b := LoadedAfter(n, id, actions, t), LoadedAfter(n, id, actions, u);
            && Reaches(a.state, b.state)
            && (Frozen(a.state) ==> SameContents(a, b))
            && (a.version > 0 ==> a.createAt == b.createAt && a.createBy == b.createBy && a.customerId == b.customerId)
            && a.version <= b.version
  {
    hide LogOf, Load, LogOk, Reaches, Frozen, SameContents, Run, Inv;
    var log, before := LogOf(n, Run(n, id, actions[..u])), LogOf(n, Run(n, id, actions[..t]));
    assert actions[..u][..t] == actions[..t];
    LogOnlyGrows(n, id, actions[..u], t);
    RunLogOk(n, id, actions[..u]);
    assert log[..|log|] == log && log[..|before|] == before;
    FrozenAfterDraft(n, id, log, |before|, |log|);
    LoadedOrderOk(n, id, log, |before|);
    LoadedOrderOk(n, id, log, |log|);
    if |before| > 0 {
      SingleCreation(n, id, log, |before|);
      SingleCreation(n, id, log, |log|);
    }
  }

  lemma RunLogOk(n: int, id: string, actions: seq<Action>)
    requires n >= 2
    ensures LogOk(n, id, LogOf(n, Run(n, id, actions)))
  {
    hide LogOk, LogOf, Run, WritersOk, ViewsOk, StoreOk;
    RunKeepsInv(n, id, actions);
    LogOfOk(n, id, Run(n, id, actions));
  }

  /** The log of every run starts with its only Created record and conserves items at every prefix. */
  lemma OrderLogInEveryRun(n: int, id: string, actions: seq<Action>, k: nat)
    requires n >= 2 && k <= |LogOf(n, Run(n, id, actions))|
    ensures var log := LogOf(n, Run(n, id, actions));
            && (forall i :: 0 <= i < |log| ==> (log[i].body.Created? <==> i == 0))
            && |Load(n, log[..k]).items| == ItemsAdded(log[..k]) - ItemsRemoved(log[..k])
            && KeysOk(Load(n, log[..k]))
            && Load(n, log[..k]) == Meaning(log[..k])
            && SnapshotsInPlace(n, log[..k])
  {
    hide LogOf, Load, LogOk, Run, KeysOk, SnapshotsInPlace, Meaning, Replay, AfterOn, ItemsAdded, ItemsRemoved;
    var log := LogOf(n, Run(n, id, actions));
    RunLogOk(n, id, actions);
    if |log| > 0 {
      SingleCreation(n, id, log, |log|);
    }
    ItemsConserved(n, id, log, k);
    LoadedOrderOk(n, id, log, k);
    LogOkPrefix(n, id, log, k);
    LoadIsFullReplay(n, id, log[..k]);
    ReplayIsMeaning(n, id, log[..k]);
    PlacementIn(n, id, log[..k]);
  }

  // ---------------------------------------------------------------- views do not

  /** Two saved writers, of which the later one materializes first. */
  lemma ViewFollowsLastWriter(n: int, id: string, s: System, slow: nat, fast: nat)
    requires n > 0 && slow != fast
    requires PhaseOf(s, slow).Saved? && PhaseOf(s, fast).Saved?
    requires AfterOn(Replay(PhaseOf(s, slow).order, PhaseOf(s, slow).events)).version
           < AfterOn(Replay(PhaseOf(s, fast).order, PhaseOf(s, fast).events)).version
    ensures var s1 := Step(n, id, s, Materialize(fast, true));
            var s2 := Step(n, id, s1, Materialize(slow, true));
            s1.view.Some? && s2.view.Some? && s2.view.value.version < s1.view.value.version
  {
    hide AfterOn, Replay;
  }

  /** Load, decide and save by one writer, with nobody in between. */
  function SaveSteps(w: nat, r: Commit, seen: nat): seq<Action> {
    [ReadLog(w, r.command, seen), Decide(w, r.clock), Write(w, true, true)]
  }

  lemma AfterSaveSteps(n: int, id: string, before: seq<Action>, w: nat, r: Commit)
    requires n >= 2
    requires var s := Run(n, id, before);
             && PhaseOf(s, w).Idle? && r.command.id == id
             && Admit(r.command.request, Load(n, LogOf(n, s))).Accept?
    ensures var s := Run(n, id, before);
            var log := LogOf(n, s);
            var o := Load(n, log);
            var events := EmitEvents(n, r.command, o, r.clock);
            var t := Run(n, id, before + SaveSteps(w, r, |log|));
            t.writers == s.writers[w := Saved(o, events)] && LogOf(n, t) == log + events && o.version == |log|
  {
    hide Load, SerialLog, Admitted, Admit, WritersOk, ViewsOk, EmitEvents, WriteAll, NoneExists, Replay, AfterOn, Run;
    var s := Run(n, id, before);
    var a := SaveSteps(w, r, |LogOf(n, s)|);
    var o := Load(n, LogOf(n, s));
    RunSnoc(n, id, before, a[0]);
    RunSnoc(n, id, before + [a[0]], a[1]);
    RunSnoc(n, id, before + [a[0]] + [a[1]], a[2]);
    assert before + a == before + [a[0]] + [a[1]] + [a[2]];
    RunKeepsInv(n, id, before);
    ReadEverything(n, id, s);
    NextVersionsAreFree(n, id, s, r.command, o, r.clock);
    CommitExtends(n, id, s, r.command, o, r.clock);
  }

  lemma SavedVersion(n: int, id: string, actions: seq<Action>, w: nat)
    requires n >= 2 && PhaseOf(Run(n, id, actions), w).Saved?
    ensures var p := PhaseOf(Run(n, id, actions), w);
            AfterOn(Replay(p.order, p.events)).version == p.order.version + |p.events|
  {
    hide Load, Run, LogOk, AfterOn, Replay, LogOf;
    var s := Run(n, id, actions);
    RunKeepsInv(n, id, actions);
    RunLogOk(n, id, actions);
    MaterializedIsLoaded(n, id, LogOf(n, s), s.writers[w].order, s.writers[w].events);
  }

  /**
   Materialized writes carry no condition, so in a concurrent run the stored aggregate can
   go back to an older version: the writer of version 1 stores its aggregate after the
   writer of version 2.
   */
  lemma ViewCanGoBackwards(id: string, clock: Clock)
    ensures var n := SNAPSHOT_EVERY;
            var create := Commit(Command(id, "", Create("", "")), clock);
            var ship := Commit(Command(id, "", SetShipping("")), clock);
            var saved := SaveSteps(1, create, 0) + SaveSteps(2, ship, 1);
            var s1 := Step(n, id, Run(n, id, saved), Materialize(2, true));
            var s2 := Step(n, id, s1, Materialize(1, true));
            s1.view.Some? && s2.view.Some? && s2.view.value.version < s1.view.value.version
  {
    hide Run, Replay, AfterOn, Step, LogOf;
    var n := SNAPSHOT_EVERY;
    var create, ship := Commit(Command(id, "", Create("", "")), clock), Commit(Command(id, "", SetShipping("")), clock);
    var first, second := SaveSteps(1, create, 0), SaveSteps(2, ship, 1);
    RunStart(n, id);
    AfterSaveSteps(n, id, [], 1, create);
    assert [] + first == first;
    var created := [DomainEvent(create.command, 0, clock)];
    assert [] + created == created;
    CreatedLoads(n, create);
    AfterSaveSteps(n, id, first, 2, ship);
    SavedVersion(n, id, first + second, 1);
    SavedVersion(n, id, first + second, 2);
    ViewFollowsLastWriter(n, id, Run(n, id, first + second), 1, 2);
  }

  lemma RunStart(n: int, id: string)
    requires n > 0
    ensures Run(n, id, []) == START && LogOf(n, START) == []
  {
  }
}
