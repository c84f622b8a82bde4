/**
 When the stored view goes back to an older version. Materialized writes carry no condition;
 this module finds the condition they would need.
 */
module ViewOrder {
  import opened Machine
  import opened OrderModel
  import opened Replays
  import opened Protocol
  import opened OrderRuns

  /** The version a writer that has saved is about to put: that of its last event. */
  function SavedThrough(p: Phase): int
    requires p.Saved?
  {
    p.order.version + |p.events|
  }

  /**
   The guard of a conditional put, exactly: materializing lowers the version of the view iff the
   last event the writer saved is older than the view.
   */
  lemma PutLowersIff(n: int, id: string, actions: seq<Action>, w: nat)
    requires n >= 2 && PhaseOf(Run(n, id, actions), w).Saved?
    ensures var s := Run(n, id, actions);
            var t := Step(n, id, s, Materialize(w, true));
            && t.view.Some? && t.view.value.version == SavedThrough(PhaseOf(s, w))
            && (s.view.Some? ==>
                 (t.view.value.version < s.view.value.version <==> SavedThrough(PhaseOf(s, w)) < s.view.value.version))
  {
    hide Run, Replay, AfterOn;
    SavedVersion(n, id, actions, w);
  }

  // ---------------------------------------------------------------- whole runs

  /** What a step stores as the view: the version, if it is a put that takes place. */
  function PutBy(s: System, a: Action): Option<int> {
    if a.Materialize? && a.stored && PhaseOf(s, a.w).Saved? then Some(SavedThrough(PhaseOf(s, a.w))) else None
  }

  /** The versions put in a run, in the order of the puts. */
  ghost function Puts(n: int, id: string, actions: seq<Action>): seq<int>
    requires n > 0
  {
    if actions == [] then [] else
      var front := actions[..|actions| - 1];
      var put := PutBy(Run(n, id, front), actions[|actions| - 1]);
      Puts(n, id, front) + if put.Some? then [put.value] else []
  }

  /** The version of the view at the end of a run, 0 when there is none. */
  ghost function ViewVersion(n: int, id: string, actions: seq<Action>): int
    requires n > 0
  {
    var view := Run(n, id, actions).view;
    if view.Some? then view.value.version else 0
  }

  ghost predicate NeverGoesBack(n: int, id: string, actions: seq<Action>)
    requires n > 0
  {
    forall t, u :: 0 <= t <= u <= |actions| ==> ViewVersion(n, id, actions[..t]) <= ViewVersion(n, id, actions[..u])
  }

  ghost predicate InOrder(s: seq<int>) {
    forall i, j :: 0 <= i <= j < |s| ==> s[i] <= s[j]
  }

  function Last(s: seq<int>): int {
    if s == [] then 0 else s[|s| - 1]
  }

  lemma StepKeepsView(n: int, id: string, s: System, a: Action)
    requires n > 0 && PutBy(s, a).None?
    ensures Step(n, id, s, a).view == s.view
  {
    hide Load, Admit, EmitEvents, NoneExists, WriteAll, Replay, AfterOn;
  }

  /** The view is what was put last, and every put is of a positive version. */
  lemma {:induction false} ViewIsLastPut(n: int, id: string, actions: seq<Action>)
    requires n >= 2
    ensures ViewVersion(n, id, actions) == Last(Puts(n, id, actions))
    ensures forall i :: 0 <= i < |Puts(n, id, actions)| ==> Puts(n, id, actions)[i] > 0
  {
    hide Step;
    if actions != [] {
      var front, a := actions[..|actions| - 1], actions[|actions| - 1];
      var s := Run(n, id, front);
      ViewIsLastPut(n, id, front);
      if PutBy(s, a).Some? {
        PutLowersIff(n, id, front, a.w);
        assert a == Materialize(a.w, true);
        SavedIsPositive(n, id, front, a.w);
      } else {
        StepKeepsView(n, id, s, a);
      }
    }
  }

  lemma SavedIsPositive(n: int, id: string, actions: seq<Action>, w: nat)
    requires n >= 2 && PhaseOf(Run(n, id, actions), w).Saved?
    ensures SavedThrough(PhaseOf(Run(n, id, actions), w)) > 0
  {
    hide Run, Load, LogOf, StoreOk, ViewsOk, AnswerOk;
    RunKeepsInv(n, id, actions);
    PhaseOfOk(n, id, Run(n, id, actions), w);
  }

  /** A run never goes back iff the run before its last step does not and that step does not. */
  lemma NeverGoesBackStep(n: int, id: string, actions: seq<Action>)
    requires n > 0 && actions != []
    ensures var front := actions[..|actions| - 1];
            NeverGoesBack(n, id, actions) <==>
              NeverGoesBack(n, id, front) && ViewVersion(n, id, front) <= ViewVersion(n, id, actions)
  {
    hide ViewVersion;
    var m := |actions| - 1;
    var front := actions[..m];
    assert actions[..m + 1] == actions && front[..m] == front;
    assert forall t :: 0 <= t <= m ==> front[..t] == actions[..t];
    if NeverGoesBack(n, id, front) && ViewVersion(n, id, front) <= ViewVersion(n, id, actions) {
      forall t, u | 0 <= t <= u <= m + 1
        ensures ViewVersion(n, id, actions[..t]) <= ViewVersion(n, id, actions[..u])
      {
        assert t <= m ==> ViewVersion(n, id, front[..t]) <= ViewVersion(n, id, front[..m]);
        assert u <= m ==> ViewVersion(n, id, front[..t]) <= ViewVersion(n, id, front[..u]);
      }
    }
    if NeverGoesBack(n, id, actions) {
      assert ViewVersion(n, id, actions[..m]) <= ViewVersion(n, id, actions[..m + 1]);
      forall t, u | 0 <= t <= u <= m ensures ViewVersion(n, id, front[..t]) <= ViewVersion(n, id, front[..u]) {
        assert ViewVersion(n, id, actions[..t]) <= ViewVersion(n, id, actions[..u]);
      }
    }
  }

  lemma InOrderSnoc(s: seq<int>, x: int)
    requires (forall i :: 0 <= i < |s| ==> s[i] > 0) && x > 0
    ensures InOrder(s + [x]) <==> InOrder(s) && Last(s) <= x
  {
    var all := s + [x];
    if InOrder(all) {
      assert forall i :: 0 <= i < |s| ==> all[i] == s[i];
      assert s != [] ==> all[|s| - 1] <= all[|s|];
    }
  }

  /** The view's version never decreases over a run iff the puts come in the order of their versions. */
  lemma {:induction false} ViewNeverGoesBack(n: int, id: string, actions: seq<Action>)
    requires n >= 2
    ensures NeverGoesBack(n, id, actions) <==> InOrder(Puts(n, id, actions))
  {
    hide Run, NeverGoesBack, InOrder, ViewVersion;
    if actions == [] {
      NothingGoesBack(n, id);
    } else {
      var front := actions[..|actions| - 1];
      ViewNeverGoesBack(n, id, front);
      NeverGoesBackStep(n, id, actions);
      ViewIsLastPut(n, id, front);
      ViewIsLastPut(n, id, actions);
      var put := PutBy(Run(n, id, front), actions[|actions| - 1]);
      if put.Some? {
        assert Puts(n, id, actions)[|Puts(n, id, front)|] == put.value;
        InOrderSnoc(Puts(n, id, front), put.value);
      } else {
        assert Puts(n, id, actions) == Puts(n, id, front);
      }
    }
  }

  lemma NothingGoesBack(n: int, id: string)
    requires n > 0
    ensures NeverGoesBack(n, id, []) && InOrder([])
  {
    var none: seq<Action> := [];
    assert none[..0] == none;
  }

  // ---------------------------------------------------------------- versions are commits

  /** How long the log is right after commit `k`. */
  ghost function EndOf(n: int, commits: seq<Commit>, k: nat): nat
    requires n > 0 && k < |commits|
  {
    |SerialLog(n, commits[..k + 1])|
  }

  lemma {:induction false} EndsGrow(n: int, commits: seq<Commit>, j: nat, k: nat)
    requires n > 0 && j < k < |commits|
    ensures EndOf(n, commits, j) < EndOf(n, commits, k)
  {
    hide Load, EmitEvents;
    assert commits[..k + 1][..k] == commits[..k];
    if j + 1 < k {
      EndsGrow(n, commits, j, k - 1);
    }
  }

  /** Later commits end later: the order of versions is the order of commits. */
  lemma EndsInCommitOrder(n: int, commits: seq<Commit>, j: nat, k: nat)
    requires n > 0 && j < |commits| && k < |commits|
    ensures EndOf(n, commits, j) <= EndOf(n, commits, k) <==> j <= k
  {
    hide EndOf;
    if j < k {
      EndsGrow(n, commits, j, k);
    } else if k < j {
      EndsGrow(n, commits, k, j);
    }
  }

  ghost predicate EndsAt(n: int, commits: seq<Commit>, k: int, v: int)
    requires n > 0
  {
    0 <= k < |commits| && EndOf(n, commits, k) == v
  }

  ghost predicate Ends(n: int, commits: seq<Commit>, v: int)
    requires n > 0
  {
    exists k :: EndsAt(n, commits, k, v)
  }

  lemma EndsStay(n: int, commits: seq<Commit>, c: Commit, v: int)
    requires n > 0 && Ends(n, commits, v)
    ensures Ends(n, commits + [c], v)
  {
    hide SerialLog;
    var k :| EndsAt(n, commits, k, v);
    assert (commits + [c])[..k + 1] == commits[..k + 1];
    assert EndsAt(n, commits + [c], k, v);
  }

  ghost predicate SavedEnds(n: int, s: System)
    requires n > 0
  {
    forall w :: w in s.writers && s.writers[w].Saved? ==> Ends(n, s.commits, SavedThrough(s.writers[w]))
  }

  lemma StepKeepsEnds(n: int, id: string, s: System, a: Action)
    requires n >= 2 && Inv(n, id, s) && SavedEnds(n, s)
    ensures SavedEnds(n, Step(n, id, s, a))
  {
    hide Load, SerialLog, Admitted, Admit, EmitEvents, WriteAll, NoneExists, Replay, AfterOn, Inv, Ends;
    var t, p := Step(n, id, s, a), PhaseOf(s, a.w);
    if |t.commits| > |s.commits| {
      var c := Commit(p.command, p.clock);
      assert t.commits == s.commits + [c];
      forall w | w in s.writers && s.writers[w].Saved? ensures Ends(n, t.commits, SavedThrough(s.writers[w])) {
        EndsStay(n, s.commits, c, SavedThrough(s.writers[w]));
      }
      InvPhase(n, id, s, a.w);
      CommitExtends(n, id, s, p.command, p.order, p.clock);
      LastEnds(n, t.commits);
    }
  }

  lemma InvPhase(n: int, id: string, s: System, w: nat)
    requires n > 0 && Inv(n, id, s)
    ensures StoreOk(n, id, s) && PhaseOk(n, id, LogOf(n, s), PhaseOf(s, w))
  {
  }

  lemma LastEnds(n: int, commits: seq<Commit>)
    requires n > 0 && commits != []
    ensures Ends(n, commits, |SerialLog(n, commits)|)
  {
    hide SerialLog;
    assert commits[..|commits|] == commits;
    assert EndsAt(n, commits, |commits| - 1, |SerialLog(n, commits)|);
  }

  lemma {:induction false} RunSavedEnds(n: int, id: string, actions: seq<Action>)
    requires n >= 2
    ensures SavedEnds(n, Run(n, id, actions))
  {
    hide Step, Inv, Ends;
    if actions != [] {
      var front := actions[..|actions| - 1];
      RunSavedEnds(n, id, front);
      RunKeepsInv(n, id, front);
      StepKeepsEnds(n, id, Run(n, id, front), actions[|actions| - 1]);
    }
  }

  lemma StepKeepsCommits(n: int, id: string, s: System, a: Action)
    requires n > 0
    ensures var t := Step(n, id, s, a);
            t.commits == s.commits || (t.commits != [] && t.commits[..|t.commits| - 1] == s.commits)
  {
    hide Load, Admit, EmitEvents, NoneExists, WriteAll, Replay, AfterOn;
  }

  /** Every version put is where the log ended right after some commit of the run. */
  lemma {:induction false} PutsAreCommits(n: int, id: string, actions: seq<Action>, i: nat)
    requires n >= 2 && i < |Puts(n, id, actions)|
    ensures Ends(n, Run(n, id, actions).commits, Puts(n, id, actions)[i])
  {
    hide Step, Ends;
    var front, a := actions[..|actions| - 1], actions[|actions| - 1];
    var s, t := Run(n, id, front), Run(n, id, actions);
    var v := Puts(n, id, actions)[i];
    if i < |Puts(n, id, front)| {
      PutsAreCommits(n, id, front, i);
    } else {
      RunSavedEnds(n, id, front);
    }
    assert Ends(n, s.commits, v);
    StepKeepsCommits(n, id, s, a);
    if t.commits != s.commits {
      assert t.commits == s.commits + [t.commits[|t.commits| - 1]];
      EndsStay(n, s.commits, t.commits[|t.commits| - 1], v);
    }
  }

  /** Of any two puts the later one is of the later commit, or of the same. */
  ghost predicate InCommitOrder(n: int, commits: seq<Commit>, puts: seq<int>)
    requires n > 0
  {
    forall i, j, k, l ::
      0 <= i <= j < |puts| && EndsAt(n, commits, k, puts[i]) && EndsAt(n, commits, l, puts[j]) ==> k <= l
  }

  /**
   In every concurrent run the stored view never goes back to an older version iff the puts
   that take place come in commit order.
   */
  lemma ViewFollowsCommits(n: int, id: string, actions: seq<Action>)
    requires n >= 2
    ensures NeverGoesBack(n, id, actions) <==> InCommitOrder(n, Run(n, id, actions).commits, Puts(n, id, actions))
  {
    hide Run, NeverGoesBack, Puts, EndOf;
    ViewNeverGoesBack(n, id, actions);
    var commits, puts := Run(n, id, actions).commits, Puts(n, id, actions);
    if InOrder(puts) {
      forall i, j, k, l |
        0 <= i <= j < |puts| && EndsAt(n, commits, k, puts[i]) && EndsAt(n, commits, l, puts[j])
        ensures k <= l
      {
        EndsInCommitOrder(n, commits, k, l);
      }
    }
    if InCommitOrder(n, commits, puts) {
      forall i, j | 0 <= i <= j < |puts| ensures puts[i] <= puts[j] {
        PutsAreCommits(n, id, actions, i);
        PutsAreCommits(n, id, actions, j);
        var k :| EndsAt(n, commits, k, puts[i]);
        var l :| EndsAt(n, commits, l, puts[j]);
        EndsInCommitOrder(n, commits, k, l);
      }
    }
  }
}
