/** The same guarantees in terms of what a program has asked for: the creations, events, ends and taskwaits of a run. */
module LifecycleHistory {
  import opened Options
  import opened Lifecycle
  import opened LifecycleOrder

  // ---- what a run has asked for ----

  predicate Creates(run: seq<Action>, j: nat) {
    j < |run| && run[j].Create?
  }

  /** How many tasks were created before step j: the number of the task created at step j. */
  function TasksBefore(run: seq<Action>, j: nat): nat
    requires j <= |run|
  {
    if j == 0 then 0 else TasksBefore(run, j - 1) + if run[j - 1].Create? then 1 else 0
  }

  function Announced(a: Action, t: nat): int {
    match a
    case IncreaseEvents(u, amount) => if u == t then amount else 0
    case DecreaseEvents(u, amount) => if u == t then 0 - amount as int else 0
    case _ => 0
  }

  /** The events of a task that have been announced and not fulfilled. */
  function Outstanding(run: seq<Action>, t: nat): int {
    if run == [] then 0
    else
      var m := |run| - 1;
      Outstanding(run[..m], t) + Announced(run[m], t)
  }

  predicate Over(stage: Stage) {
    !stage.Created? && !BodyActive(stage)
  }

  predicate Gone(x: Task) {
    x.stage.Unlinked? || x.stage.Destroyed?
  }

  /** While its body runs, a task can create tasks with and without a wait clause, announce events, enter a taskwait and end;
      events that are announced can be fulfilled at any time. */
  lemma WhatTasksCanDo(s: State, t: nat, wait: bool, amount: nat)
    requires t < |s|
    ensures s[t].stage.Running? ==>
              Enabled(s, Create(Some(t), wait)) && Enabled(s, IncreaseEvents(t, amount)) && Enabled(s, Block(t)) && Enabled(s, End(t))
    ensures 0 < amount <= s[t].events ==> Enabled(s, DecreaseEvents(t, amount))
    ensures Enabled(s, Create(None, wait)) && (s[t].stage.Created? ==> Enabled(s, Start(t)))
  {
  }

  // ---- one step ----

  lemma {:induction false} LastStep(s: State, run: seq<Action>)
    requires run != [] && Legal(s, run)
    ensures var m := |run| - 1;
            && Legal(s, run[..m]) && Enabled(After(s, run[..m]), run[m])
            && After(s, run) == Step(After(s, run[..m]), run[m])
    decreases |run|
  {
    var m := |run| - 1;
    if m > 0 {
      LastStep(Step(s, run[0]), run[1..]);
      assert run[1..][..m - 1] == run[..m][1..];
    } else {
      assert run[1..] == [];
    }
  }

  /** A new task has the parent and the wait clause that were asked for, and has done nothing yet. */
  lemma CreatedAsAsked(s: State, parent: Option<nat>, wait: bool)
    requires Enabled(s, Create(parent, wait))
    ensures var r := Step(s, Create(parent, wait));
            |r| == |s| + 1 && r[|s|].parent == parent && r[|s|].wait == wait && r[|s|].stage.Created? && r[|s|].events == 0
  {
  }

  /** No step changes the parent or the wait clause of a task; only announcing and fulfilling change its events, only ending it
      ends its body; and a task that has gone stays so. */
  predicate Continues(s: State, a: Action, r: State, t: nat) {
    t < |s| <= |r| && TaskContinues(s[t], r[t], Announced(a, t), a == End(t))
  }

  predicate TaskContinues(x: Task, y: Task, announced: int, ended: bool) {
    && y.parent == x.parent && y.wait == x.wait
    && y.events == x.events + announced
    && (Over(y.stage) <==> Over(x.stage) || ended)
    && (Gone(x) ==> Gone(y))
  }

  lemma NextContinues(x: Task)
    requires CanContinue(x.stage) && x.hasThread == BodyActive(x.stage)
    ensures TaskContinues(x, Next(x), 0, false)
  {
  }

  lemma StepContinues(s: State, a: Action, t: nat)
    requires Invariant(s) && Enabled(s, a) && t < |s|
    ensures Continues(s, a, Step(s, a), t)
  {
    if a.Create? || a.t != t {
      StepAt(s, a, t);
      assert SoundAt(s, t);
      ArriveContinues(s[t]);
      assert Announced(a, t) == 0 && a != End(t);
    } else {
      OwnStepContinues(s, a);
    }
  }

  lemma ArriveContinues(x: Task)
    requires x.hasThread == BodyActive(x.stage)
    ensures TaskContinues(x, Arrive(x), 0, false)
  {
  }

  lemma OwnStepContinues(s: State, a: Action)
    requires Invariant(s) && Enabled(s, a) && !a.Create?
    ensures Continues(s, a, Step(s, a), a.t)
  {
    assert SoundAt(s, a.t);
    if a.Unlink? || a.Destroy? {
      LastStepsContinue(s, a);
    } else if a.Continue? {
      NextContinues(s[a.t]);
      assert Step(s, a)[a.t] == Next(s[a.t]);
    } else {
      OtherStepsContinue(s, a);
    }
  }

  lemma LastStepsContinue(s: State, a: Action)
    requires Enabled(s, a) && (a.Unlink? || a.Destroy?)
    ensures Continues(s, a, Step(s, a), a.t)
  {
    assert s[a.t].parent.Some? ==> s[a.t].parent.value < a.t;
  }

  lemma OtherStepsContinue(s: State, a: Action)
    requires Enabled(s, a) && (a.Start? || a.IncreaseEvents? || a.DecreaseEvents? || a.Block? || a.End?)
    ensures Continues(s, a, Step(s, a), a.t)
  {
  }

  // ---- whole runs ----

  lemma {:induction false} TasksInPrefix(run: seq<Action>, m: nat, j: nat)
    requires j <= m <= |run|
    ensures TasksBefore(run[..m], j) == TasksBefore(run, j)
  {
    if j > 0 {
      TasksInPrefix(run, m, j - 1);
    }
  }

  lemma {:induction false} TasksAreCounted(run: seq<Action>)
    requires Legal([], run)
    ensures |After([], run)| == TasksBefore(run, |run|)
    decreases |run|
  {
    if run != [] {
      LastStep([], run);
      TasksAreCounted(run[..|run| - 1]);
      TasksInPrefix(run, |run| - 1, |run| - 1);
    }
  }

  /** Every task has the parent and the wait clause that it was created with. */
  lemma {:induction false} TaskAsAsked(run: seq<Action>, j: nat)
    requires Legal([], run) && Creates(run, j)
    ensures var s, t := After([], run), TasksBefore(run, j);
            t < |s| && s[t].parent == run[j].parent && s[t].wait == run[j].wait
    decreases |run|
  {
    var m := |run| - 1;
    var r := run[..m];
    LastStep([], run);
    RunsKeepInvariant([], r);
    TasksInPrefix(run, m, j);
    if j == m {
      TasksAreCounted(r);
      CreatedAsAsked(After([], r), run[j].parent, run[j].wait);
    } else {
      assert r[j] == run[j];
      TaskAsAsked(r, j);
      StepContinues(After([], r), run[m], TasksBefore(run, j));
    }
  }

  /** Its events are those announced and not fulfilled, and its body is over exactly if it has been ended. */
  predicate Recorded(s: State, run: seq<Action>, t: nat) {
    if t < |s| then s[t].events == Outstanding(run, t) && (Over(s[t].stage) <==> End(t) in run)
    else Outstanding(run, t) == 0 && End(t) !in run
  }

  lemma OneMoreStep(run: seq<Action>, t: nat)
    requires run != []
    ensures var m := |run| - 1;
            && (End(t) in run <==> End(t) in run[..m] || run[m] == End(t))
            && Outstanding(run, t) == Outstanding(run[..m], t) + Announced(run[m], t)
  {
    assert run == run[..|run| - 1] + [run[|run| - 1]];
  }

  lemma StepIsRecorded(s: State, a: Action, t: nat)
    requires Invariant(s) && Enabled(s, a) && t >= |s|
    ensures Announced(a, t) == 0 && a != End(t)
    ensures t < |Step(s, a)| ==> Step(s, a)[t].events == 0 && !Over(Step(s, a)[t].stage)
  {
    if a.Create? {
      CreatedAsAsked(s, a.parent, a.wait);
    }
  }

  lemma {:induction false} RunIsRecorded(run: seq<Action>, t: nat)
    requires Legal([], run)
    ensures Recorded(After([], run), run, t)
    decreases |run|
  {
    if run != [] {
      var m := |run| - 1;
      LastStep([], run);
      var s := After([], run[..m]);
      RunsKeepInvariant([], run[..m]);
      RunIsRecorded(run[..m], t);
      OneMoreStep(run, t);
      if t < |s| {
        StepContinues(s, run[m], t);
      } else {
        StepIsRecorded(s, run[m], t);
      }
    }
  }

  /** Every child of task t that the run has created is gone. */
  ghost predicate AllChildrenGone(run: seq<Action>, s: State, t: nat) {
    forall k: nat :: Creates(run, k) && run[k].parent == Some(t) ==> TasksBefore(run, k) < |s| && Gone(s[TasksBefore(run, k)])
  }

  lemma GoneChildren(run: seq<Action>, t: nat)
    requires Legal([], run) && ChildrenGone(After([], run), t)
    ensures AllChildrenGone(run, After([], run), t)
  {
    forall k: nat | Creates(run, k) && run[k].parent == Some(t)
      ensures TasksBefore(run, k) < |After([], run)| && Gone(After([], run)[TasksBefore(run, k)])
    {
      TaskAsAsked(run, k);
    }
  }

  /** In every run: the dependencies of the task created at step j are released at most once, and only after its body was ended
      and every event announced for it was fulfilled; and if it was created with a wait clause, only after every child that was
      created for it has gone. */
  lemma ReleaseHistory(run: seq<Action>, j: nat)
    requires Legal([], run) && Creates(run, j)
    ensures var s, t := After([], run), TasksBefore(run, j);
            && t < |s| && s[t].releases <= 1
            && (s[t].releases == 1 ==>
                  && End(t) in run && Outstanding(run, t) == 0
                  && (run[j].wait ==> AllChildrenGone(run, s, t)))
  {
    var s, t := After([], run), TasksBefore(run, j);
    TaskAsAsked(run, j);
    ReleasedOnceAndNotTooEarly(run, t);
    RunIsRecorded(run, t);
    RunsKeepInvariant([], run);
    assert SoundAt(s, t);
    if s[t].releases == 1 && s[t].wait {
      GoneChildren(run, t);
    }
  }

  /** It is destroyed at most once, and only after its release and after every child that was created for it has gone. */
  lemma DestructionHistory(run: seq<Action>, j: nat)
    requires Legal([], run) && Creates(run, j)
    ensures var s, t := After([], run), TasksBefore(run, j);
            && t < |s| && s[t].destructions <= 1
            && (s[t].destructions == 1 ==> s[t].releases == 1 && AllChildrenGone(run, s, t))
  {
    TaskAsAsked(run, j);
    DestroyedOnceAndNotTooEarly(run, TasksBefore(run, j));
    if After([], run)[TasksBefore(run, j)].destructions == 1 {
      GoneChildren(run, TasksBefore(run, j));
    }
  }

  // ---- taskwait ----

  predicate InTaskwait(stage: Stage) {
    stage.Blocked? || stage.Woken?
  }

  ghost predicate EarlierChildrenGone(s: State, t: nat, n: nat) {
    forall c: nat :: c < n && c < |s| && s[c].parent == Some(t) ==> Gone(s[c])
  }

  lemma EntersTaskwait(s: State, t: nat)
    requires Enabled(s, Block(t))
    ensures t < |Step(s, Block(t))| && InTaskwait(Step(s, Block(t))[t].stage)
  {
  }

  lemma WaitStep(s: State, a: Action, t: nat, n: nat)
    requires Invariant(s) && Enabled(s, a) && t < |s| && n <= |s| && (InTaskwait(s[t].stage) || EarlierChildrenGone(s, t, n))
    ensures t < |Step(s, a)| && (InTaskwait(Step(s, a)[t].stage) || EarlierChildrenGone(Step(s, a), t, n))
  {
    var r := Step(s, a);
    assert SoundAt(s, t);
    if s[t].stage.Woken? {
      NoChildren(s, t);
    }
    if InTaskwait(s[t].stage) {
      StillWaiting(s, a, t);
    }
    if !InTaskwait(r[t].stage) {
      forall c: nat | c < n && c < |r| && r[c].parent == Some(t) ensures Gone(r[c]) {
        StepContinues(s, a, c);
      }
    }
  }

  /** A task in a taskwait leaves it only by going on after it has been woken. */
  lemma StillWaiting(s: State, a: Action, t: nat)
    requires Invariant(s) && Enabled(s, a) && t < |s| && InTaskwait(s[t].stage)
    ensures InTaskwait(Step(s, a)[t].stage) || (s[t].stage.Woken? && a == Continue(t))
  {
    assert SoundAt(s, t);
    if a.Destroy? && Heading(s[a.t], t) {
      ArrivesAtParked(s, a.t, t);
    }
  }

  /** In every run, a task that has entered a taskwait at step k is still in it, or all children that were created for it before
      have gone. */
  lemma {:induction false} TaskwaitHistory(run: seq<Action>, k: nat, t: nat)
    requires Legal([], run) && k < |run| && run[k] == Block(t)
    ensures var s := After([], run);
            t < |s| && (InTaskwait(s[t].stage) || EarlierChildrenGone(s, t, TasksBefore(run, k)))
    decreases |run|
  {
    var m := |run| - 1;
    var r := run[..m];
    LastStep([], run);
    RunsKeepInvariant([], r);
    TasksInPrefix(run, m, k);
    if k == m {
      EntersTaskwait(After([], r), t);
    } else {
      assert r[k] == run[k];
      TaskwaitHistory(r, k, t);
      TasksGrow(run, k, m);
      TasksInPrefix(run, m, m);
      TasksAreCounted(r);
      WaitStep(After([], r), run[m], t, TasksBefore(run, k));
    }
  }

  lemma {:induction false} TasksGrow(run: seq<Action>, j: nat, k: nat)
    requires j <= k <= |run|
    ensures TasksBefore(run, j) <= TasksBefore(run, k)
    decreases k
  {
    if j < k {
      TasksGrow(run, j, k - 1);
    }
  }
}
