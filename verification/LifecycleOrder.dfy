/** Finalisation comes to an end, and in which order a parent and its children can be destroyed. */
module LifecycleOrder {
  import opened Options
  import opened Sums
  import opened Lifecycle

  // ---- finishing is bounded ----

  /** How many stages are at most left. */
  function Rank(stage: Stage): nat {
    match stage
    case Created => 14
    case Blocked => 13
    case Woken => 12
    case Running => 11
    case Ended => 10
    case AwaitingChildren => 9
    case ChildrenDone => 8
    case Retiring => 7
    case AwaitingEvents => 6
    case Releasing => 5
    case Released => 4
    case AwaitingDisposal => 3
    case Disposable => 2
    case Unlinked(_) => 1
    case Destroyed => 0
  }

  function Burden(): Task -> nat {
    (x: Task) => Rank(x.stage) + x.events
  }

  /** A bound on the steps left when nobody creates tasks or events or blocks any more. */
  function Work(s: State): nat {
    Sum(s, Burden())
  }

  lemma NextLowers(x: Task, children: nat, heading: nat)
    requires Sound(x, children, heading) && CanContinue(x.stage)
    ensures Burden()(Next(x)) < Burden()(x)
  {
  }

  lemma UnlinkLowersWork(s: State, t: nat)
    requires Invariant(s) && Enabled(s, Unlink(t))
    ensures Work(Step(s, Unlink(t))) < Work(s)
  {
    var r := Step(s, Unlink(t));
    SumUpdate(s, t, r[t], Burden());
    if s[t].parent.Some? {
      var p := s[t].parent.value;
      SumUpdate(s[t := r[t]], p, r[p], Burden());
    }
  }

  lemma DestroyLowersWork(s: State, t: nat)
    requires Invariant(s) && Enabled(s, Destroy(t))
    ensures Work(Step(s, Destroy(t))) < Work(s)
  {
    var r := Step(s, Destroy(t));
    SumUpdate(s, t, r[t], Burden());
    if s[t].parent.Some? && s[t].stage.last {
      var p := s[t].parent.value;
      assert SoundAt(s, p);
      SumAtLeast(s, t, HeadingTo(p));
      SumUpdate(s[t := r[t]], p, r[p], Burden());
    }
  }

  lemma FinishingLowersWork(s: State, a: Action)
    requires Invariant(s) && Enabled(s, a) && Finishes(a)
    ensures Work(Step(s, a)) < Work(s)
  {
    if a.Unlink? {
      UnlinkLowersWork(s, a.t);
    } else if a.Destroy? {
      DestroyLowersWork(s, a.t);
    } else {
      assert SoundAt(s, a.t);
      if a.Continue? {
        NextLowers(s[a.t], Children(s, a.t), Sum(s, HeadingTo(a.t)));
      }
      SumUpdate(s, a.t, Step(s, a)[a.t], Burden());
    }
  }

  /** Whatever the interleaving, finishing takes at most as many steps as the stages and events that are left. With
      FinishedRunsLeaveNothing: every run that goes on as long as it can destroys every task. */
  lemma {:induction false} FinishingIsBounded(s: State, run: seq<Action>)
    requires Invariant(s) && Legal(s, run) && forall i :: 0 <= i < |run| ==> Finishes(run[i])
    ensures |run| + Work(After(s, run)) <= Work(s)
    decreases |run|
  {
    if run != [] {
      FinishingLowersWork(s, run[0]);
      StepKeepsInvariant(s, run[0]);
      FinishingIsBounded(Step(s, run[0]), run[1..]);
    }
  }

  // ---- driving tasks to their end ----

  lemma Prepended(s: State, a: Action, run: seq<Action>)
    requires Enabled(s, a) && Legal(Step(s, a), run)
    ensures Legal(s, [a] + run) && After(s, [a] + run) == After(Step(s, a), run)
  {
    assert ([a] + run)[1..] == run;
  }

  /** What a step does to the tasks other than the one it is a step of. */
  lemma StepAt(s: State, a: Action, x: nat)
    requires Enabled(s, a) && x < |s|
    ensures x < |Step(s, a)| && (!a.Create? ==> |Step(s, a)| == |s|)
    ensures a.Create? ==> Step(s, a)[x] == if a.parent == Some(x) then s[x].(removal := s[x].removal + 1) else s[x]
    ensures !a.Create? && x != a.t ==>
              Step(s, a)[x] == if s[a.t].parent != Some(x) then s[x]
                               else if a.Unlink? then s[x].(removal := s[x].removal - 1)
                               else if a.Destroy? && s[a.t].stage.last then Arrive(s[x])
                               else s[x]
  {
  }

  lemma OwnStep(s: State, a: Action)
    requires Invariant(s) && Enabled(s, a) && !a.Create?
    ensures Step(s, a)[a.t].parent == s[a.t].parent
    ensures (a.Unlink? ==> Step(s, a)[a.t].stage == Unlinked(s[a.t].parent.Some? && s[s[a.t].parent.value].removal == 1))
    ensures (a.Destroy? ==> Step(s, a)[a.t].stage.Destroyed?)
    ensures !a.Unlink? && !a.Destroy? ==> SameRelations(s[a.t], Step(s, a)[a.t])
  {
    assert SoundAt(s, a.t);
    if a.Continue? {
      NextIsSound(s[a.t], Children(s, a.t), Sum(s, HeadingTo(a.t)));
    }
  }

  /** The thread of a last child finds its parent parked, with nothing left to count. */
  lemma ArrivesAtParked(s: State, t: nat, x: nat)
    requires Invariant(s) && t < |s| && Heading(s[t], x)
    ensures x < t && Parked(s[x].stage) && s[x].removal == 0
  {
    assert SoundAt(s, t);
    assert SoundAt(s, x);
    SumAtLeast(s, t, HeadingTo(x));
  }

  /** A task that has unlinked or been destroyed is left alone by the steps of others. */
  lemma LeftAlone(s: State, a: Action, c: nat)
    requires Invariant(s) && Enabled(s, a) && c < |s| && (s[c].stage.Unlinked? || s[c].stage.Destroyed?)
    requires !a.Create? ==> a.t != c
    ensures c < |Step(s, a)| && Step(s, a)[c].stage == s[c].stage && Step(s, a)[c].parent == s[c].parent
  {
    StepAt(s, a, c);
    if a.Destroy? && Heading(s[a.t], c) {
      ArrivesAtParked(s, a.t, c);
    }
  }

  /** Its own steps: one that has unlinked can only be destroyed, and one that has been destroyed makes none. */
  lemma LittleIsLeft(s: State, a: Action, c: nat)
    requires Invariant(s) && Enabled(s, a) && c < |s| && (s[c].stage.Unlinked? || s[c].stage.Destroyed?) && !a.Create? && a.t == c
    ensures s[c].stage.Unlinked? && a == Destroy(c)
  {
    assert SoundAt(s, c);
  }

  lemma StaysAttached(s: State, a: Action, c: nat, p: nat)
    requires Invariant(s) && Enabled(s, a) && c < |s| && Attached(s[c], p) && a != Unlink(c)
    ensures c < |Step(s, a)| && Attached(Step(s, a)[c], p)
  {
    StepAt(s, a, c);
    if !a.Create? && a.t == c {
      OwnStep(s, a);
    }
  }

  lemma {:induction false} HighestBut(s: State, c: nat, t: nat) returns (h: nat)
    requires t < |s| && t != c && !s[t].stage.Destroyed?
    ensures h < |s| && h != c && !s[h].stage.Destroyed?
    ensures forall x :: h < x < |s| && x != c ==> s[x].stage.Destroyed?
    decreases |s| - t
  {
    if x :| t < x < |s| && x != c && !s[x].stage.Destroyed? {
      h := HighestBut(s, c, x);
    } else {
      h := t;
    }
  }

  /** Everything can be destroyed around a task that has unlinked and was not the last child. */
  lemma {:induction false} FinishAllBut(s: State, c: nat) returns (run: seq<Action>)
    requires Invariant(s) && c < |s| && s[c].stage == Unlinked(false)
    ensures Legal(s, run) && |After(s, run)| == |s| && !After(s, run)[c].stage.Destroyed?
    ensures forall x :: 0 <= x < |s| && x != c ==> After(s, run)[x].stage.Destroyed?
    decreases Work(s)
  {
    if t :| 0 <= t < |s| && t != c && !s[t].stage.Destroyed? {
      var h := HighestBut(s, c, t);
      CanGoOn(s, h);
      var a := NextAction(s, h);
      StepKeepsInvariant(s, a);
      FinishingLowersWork(s, a);
      StepAt(s, a, c);
      LeftAlone(s, a, c);
      var rest := FinishAllBut(Step(s, a), c);
      Prepended(s, a, rest);
      run := [a] + rest;
    } else {
      run := [];
    }
  }

  /** x is c or one of its descendants. */
  predicate Under(s: State, c: nat, x: nat) {
    x == c || (x < |s| && s[x].parent.Some? && s[x].parent.value < x && Under(s, c, s[x].parent.value))
  }

  lemma {:induction false} UnderIsAfter(s: State, c: nat, x: nat)
    requires Under(s, c, x)
    ensures c <= x
  {
    if x != c {
      UnderIsAfter(s, c, s[x].parent.value);
    }
  }

  lemma {:induction false} HighestUnder(s: State, c: nat, t: nat) returns (h: nat)
    requires t < |s| && Under(s, c, t) && !s[t].stage.Destroyed?
    ensures h < |s| && Under(s, c, h) && !s[h].stage.Destroyed?
    ensures forall x :: h < x < |s| && Under(s, c, x) ==> s[x].stage.Destroyed?
    decreases |s| - t
  {
    if x :| t < x < |s| && Under(s, c, x) && !s[x].stage.Destroyed? {
      h := HighestUnder(s, c, x);
    } else {
      h := t;
    }
  }

  /** As long as a task is not about to unlink, it or one of its descendants can go on without touching its parent. */
  lemma TowardsDisposable(s: State, c: nat, p: nat) returns (a: Action)
    requires Invariant(s) && c < |s| && Attached(s[c], p) && !s[c].stage.Disposable?
    ensures Enabled(s, a) && Finishes(a) && a != Unlink(c)
    ensures c < |Step(s, a)| && Attached(Step(s, a)[c], p) && p < |s| == |Step(s, a)| && Step(s, a)[p] == s[p]
  {
    assert SoundAt(s, c);
    var h := HighestUnder(s, c, c);
    UnderIsAfter(s, c, h);
    forall x | h < x < |s| ensures !Attached(s[x], h) && !Heading(s[x], h) {
      assert s[x].parent == Some(h) ==> Under(s, c, x);
    }
    CanGoOn(s, h);
    a := NextAction(s, h);
    assert SoundAt(s, h);
    if h != c {
      UnderIsAfter(s, c, s[h].parent.value);
    }
    StaysAttached(s, a, c, p);
    StepAt(s, a, p);
  }

  // ---- who can be destroyed first ----

  /** A run from s at the end of which the parent of c has been destroyed and c has not. */
  predicate Outlives(s: State, run: seq<Action>, c: nat, p: nat) {
    Legal(s, run) && c < |After(s, run)| && p < |After(s, run)|
    && !After(s, run)[c].stage.Destroyed? && After(s, run)[p].stage.Destroyed?
  }

  /** Child c has left p behind, or can leave without being the last thing that p counts. */
  predicate MayOutlive(s: State, c: nat, p: nat)
    requires c < |s| && p < |s|
  {
    s[c].stage == Unlinked(false) || (Attached(s[c], p) && s[p].removal > 1)
  }

  lemma {:induction false} OutlivesIfItMay(s: State, c: nat, p: nat) returns (run: seq<Action>)
    requires Invariant(s) && c < |s| && p < |s| && s[c].parent == Some(p) && MayOutlive(s, c, p)
    ensures Outlives(s, run, c, p)
    decreases Work(s)
  {
    assert SoundAt(s, c);
    if s[c].stage == Unlinked(false) {
      run := FinishAllBut(s, c);
    } else {
      var a: Action;
      if s[c].stage.Disposable? {
        a := Unlink(c);
        OwnStep(s, a);
      } else {
        a := TowardsDisposable(s, c, p);
      }
      StepKeepsInvariant(s, a);
      FinishingLowersWork(s, a);
      StepAt(s, a, p);
      var rest := OutlivesIfItMay(Step(s, a), c, p);
      Prepended(s, a, rest);
      run := [a] + rest;
    }
  }

  /** c is the only thing that p still counts, or its thread is on the way to p, or it is gone. */
  predicate WaitedFor(s: State, c: nat, p: nat) {
    c < |s| && p < c && s[c].parent == Some(p)
    && (s[c].stage.Destroyed? || s[c].stage == Unlinked(true) || (Attached(s[c], p) && s[p].removal == 1 && Parked(s[p].stage)))
  }

  lemma {:induction false} TwoAttached(s: State, c: nat, d: nat, p: nat)
    requires c < d < |s| && Attached(s[c], p) && Attached(s[d], p)
    ensures Children(s, p) >= 2
  {
    var n := |s| - 1;
    if d < n {
      TwoAttached(s[..n], c, d, p);
    } else {
      SumAtLeast(s[..n], c, AttachedTo(p));
    }
  }

  /** A parked task makes no step of its own that changes where it is or what it counts. */
  lemma ParkedDoesNothing(x: Task, children: nat, amount: nat)
    requires Sound(x, children, 0) && Parked(x.stage) && 0 < amount <= x.events
    ensures FulfilEvents(x, amount).stage == x.stage && FulfilEvents(x, amount).removal == x.removal
  {
  }

  lemma OwnStepOfParked(s: State, a: Action, p: nat)
    requires Invariant(s) && Enabled(s, a) && !a.Create? && a.t == p < |s| && Parked(s[p].stage) && s[p].removal == 1
    ensures Step(s, a)[p].removal == 1 && Step(s, a)[p].stage == s[p].stage
  {
    assert SoundAt(s, p) && a.DecreaseEvents?;
    ParkedDoesNothing(s[p], Children(s, p), a.amount);
  }

  /** While the only attached child is there, no other one unlinks, and none is on its way. */
  lemma NoOtherChild(s: State, a: Action, c: nat, p: nat)
    requires Invariant(s) && Enabled(s, a) && WaitedFor(s, c, p) && Attached(s[c], p) && a != Unlink(c)
    ensures a.Unlink? ==> s[a.t].parent != Some(p)
    ensures a.Destroy? ==> !Heading(s[a.t], p)
  {
    if a.Unlink? && s[a.t].parent == Some(p) {
      assert SoundAt(s, p);
      TwoAttached(s, if a.t < c then a.t else c, if a.t < c then c else a.t, p);
    } else if a.Destroy? && Heading(s[a.t], p) {
      ArrivesAtParked(s, a.t, p);
    }
  }

  lemma OthersOfParked(s: State, a: Action, p: nat)
    requires Enabled(s, a) && p < |s| && Parked(s[p].stage) && (a.Create? || a.t != p)
    requires a.Unlink? ==> s[a.t].parent != Some(p)
    requires a.Destroy? ==> !Heading(s[a.t], p)
    ensures p < |Step(s, a)| && Step(s, a)[p] == s[p]
  {
    StepAt(s, a, p);
  }

  /** Nothing happens to a parked parent then. */
  lemma ParentStaysParked(s: State, a: Action, c: nat, p: nat)
    requires Invariant(s) && Enabled(s, a) && WaitedFor(s, c, p) && Attached(s[c], p) && a != Unlink(c)
    ensures p < |Step(s, a)| && Step(s, a)[p].removal == 1 && Step(s, a)[p].stage == s[p].stage
  {
    if !a.Create? && a.t == p {
      StepAt(s, a, p);
      OwnStepOfParked(s, a, p);
    } else {
      NoOtherChild(s, a, c, p);
      OthersOfParked(s, a, p);
    }
  }

  lemma WaitedForKept(s: State, a: Action, c: nat, p: nat)
    requires Invariant(s) && Enabled(s, a) && WaitedFor(s, c, p)
    ensures WaitedFor(Step(s, a), c, p)
  {
    if Attached(s[c], p) && a != Unlink(c) {
      StaysAttached(s, a, c, p);
      ParentStaysParked(s, a, c, p);
      StepAt(s, a, c);
    } else if !a.Create? && a.t == c {
      OwnStep(s, a);
      StepAt(s, a, c);
      if !Attached(s[c], p) {
        LittleIsLeft(s, a, c);
      }
    } else {
      LeftAlone(s, a, c);
    }
  }

  lemma {:induction false} NeverOutlives(s: State, run: seq<Action>, c: nat, p: nat)
    requires Invariant(s) && Legal(s, run) && WaitedFor(s, c, p)
    ensures !Outlives(s, run, c, p)
    decreases |run|
  {
    if run == [] {
      assert SoundAt(s, p);
      SumAtLeast(s, c, HeadingTo(p));
    } else {
      StepKeepsInvariant(s, run[0]);
      WaitedForKept(s, run[0], c, p);
      NeverOutlives(Step(s, run[0]), run[1..], c, p);
    }
  }

  /** In every reachable state, a child that has not been destroyed can be left over when its parent is destroyed exactly
      if it has unlinked without being the last, or has not unlinked and is not all that its parent counts. */
  lemma ChildMayOutliveExactly(before: seq<Action>, c: nat, p: nat)
    requires Legal([], before)
    requires var s := After([], before); c < |s| && p < |s| && s[c].parent == Some(p) && !s[c].stage.Destroyed? && !s[p].stage.Destroyed?
    ensures var s := After([], before); (exists run :: Outlives(s, run, c, p)) <==> MayOutlive(s, c, p)
  {
    RunsKeepInvariant([], before);
    var s := After([], before);
    assert SoundAt(s, c) && SoundAt(s, p);
    if MayOutlive(s, c, p) {
      var run := OutlivesIfItMay(s, c, p);
    } else {
      if Attached(s[c], p) {
        ParentOfAttached(s, c);
      }
      assert WaitedFor(s, c, p);
      forall run ensures !Outlives(s, run, c, p) {
        if Legal(s, run) {
          NeverOutlives(s, run, c, p);
        }
      }
    }
  }

  /** One child, created while the body of its parent runs, is enough for the parent to be able to go first. */
  lemma AParentCanBeDestroyedFirst()
    ensures var before := [Create(None, false), Start(0), Create(Some(0), false)];
            Legal([], before) && exists run :: Outlives(After([], before), run, 1, 0)
  {
    var s1 := Step([], Create(None, false));
    var s2 := Step(s1, Start(0));
    var s3 := Step(s2, Create(Some(0), false));
    Prepended(s2, Create(Some(0), false), []);
    Prepended(s1, Start(0), [Create(Some(0), false)] + []);
    Prepended([], Create(None, false), [Start(0)] + ([Create(Some(0), false)] + []));
    var before := [Create(None, false), Start(0), Create(Some(0), false)];
    assert before == [Create(None, false)] + ([Start(0)] + ([Create(Some(0), false)] + []));
    assert After([], before) == s3;
    ChildMayOutliveExactly(before, 1, 0);
  }
}
