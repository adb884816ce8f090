/** The life of nested tasks after they are created: two countdown counters per task, decremented by whichever
    thread gets there, decide who releases a task's dependencies and who disposes of it. */
module Lifecycle {
  import opened Options
  import opened Sums

  /** Where a task is. In Blocked, AwaitingChildren, AwaitingEvents and AwaitingDisposal no thread is at it; in Woken and
      from Ended on, in every other stage, one thread is, about to make the next step. */
  datatype Stage =
    | Created
    | Running
    | Blocked
    | Woken
    | Ended
    | AwaitingChildren
    | ChildrenDone
    | Retiring
    | AwaitingEvents
    | Releasing
    | Released
    | AwaitingDisposal
    | Disposable
    | Unlinked(last: bool)
    | Destroyed

  /** `removal` and `release` are the countdowns to be woken up (or disposed) and to release. The last three fields
      are history: the outstanding external events, how often the dependencies were released, and how often the task
      was destroyed. */
  datatype Task = Task(
    parent: Option<nat>, wait: bool,
    hasThread: bool, delayRelease: bool, removal: int, release: int, stage: Stage,
    events: nat, releases: nat, destructions: nat)

  type State = seq<Task>

  datatype Action =
    | Create(parent: Option<nat>, wait: bool)
    | Start(t: nat)
    | IncreaseEvents(t: nat, amount: nat)
    | DecreaseEvents(t: nat, amount: nat)
    | Block(t: nat)
    | End(t: nat)
    | Continue(t: nat)
    | Unlink(t: nat)
    | Destroy(t: nat)

  predicate CanContinue(stage: Stage) {
    stage.Woken? || stage.Ended? || stage.ChildrenDone? || stage.Retiring? || stage.Releasing? || stage.Released?
  }

  predicate Parked(stage: Stage) {
    stage.Blocked? || stage.AwaitingChildren? || stage.AwaitingDisposal?
  }

  predicate ParentExists(s: State, t: nat)
    requires t < |s|
  {
    s[t].parent.Some? ==> s[t].parent.value < t
  }

  predicate Enabled(s: State, a: Action) {
    match a
    case Create(parent, _) => parent.Some? ==> parent.value < |s| && s[parent.value].stage.Running?
    case Start(t) => t < |s| && s[t].stage.Created?
    case IncreaseEvents(t, _) => t < |s| && s[t].stage.Running?
    case DecreaseEvents(t, amount) => t < |s| && 0 < amount <= s[t].events
    case Block(t) => t < |s| && s[t].stage.Running?
    case End(t) => t < |s| && s[t].stage.Running?
    case Continue(t) => t < |s| && CanContinue(s[t].stage)
    case Unlink(t) => t < |s| && s[t].stage.Disposable? && ParentExists(s, t)
    case Destroy(t) => t < |s| && s[t].stage.Unlinked? && ParentExists(s, t)
  }

  /** What the walk up the ancestors makes of a task that has become ready or disposable. That another thread is still at the
      task is proved not to happen. */
  function Visit(x: Task): Task {
    x.(stage := if x.hasThread then Woken else if x.delayRelease then ChildrenDone else Disposable)
  }

  function Arrive(x: Task): Task {
    if Parked(x.stage) then Visit(x) else x
  }

  /** The next step of the thread that is at a task. */
  function Next(x: Task): Task
    requires CanContinue(x.stage)
  {
    match x.stage
    case Woken => x.(removal := x.removal + 1, stage := Running)
    case Ended =>
      if !x.delayRelease then x.(stage := Retiring)
      else x.(removal := x.removal - 1, stage := if x.removal == 1 then ChildrenDone else AwaitingChildren)
    case ChildrenDone => x.(delayRelease := false, removal := x.removal + 1, stage := Retiring)
    case Retiring => x.(release := x.release - 1, stage := if x.release == 1 then Releasing else AwaitingEvents)
    case Releasing => x.(releases := x.releases + 1, stage := Released)
    case Released =>
      var y := x.(removal := x.removal - 1);
      if y.removal == 0 then Visit(y) else y.(stage := AwaitingDisposal)
  }

  function FulfilEvents(x: Task, amount: nat): Task
    requires amount <= x.events
  {
    var y := x.(release := x.release - amount, events := x.events - amount);
    if y.release != 0 then y
    else if y.stage.AwaitingEvents? then y.(stage := Releasing)
    else y
  }

  function WithRemoval(s: State, t: nat, change: int): State
    requires t < |s|
  {
    s[t := s[t].(removal := s[t].removal + change)]
  }

  function Step(s: State, a: Action): State
    requires Enabled(s, a)
  {
    match a
    case Create(parent, wait) =>
      (if parent.Some? then WithRemoval(s, parent.value, 1) else s)
      + [NewTask(parent, wait)]
    case Start(t) => s[t := s[t].(hasThread := true, stage := Running)]
    case IncreaseEvents(t, amount) => s[t := s[t].(release := s[t].release + amount, events := s[t].events + amount)]
    case DecreaseEvents(t, amount) => s[t := FulfilEvents(s[t], amount)]
    case Block(t) => s[t := s[t].(removal := s[t].removal - 1, stage := if s[t].removal == 1 then Woken else Blocked)]
    case End(t) => s[t := s[t].(hasThread := false, stage := Ended)]
    case Continue(t) => s[t := Next(s[t])]
    case Unlink(t) =>
      var p := s[t].parent;
      if p.None? then s[t := s[t].(stage := Unlinked(false))]
      else WithRemoval(s[t := s[t].(stage := Unlinked(s[p.value].removal == 1))], p.value, -1)
    case Destroy(t) =>
      var p := s[t].parent;
      var u := s[t := s[t].(stage := Destroyed, destructions := s[t].destructions + 1)];
      if p.Some? && s[t].stage.last then u[p.value := Arrive(u[p.value])] else u
  }

  predicate Legal(s: State, run: seq<Action>)
    decreases |run|
  {
    run != [] ==> Enabled(s, run[0]) && Legal(Step(s, run[0]), run[1..])
  }

  function After(s: State, run: seq<Action>): State
    requires Legal(s, run)
    decreases |run|
  {
    if run == [] then s else After(Step(s, run[0]), run[1..])
  }

  // ---- what every step keeps ----

  predicate Attached(x: Task, p: nat) {
    x.parent == Some(p) && !x.stage.Unlinked? && !x.stage.Destroyed?
  }

  /** The thread at x has found that it is the last child, and will go on to p. */
  predicate Heading(x: Task, p: nat) {
    x.parent == Some(p) && x.stage == Unlinked(true)
  }

  function AttachedTo(p: nat): Task -> nat {
    (x: Task) => if Attached(x, p) then 1 else 0
  }

  function HeadingTo(p: nat): Task -> nat {
    (x: Task) => if Heading(x, p) then 1 else 0
  }

  function Children(s: State, p: nat): nat {
    Sum(s, AttachedTo(p))
  }

  /** The task itself counts for one until it blocks, waits for its children or has released. */
  function Hold(stage: Stage): nat {
    match stage
    case Created => 1
    case Running => 1
    case Ended => 1
    case Retiring => 1
    case AwaitingEvents => 1
    case Releasing => 1
    case Released => 1
    case _ => 0
  }

  predicate BodyActive(stage: Stage) {
    stage.Running? || stage.Blocked? || stage.Woken?
  }

  /** The body has not ended, or the wait clause still delays the release. */
  predicate Early(stage: Stage) {
    stage.Created? || BodyActive(stage) || stage.Ended? || stage.AwaitingChildren? || stage.ChildrenDone?
  }

  predicate HasReleased(stage: Stage) {
    stage.Released? || stage.AwaitingDisposal? || stage.Disposable? || stage.Unlinked? || stage.Destroyed?
  }

  predicate Childless(x: Task) {
    || x.stage.Created? || x.stage.Woken? || x.stage.ChildrenDone?
    || x.stage.Disposable? || x.stage.Unlinked? || x.stage.Destroyed?
    || (x.wait && !Early(x.stage))
  }

  /** What holds of a task with `children` attached children and `heading` threads on their way to it. */
  predicate Sound(x: Task, children: nat, heading: nat) {
    && x.removal == Hold(x.stage) + children
    && x.hasThread == BodyActive(x.stage)
    && x.delayRelease == (x.wait && Early(x.stage))
    && (x.stage.AwaitingChildren? || x.stage.ChildrenDone? ==> x.wait)
    && (Childless(x) ==> children == 0)
    && x.release == x.events + (if Early(x.stage) || x.stage.Retiring? then 1 else 0)
    && (x.stage.AwaitingEvents? ==> x.events > 0)
    && (x.stage.Created? || x.stage.Releasing? || HasReleased(x.stage) ==> x.events == 0)
    && x.releases == (if HasReleased(x.stage) then 1 else 0)
    && x.destructions == (if x.stage.Destroyed? then 1 else 0)
    && heading == (if Parked(x.stage) && x.removal == 0 then 1 else 0)
  }

  predicate SoundAt(s: State, t: nat)
    requires t < |s|
  {
    Sound(s[t], Children(s, t), Sum(s, HeadingTo(t))) && ParentExists(s, t)
  }

  predicate Invariant(s: State) {
    forall t :: 0 <= t < |s| ==> SoundAt(s, t)
  }

  predicate SameRelations(x: Task, y: Task) {
    x.parent == y.parent && (x.stage == y.stage || !(x.stage.Unlinked? || x.stage.Destroyed? || y.stage.Unlinked? || y.stage.Destroyed?))
  }

  lemma RelationsKept(s: State, t: nat, y: Task, p: nat)
    requires t < |s| && SameRelations(s[t], y)
    ensures Children(s[t := y], p) == Children(s, p) && Sum(s[t := y], HeadingTo(p)) == Sum(s, HeadingTo(p))
  {
    SumUpdate(s, t, y, AttachedTo(p));
    SumUpdate(s, t, y, HeadingTo(p));
  }

  /** A step that concerns one task only. */
  lemma OneTaskChanges(s: State, t: nat, y: Task)
    requires Invariant(s) && t < |s| && SameRelations(s[t], y)
    requires Sound(y, Children(s, t), Sum(s, HeadingTo(t)))
    ensures Invariant(s[t := y])
  {
    var r := s[t := y];
    forall q | 0 <= q < |r| ensures SoundAt(r, q) {
      assert SoundAt(s, q);
      RelationsKept(s, t, y, q);
    }
  }

  /** An attached child keeps its parent from everything that comes after its children. */
  lemma ParentOfAttached(s: State, t: nat)
    requires Invariant(s) && t < |s| && s[t].parent.Some? && Attached(s[t], s[t].parent.value)
    ensures var p := s[t].parent.value; p < t && Children(s, p) >= 1 && !Childless(s[p])
  {
    assert SoundAt(s, t);
    var p := s[t].parent.value;
    assert SoundAt(s, p);
    SumAtLeast(s, t, AttachedTo(p));
  }

  lemma GainingAChildIsSound(x: Task, children: nat, heading: nat)
    requires Sound(x, children, heading) && x.stage.Running?
    ensures Sound(x.(removal := x.removal + 1), children + 1, heading)
  {
  }

  function NewTask(parent: Option<nat>, wait: bool): (x: Task)
    ensures Sound(x, 0, 0)
  {
    Task(parent, wait, false, wait, 1, 1, Created, 0, 0, 0)
  }

  lemma CreateKeepsInvariant(s: State, parent: Option<nat>, wait: bool)
    requires Invariant(s) && Enabled(s, Create(parent, wait))
    ensures Invariant(Step(s, Create(parent, wait)))
  {
    var n, child := |s|, NewTask(parent, wait);
    var u := if parent.Some? then WithRemoval(s, parent.value, 1) else s;
    var r := u + [child];
    forall q | 0 <= q <= n ensures SoundAt(r, q) {
      SumAppend(u, child, AttachedTo(q));
      SumAppend(u, child, HeadingTo(q));
      if parent.Some? {
        RelationsKept(s, parent.value, u[parent.value], q);
      }
      if q == n {
        NoRelationsYet(s);
      } else {
        assert SoundAt(s, q);
        if parent == Some(q) {
          GainingAChildIsSound(s[q], Children(s, q), Sum(s, HeadingTo(q)));
        }
      }
    }
  }

  /** Nobody can be related to a task before it exists. */
  lemma NoRelationsYet(s: State)
    requires Invariant(s)
    ensures Children(s, |s|) == 0 && Sum(s, HeadingTo(|s|)) == 0
  {
    forall x | x in s ensures AttachedTo(|s|)(x) == 0 && HeadingTo(|s|)(x) == 0 {
      var t :| 0 <= t < |s| && s[t] == x;
      assert SoundAt(s, t);
    }
    SumOfZeros(s, AttachedTo(|s|));
    SumOfZeros(s, HeadingTo(|s|));
  }

  lemma UnlinkingIsSound(x: Task, last: bool)
    requires Sound(x, 0, 0) && x.stage.Disposable?
    ensures Sound(x.(stage := Unlinked(last)), 0, 0)
  {
  }

  /** Losing a child leaves a task at zero only when it is parked, and then the thread of the child is on its way. */
  lemma LosingAChildIsSound(x: Task, children: nat, heading: nat)
    requires Sound(x, children, heading) && children >= 1
    ensures Sound(x.(removal := x.removal - 1), children - 1, heading + if x.removal == 1 then 1 else 0)
  {
  }

  /** How the relations change when one task gets another stage. */
  lemma RelationsAfter(s: State, t: nat, y: Task, q: nat)
    requires t < |s| && y.parent == s[t].parent
    ensures Children(s[t := y], q) + AttachedTo(q)(s[t]) == Children(s, q) + AttachedTo(q)(y)
    ensures Sum(s[t := y], HeadingTo(q)) + HeadingTo(q)(s[t]) == Sum(s, HeadingTo(q)) + HeadingTo(q)(y)
  {
    SumUpdate(s, t, y, AttachedTo(q));
    SumUpdate(s, t, y, HeadingTo(q));
  }

  lemma UnlinkedAlone(s: State, t: nat)
    requires Invariant(s) && Enabled(s, Unlink(t)) && s[t].parent.None?
    ensures Invariant(Step(s, Unlink(t)))
  {
    var r := Step(s, Unlink(t));
    forall q | 0 <= q < |s| ensures SoundAt(r, q) {
      assert SoundAt(s, q);
      RelationsAfter(s, t, r[t], q);
      if q == t {
        UnlinkingIsSound(s[t], false);
      }
    }
  }

  lemma UnlinkedFromParent(s: State, t: nat)
    requires Invariant(s) && Enabled(s, Unlink(t)) && s[t].parent.Some?
    ensures Invariant(Step(s, Unlink(t)))
  {
    var r := Step(s, Unlink(t));
    var p := s[t].parent.value;
    var u := s[t := r[t]];
    ParentOfAttached(s, t);
    forall q | 0 <= q < |s| ensures SoundAt(r, q) {
      assert SoundAt(s, q);
      RelationsAfter(s, t, r[t], q);
      RelationsKept(u, p, r[p], q);
      if q == t {
        UnlinkingIsSound(s[t], s[p].removal == 1);
      } else if q == p {
        LosingAChildIsSound(s[p], Children(s, p), Sum(s, HeadingTo(p)));
      }
    }
  }

  /** A thread only comes to a parked task, and finds in its flags what the task was parked for. */
  lemma ArrivalIsSound(x: Task, children: nat)
    requires Sound(x, children, 1)
    ensures Sound(Arrive(x), children, 0) && SameRelations(x, Arrive(x))
  {
  }

  lemma DestroyingIsSound(x: Task)
    requires Sound(x, 0, 0) && x.stage.Unlinked?
    ensures Sound(x.(stage := Destroyed, destructions := x.destructions + 1), 0, 0)
  {
  }

  /** Destroying a task that is not the last child, or has no parent, concerns nobody else. */
  lemma DestroyedAlone(s: State, t: nat)
    requires Invariant(s) && Enabled(s, Destroy(t)) && !(s[t].parent.Some? && s[t].stage.last)
    ensures Invariant(Step(s, Destroy(t)))
  {
    var r := Step(s, Destroy(t));
    forall q | 0 <= q < |s| ensures SoundAt(r, q) {
      assert SoundAt(s, q);
      RelationsAfter(s, t, r[t], q);
      if q == t {
        DestroyingIsSound(s[t]);
      }
    }
  }

  /** The thread of the last child finds the parent parked. */
  lemma ParentIsSound(s: State, t: nat)
    requires Invariant(s) && t < |s| && s[t].parent.Some? && s[t].stage == Unlinked(true)
    ensures var p := s[t].parent.value;
            && p < t && Sum(s, HeadingTo(p)) == 1
            && Sound(Arrive(s[p]), Children(s, p), 0) && SameRelations(s[p], Arrive(s[p]))
  {
    assert SoundAt(s, t);
    var p := s[t].parent.value;
    assert SoundAt(s, p);
    SumAtLeast(s, t, HeadingTo(p));
    ArrivalIsSound(s[p], Children(s, p));
  }

  lemma DestroyedLast(s: State, t: nat)
    requires Invariant(s) && Enabled(s, Destroy(t)) && s[t].parent.Some? && s[t].stage.last
    ensures Invariant(Step(s, Destroy(t)))
  {
    var r := Step(s, Destroy(t));
    var p := s[t].parent.value;
    var u := s[t := r[t]];
    ParentIsSound(s, t);
    assert r == u[p := Arrive(s[p])];
    forall q | 0 <= q < |r| ensures SoundAt(r, q) {
      assert SoundAt(s, q);
      RelationsAfter(s, t, r[t], q);
      RelationsKept(u, p, r[p], q);
      if q == t {
        DestroyingIsSound(s[t]);
      } else if q != p {
        assert r[q] == s[q];
      }
    }
  }

  lemma NextIsSound(x: Task, children: nat, heading: nat)
    requires Sound(x, children, heading) && CanContinue(x.stage)
    ensures Sound(Next(x), children, heading) && SameRelations(x, Next(x))
  {
  }

  lemma FulfilmentIsSound(x: Task, children: nat, heading: nat, amount: nat)
    requires Sound(x, children, heading) && 0 < amount <= x.events
    ensures Sound(FulfilEvents(x, amount), children, heading) && SameRelations(x, FulfilEvents(x, amount))
  {
  }

  lemma StepKeepsInvariant(s: State, a: Action)
    requires Invariant(s) && Enabled(s, a)
    ensures Invariant(Step(s, a))
  {
    match a
    case Create(parent, wait) => CreateKeepsInvariant(s, parent, wait);
    case Unlink(t) =>
      if s[t].parent.Some? {
        UnlinkedFromParent(s, t);
      } else {
        UnlinkedAlone(s, t);
      }
    case Destroy(t) =>
      if s[t].parent.Some? && s[t].stage.last {
        DestroyedLast(s, t);
      } else {
        DestroyedAlone(s, t);
      }
    case Continue(t) =>
      assert SoundAt(s, t);
      NextIsSound(s[t], Children(s, t), Sum(s, HeadingTo(t)));
      OneTaskChanges(s, t, Next(s[t]));
    case DecreaseEvents(t, amount) =>
      assert SoundAt(s, t);
      FulfilmentIsSound(s[t], Children(s, t), Sum(s, HeadingTo(t)), amount);
      OneTaskChanges(s, t, FulfilEvents(s[t], amount));
    case _ => BodyStepKeepsInvariant(s, a);
  }

  /** The steps that the body of a task makes. */
  lemma BodyStepKeepsInvariant(s: State, a: Action)
    requires Invariant(s) && Enabled(s, a) && (a.Start? || a.IncreaseEvents? || a.Block? || a.End?)
    ensures Invariant(Step(s, a))
  {
    var y := Step(s, a)[a.t];
    assert SoundAt(s, a.t);
    assert Sound(y, Children(s, a.t), Sum(s, HeadingTo(a.t)));
    OneTaskChanges(s, a.t, y);
  }

  lemma {:induction false} RunsKeepInvariant(s: State, run: seq<Action>)
    requires Invariant(s) && Legal(s, run)
    ensures Invariant(After(s, run))
    decreases |run|
  {
    if run != [] {
      StepKeepsInvariant(s, run[0]);
      RunsKeepInvariant(Step(s, run[0]), run[1..]);
    }
  }

  // ---- main results ----

  predicate ChildrenGone(s: State, t: nat) {
    forall c :: 0 <= c < |s| && s[c].parent == Some(t) ==> s[c].stage.Unlinked? || s[c].stage.Destroyed?
  }

  lemma NoChildren(s: State, t: nat)
    requires Children(s, t) == 0
    ensures ChildrenGone(s, t)
  {
    forall c | 0 <= c < |s| && s[c].parent == Some(t) ensures s[c].stage.Unlinked? || s[c].stage.Destroyed? {
      SumAtLeast(s, c, AttachedTo(t));
    }
  }

  /** In every interleaving, a task's dependencies are released at most once, and only when its body has ended, its
      events have been fulfilled and, with a wait clause, its children have gone. */
  lemma ReleasedOnceAndNotTooEarly(run: seq<Action>, t: nat)
    requires Legal([], run) && t < |After([], run)|
    ensures var s := After([], run);
            && s[t].releases <= 1
            && (s[t].releases == 1 ==> !BodyActive(s[t].stage) && s[t].events == 0 && (s[t].wait ==> ChildrenGone(s, t)))
  {
    RunsKeepInvariant([], run);
    var s := After([], run);
    assert SoundAt(s, t);
    if s[t].releases == 1 && s[t].wait {
      NoChildren(s, t);
    }
  }

  /** In every interleaving, a task is destroyed at most once, after its dependencies were released and its children
      unlinked from it; and a child always finds its parent alive. */
  lemma DestroyedOnceAndNotTooEarly(run: seq<Action>, t: nat)
    requires Legal([], run) && t < |After([], run)|
    ensures var s := After([], run);
            && s[t].destructions <= 1
            && (s[t].destructions == 1 ==> s[t].releases == 1 && ChildrenGone(s, t))
            && (s[t].parent.Some? && !s[t].stage.Destroyed? && (s[t].stage.Unlinked? ==> s[t].stage.last) ==>
                  s[t].parent.value < |s| && s[s[t].parent.value].destructions == 0)
  {
    RunsKeepInvariant([], run);
    var s := After([], run);
    assert SoundAt(s, t);
    if s[t].destructions == 1 {
      NoChildren(s, t);
    }
    if s[t].parent.Some? && !s[t].stage.Destroyed? && (s[t].stage.Unlinked? ==> s[t].stage.last) {
      var p := s[t].parent.value;
      assert SoundAt(s, p);
      SumAtLeast(s, t, AttachedTo(p));
      SumAtLeast(s, t, HeadingTo(p));
    }
  }

  /** In every interleaving, two threads are never at one task: the thread of a last child comes to a parent that is parked and has
      nothing left to count, and whoever fulfils the last event of a task that has given up its own share finds it waiting for
      that. */
  lemma ThreadsDoNotMeet(run: seq<Action>, t: nat, amount: nat)
    requires Legal([], run)
    ensures var s := After([], run);
            && (Enabled(s, Destroy(t)) && s[t].stage.last && s[t].parent.Some? ==>
                  s[t].parent.value < |s| && Parked(s[s[t].parent.value].stage) && s[s[t].parent.value].removal == 0)
            && (Enabled(s, DecreaseEvents(t, amount)) && s[t].release == amount ==> s[t].stage.AwaitingEvents?)
  {
    RunsKeepInvariant([], run);
    var s := After([], run);
    if t < |s| {
      assert SoundAt(s, t);
      if s[t].stage.Unlinked? && s[t].stage.last && s[t].parent.Some? {
        assert SoundAt(s, s[t].parent.value);
        SumAtLeast(s, t, HeadingTo(s[t].parent.value));
      }
    }
  }

  /** What the tasks do by themselves, once nobody creates tasks or events any more. */
  predicate Finishes(a: Action) {
    !a.Create? && !a.IncreaseEvents? && !a.Block?
  }

  /** The next step at a task that no child and no thread on its way stands in the way of. */
  function NextAction(s: State, t: nat): Action
    requires t < |s|
  {
    match s[t].stage
    case Created => Start(t)
    case Running => End(t)
    case AwaitingEvents => DecreaseEvents(t, s[t].events)
    case Disposable => Unlink(t)
    case Unlinked(_) => Destroy(t)
    case _ => Continue(t)
  }

  lemma CanGoOn(s: State, t: nat)
    requires Invariant(s) && t < |s| && !s[t].stage.Destroyed?
    requires forall c :: t < c < |s| ==> !Attached(s[c], t) && !Heading(s[c], t)
    ensures Finishes(NextAction(s, t)) && Enabled(s, NextAction(s, t))
  {
    assert SoundAt(s, t);
    forall x | x in s ensures AttachedTo(t)(x) == 0 && HeadingTo(t)(x) == 0 {
      var c :| 0 <= c < |s| && s[c] == x;
      assert SoundAt(s, c);
    }
    SumOfZeros(s, AttachedTo(t));
    SumOfZeros(s, HeadingTo(t));
  }

  /** The countdowns never forget a task: as long as some task has not been destroyed, some thread can go on. */
  lemma {:induction false} NobodyIsForgotten(s: State, t: nat)
    requires Invariant(s) && t < |s| && !s[t].stage.Destroyed?
    ensures exists a :: Finishes(a) && Enabled(s, a)
    decreases |s| - t
  {
    if c :| t < c < |s| && !s[c].stage.Destroyed? {
      NobodyIsForgotten(s, c);
    } else {
      CanGoOn(s, t);
    }
  }

  /** A run that cannot go on has released and destroyed every task exactly once. */
  lemma FinishedRunsLeaveNothing(run: seq<Action>, t: nat)
    requires Legal([], run) && t < |After([], run)|
    requires forall a :: Finishes(a) ==> !Enabled(After([], run), a)
    ensures After([], run)[t].releases == 1 && After([], run)[t].destructions == 1
  {
    RunsKeepInvariant([], run);
    var s := After([], run);
    assert SoundAt(s, t);
    if !s[t].stage.Destroyed? {
      NobodyIsForgotten(s, t);
    }
  }
}
