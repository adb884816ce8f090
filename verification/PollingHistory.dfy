/** The same in terms of the calls that a program has made: which steps of a run keep a call from returning. */
module PollingHistory {
  import opened Options
  import opened Polling
  import opened PollingWaits

  predicate Unregisters(run: seq<Action>, j: nat) {
    j < |run| && run[j].Unregister?
  }

  /** How many calls to unregister were made before step j: the number that the call made at step j gets. */
  function CallsBefore(run: seq<Action>, j: nat): nat
    requires j <= |run|
  {
    if j == 0 then 0 else CallsBefore(run, j - 1) + if run[j - 1].Unregister? then 1 else 0
  }

  /** The service unregistered at step j was registered again later. */
  predicate RegisteredAgain(run: seq<Action>, j: nat)
    requires Unregisters(run, j)
  {
    exists k :: j < k < |run| && run[k] == Register(run[j].key)
  }

  lemma {:induction false} LastStep(s: State, run: seq<Action>)
    requires run != [] && Legal(s, run)
    ensures var m := |run| - 1;
            && Legal(s, run[..m]) && Enabled(After(s, run[..m]), run[m])
            && After(s, run) == Step(After(s, run[..m]), run[m])
    decreases |run|
  {
    var m := |run| - 1;
    if m > 0 {
      LastStep(Step(s, run[0]), run[1..]);
      assert run[1..][..m - 1] == run[..m][1..];
    } else {
      assert run[1..] == [];
    }
  }

  lemma {:induction false} CallsBeforeInPrefix(run: seq<Action>, m: nat, j: nat)
    requires j <= m <= |run|
    ensures CallsBefore(run[..m], j) == CallsBefore(run, j)
  {
    if j > 0 {
      CallsBeforeInPrefix(run, m, j - 1);
    }
  }

  lemma CallsOfStep(s: State, a: Action)
    requires Enabled(s, a)
    ensures |Step(s, a).calls| == |s.calls| + if a.Unregister? then 1 else 0
  {
  }

  lemma {:induction false} CallsAreCounted(n: nat, run: seq<Action>)
    requires Legal(Initial(n), run)
    ensures |After(Initial(n), run).calls| == CallsBefore(run, |run|)
    decreases |run|
  {
    if run != [] {
      var m := |run| - 1;
      LastStep(Initial(n), run);
      CallsOfStep(After(Initial(n), run[..m]), run[m]);
      CallsAreCounted(n, run[..m]);
      CallsBeforeInPrefix(run, m, m);
    }
  }

  /** Every call was made at some step. */
  lemma {:induction false} StepOfCall(run: seq<Action>, m: nat, i: nat) returns (j: nat)
    requires m <= |run| && i < CallsBefore(run, m)
    ensures j < m && Unregisters(run, j) && CallsBefore(run, j) == i
    decreases m
  {
    if run[m - 1].Unregister? && CallsBefore(run, m - 1) == i {
      j := m - 1;
    } else {
      j := StepOfCall(run, m - 1, i);
    }
  }

  predicate MarkFollows(s: State, a: Action, i: nat)
    requires Enabled(s, a)
  {
    var r := Step(s, a);
    && i < |s.calls| && i < |r.calls| && r.calls[i].key == s.calls[i].key && (Untold(r, i) ==> Untold(s, i))
    && (Untold(r, i) ==> (Marked(r, i) <==> Marked(s, i) && a != Register(s.calls[i].key)))
  }

  /** One step: the mark stays unless the service is registered again, or the call is told. */
  lemma MarkStep(s: State, a: Action, i: nat)
    requires Invariant(s) && Enabled(s, a) && i < |s.calls|
    ensures MarkFollows(s, a, i)
  {
    assert CallSound(s, i);
    if s.calls[i].key in s.services {
      assert ServiceSound(s, s.calls[i].key);
    }
    if a.Resume? || a.Dismiss? || a.Erase? {
      TopSound(s, a.t);
      MarkStepOfTop(s, a, i);
    }
  }

  lemma MarkStepOfTop(s: State, a: Action, i: nat)
    requires Invariant(s) && Enabled(s, a) && i < |s.calls| && (a.Resume? || a.Dismiss? || a.Erase?)
    ensures MarkFollows(s, a, i)
  {
    assert CallSound(s, i);
    TopSound(s, a.t);
    if s.calls[i].key in s.services {
      assert ServiceSound(s, s.calls[i].key);
    }
  }

  lemma {:induction false} MarkHistory(n: nat, run: seq<Action>, j: nat)
    requires Legal(Initial(n), run) && Unregisters(run, j)
    ensures var s := After(Initial(n), run); var i := CallsBefore(run, j);
            && i < |s.calls| && s.calls[i].key == run[j].key
            && (Untold(s, i) ==> (Marked(s, i) <==> !RegisteredAgain(run, j)))
    decreases |run|
  {
    var m := |run| - 1;
    var r, a := run[..m], run[m];
    LastStep(Initial(n), run);
    RunsKeepInvariant(Initial(n), r);
    CallsBeforeInPrefix(run, m, j);
    if j == m {
      CallsAreCounted(n, r);
    } else {
      assert r[j] == run[j];
      MarkHistory(n, r, j);
      MarkStep(After(Initial(n), r), a, CallsBefore(run, j));
      AgainInPrefix(run, j);
    }
  }

  lemma AgainInPrefix(run: seq<Action>, j: nat)
    requires Unregisters(run, j) && j < |run| - 1
    ensures var m := |run| - 1; RegisteredAgain(run, j) <==> RegisteredAgain(run[..m], j) || run[m] == Register(run[j].key)
  {
    var m := |run| - 1;
    if RegisteredAgain(run, j) {
      var k :| j < k < |run| && run[k] == Register(run[j].key);
      assert k < m ==> run[..m][k] == run[k];
    }
    if RegisteredAgain(run[..m], j) {
      var k :| j < k < m && run[..m][k] == Register(run[..m][j].key);
      assert run[k] == Register(run[j].key);
    }
    if run[m] == Register(run[j].key) {
      assert j < m < |run|;
    }
  }

  /** Calls to unregister that are not told, each of which was followed by another registration of its service, or waits for
      a callback from inside which another one of them waits. */
  ghost predicate Tangle(s: State, run: seq<Action>, steps: set<nat>) {
    forall j :: j in steps ==> InTangle(s, run, steps, j)
  }

  ghost predicate InTangle(s: State, run: seq<Action>, steps: set<nat>, j: nat) {
    && Unregisters(run, j) && Untold(s, CallsBefore(run, j))
    && (RegisteredAgain(run, j) || exists k :: k in steps && NeedsStep(s, run, j, k))
  }

  predicate NeedsStep(s: State, run: seq<Action>, j: nat, k: nat)
    requires j <= |run|
  {
    k <= |run| && Needs(s, CallsBefore(run, j), CallsBefore(run, k))
  }

  lemma TangleIsKnot(n: nat, run: seq<Action>, steps: set<nat>)
    requires Legal(Initial(n), run) && Tangle(After(Initial(n), run), run, steps)
    ensures Knot(After(Initial(n), run), set j | j in steps && j <= |run| :: CallsBefore(run, j))
  {
    var s := After(Initial(n), run);
    var calls := set j | j in steps && j <= |run| :: CallsBefore(run, j);
    forall i | i in calls ensures InKnot(s, calls, i) {
      var j :| j in steps && j <= |run| && CallsBefore(run, j) == i;
      assert InTangle(s, run, steps, j);
      MarkHistory(n, run, j);
      if Marked(s, i) {
        var k :| k in steps && NeedsStep(s, run, j, k);
        assert CallsBefore(run, k) in calls;
      }
    }
  }

  lemma KnotIsTangle(n: nat, run: seq<Action>, calls: set<nat>)
    requires Legal(Initial(n), run) && Knot(After(Initial(n), run), calls)
    ensures Tangle(After(Initial(n), run), run, set j | 0 <= j < |run| && Unregisters(run, j) && CallsBefore(run, j) in calls)
  {
    var s := After(Initial(n), run);
    var steps := set j | 0 <= j < |run| && Unregisters(run, j) && CallsBefore(run, j) in calls;
    forall j | j in steps ensures InTangle(s, run, steps, j) {
      var i := CallsBefore(run, j);
      assert InKnot(s, calls, i);
      MarkHistory(n, run, j);
      if Marked(s, i) {
        var m :| m in calls && Needs(s, i, m);
        CallsAreCounted(n, run);
        var k := StepOfCall(run, |run|, m);
        assert k in steps && NeedsStep(s, run, j, k);
      }
    }
  }

  /** The call made at step k has to be told for that of step j to return. */
  predicate StepInTheWay(s: State, run: seq<Action>, j: nat, k: nat)
    requires j <= |run|
  {
    Unregisters(run, k) && InTheWay(s, CallsBefore(run, j), CallsBefore(run, k))
  }

  ghost predicate Untangled(s: State, run: seq<Action>, k: nat) {
    forall steps: set<nat> :: Tangle(s, run, steps) ==> k !in steps
  }

  lemma TangledIsNotLoose(n: nat, run: seq<Action>, steps: set<nat>, k: nat)
    requires Legal(Initial(n), run) && Tangle(After(Initial(n), run), run, steps) && k in steps && k <= |run|
    ensures !Loose(After(Initial(n), run), CallsBefore(run, k))
  {
    TangleIsKnot(n, run, steps);
    assert CallsBefore(run, k) in set j | j in steps && j <= |run| :: CallsBefore(run, j);
  }

  lemma UntangledIsLoose(n: nat, run: seq<Action>, k: nat)
    requires Legal(Initial(n), run) && Unregisters(run, k)
    ensures Untangled(After(Initial(n), run), run, k) <==> Loose(After(Initial(n), run), CallsBefore(run, k))
  {
    var s := After(Initial(n), run);
    if Untangled(s, run, k) {
      forall calls: set<nat> | Knot(s, calls) ensures CallsBefore(run, k) !in calls {
        KnotIsTangle(n, run, calls);
      }
    }
    if Loose(s, CallsBefore(run, k)) {
      forall steps: set<nat> | Tangle(s, run, steps) ensures k !in steps {
        if k in steps {
          TangledIsNotLoose(n, run, steps, k);
        }
      }
    }
  }

  /** At the end of every run, a call to unregister that still waits can return exactly if neither it, nor any call that
      waits above it on the same stack, is in a tangle. */
  lemma UnregisterReturnsUnlessTangled(n: nat, run: seq<Action>, j: nat)
    requires Legal(Initial(n), run) && Unregisters(run, j) && StillWaits(After(Initial(n), run), CallsBefore(run, j))
    ensures var s := After(Initial(n), run);
            CanReturn(s, CallsBefore(run, j)) <==> forall k: nat :: StepInTheWay(s, run, j, k) ==> Untangled(s, run, k)
  {
    var s, i := After(Initial(n), run), CallsBefore(run, j);
    RunsKeepInvariant(Initial(n), run);
    UnregisterCanReturnExactly(s, i);
    if forall m: nat :: InTheWay(s, i, m) ==> Loose(s, m) {
      forall k: nat | StepInTheWay(s, run, j, k) ensures Untangled(s, run, k) {
        UntangledIsLoose(n, run, k);
        assert InTheWay(s, i, CallsBefore(run, k));
      }
    }
    if forall k: nat :: StepInTheWay(s, run, j, k) ==> Untangled(s, run, k) {
      forall m: nat | InTheWay(s, i, m) ensures Loose(s, m) {
        CallsAreCounted(n, run);
        var k := StepOfCall(run, |run|, m);
        assert StepInTheWay(s, run, j, k);
        UntangledIsLoose(n, run, k);
      }
    }
  }
}
