/** The promises of the satisfiability protocol in terms of what a program has asked for: the accesses that it has registered
    and completed. */
module DependencyHistory {
  import opened Options
  import opened DataAccesses
  import opened Satisfiability
  import opened ProgramOrder
  import opened Dependencies

  predicate Registers(run: seq<Action>, j: nat) {
    j < |run| && run[j].Register?
  }

  /** How many objects were created before step j: the number of the one created at step j. */
  function ObjectsBefore(run: seq<Action>, j: nat): nat
    requires j <= |run|
  {
    if j == 0 then 0 else ObjectsBefore(run, j - 1) + if run[j - 1].Register? || run[j - 1].OpenDomain? then 1 else 0
  }

  lemma {:induction false} LastStep(s: State, run: seq<Action>)
    requires run != [] && Legal(s, run)
    ensures var m := |run| - 1;
            && Legal(s, run[..m]) && Enabled(After(s, run[..m]), run[m])
            && After(s, run) == Step(After(s, run[..m]), run[m])
    decreases |run|
  {
    var m := |run| - 1;
    if m > 0 {
      LastStep(Step(s, run[0]), run[1..]);
      assert run[1..][..m - 1] == run[..m][1..];
    } else {
      assert run[1..] == [];
    }
  }

  lemma {:induction false} ObjectsInPrefix(run: seq<Action>, m: nat, j: nat)
    requires j <= m <= |run|
    ensures ObjectsBefore(run[..m], j) == ObjectsBefore(run, j)
  {
    if j > 0 {
      ObjectsInPrefix(run, m, j - 1);
    }
  }

  lemma {:induction false} ObjectsAreCounted(run: seq<Action>)
    requires Legal(INITIAL, run)
    ensures |After(INITIAL, run).nodes| == ObjectsBefore(run, |run|)
    decreases |run|
  {
    if run != [] {
      LastStep(INITIAL, run);
      ObjectsAreCounted(run[..|run| - 1]);
      ObjectsInPrefix(run, |run| - 1, |run| - 1);
    }
  }

  /** A new access has the domain, the type and the strength that were asked for, and is not complete. */
  lemma RegisteredAsAsked(s: State, d: Domain, ty: AccessType, weak: bool)
    requires Enabled(s, Register(d, ty, weak))
    ensures var r := Step(s, Register(d, ty, weak)); var x := |s.nodes|;
            && |r.nodes| == x + 1 && r.nodes[x].kind.AccessObject? && r.nodes[x].dom == d
            && r.nodes[x].ty == ty && r.nodes[x].weak == weak && !r.nodes[x].complete
  {
  }

  /** No step changes any of that, except that completing an access completes it. */
  lemma StepKeepsAccess(s: State, a: Action, x: nat)
    requires Enabled(s, a) && x < |s.nodes|
    ensures var r := Step(s, a);
            && x < |r.nodes| && r.nodes[x].kind == s.nodes[x].kind && r.nodes[x].dom == s.nodes[x].dom
            && r.nodes[x].ty == s.nodes[x].ty && r.nodes[x].weak == s.nodes[x].weak
            && (r.nodes[x].complete <==> s.nodes[x].complete || a == Complete(x))
  {
  }

  lemma {:induction false} NotBefore(run: seq<Action>, x: nat)
    requires Legal(INITIAL, run) && x >= |After(INITIAL, run).nodes|
    ensures Complete(x) !in run
    decreases |run|
  {
    if run != [] {
      var m := |run| - 1;
      LastStep(INITIAL, run);
      if x < |After(INITIAL, run[..m]).nodes| {
        StepKeepsAccess(After(INITIAL, run[..m]), run[m], x);
      } else {
        NotBefore(run[..m], x);
        assert run == run[..m] + [run[m]];
      }
    }
  }

  /** The access registered at step j is as it was registered, and complete exactly if the run has completed it. */
  lemma {:induction false} AccessAsAsked(run: seq<Action>, j: nat)
    requires Legal(INITIAL, run) && Registers(run, j)
    ensures var s, x := After(INITIAL, run), ObjectsBefore(run, j);
            && IsAccess(s, x) && s.nodes[x].dom == run[j].dom && s.nodes[x].ty == run[j].ty && s.nodes[x].weak == run[j].weak
            && (s.nodes[x].complete <==> Complete(x) in run)
    decreases |run|
  {
    var m, x := |run| - 1, ObjectsBefore(run, j);
    var r := run[..m];
    LastStep(INITIAL, run);
    ObjectsInPrefix(run, m, j);
    assert run == r + [run[m]];
    if j == m {
      ObjectsAreCounted(r);
      RegisteredAsAsked(After(INITIAL, r), run[j].dom, run[j].ty, run[j].weak);
      NotBefore(r, x);
    } else {
      assert r[j] == run[j];
      AccessAsAsked(r, j);
      StepKeepsAccess(After(INITIAL, r), run[m], x);
    }
  }

  /** In every run: of two accesses that were registered under one root and not completed since, and that have received what
      their types need, one is nested in the other, or both were registered to read, or both as concurrent. */
  lemma RegisteredExclude(run: seq<Action>, i: nat, j: nat)
    requires Legal(INITIAL, run) && Registers(run, i) && Registers(run, j)
    requires var z, x := ObjectsBefore(run, i), ObjectsBefore(run, j);
             && Complete(z) !in run && Complete(x) !in run
             && z < |After(INITIAL, run).nodes| && x < |After(INITIAL, run).nodes|
             && Root(After(INITIAL, run), z) == Root(After(INITIAL, run), x)
             && Needed(run[i].ty) <= After(INITIAL, run).nodes[z].received
             && Needed(run[j].ty) <= After(INITIAL, run).nodes[x].received
    ensures var s, z, x := After(INITIAL, run), ObjectsBefore(run, i), ObjectsBefore(run, j);
            || Within(s, z, x) || Within(s, x, z)
            || (run[i].ty == Read && run[j].ty == Read) || (run[i].ty == Concurrent && run[j].ty == Concurrent)
  {
    var s, z, x := After(INITIAL, run), ObjectsBefore(run, i), ObjectsBefore(run, j);
    AccessAsAsked(run, i);
    AccessAsAsked(run, j);
    BlocksExactly(s.nodes[z]);
    BlocksExactly(s.nodes[x]);
    MutualExclusion(run, z, x);
  }
}
