/** The guarantees over regions in terms of what a program has asked for: the tasks that it has registered, with the accesses
    that they declare, and the pieces that they have completed. */
module RegionHistory {
  import opened Options
  import opened DataAccesses
  import opened Regions
  import opened RegionMaps
  import opened RegionPropagation
  import opened BytewiseRefinement
  import opened BottomMaps
  import opened RegionSystem
  import opened RegionRuns
  import opened RegionExclusion

  predicate Registers(run: seq<Action>, j: nat) {
    j < |run| && run[j].Register?
  }

  /** The number of the object created at step j; the main task is object 0. */
  function ObjectsBefore(run: seq<Action>, j: nat): nat
    requires j <= |run|
  {
    if j == 0 then 1 else ObjectsBefore(run, j - 1) + if run[j - 1].Register? || run[j - 1].Open? then 1 else 0
  }

  predicate Completes(a: Action, x: nat, p: nat) {
    a.Complete? && a.x == x && a.region.Contains(p)
  }

  /** The run has completed the access of object x to p. */
  predicate Completed(run: seq<Action>, x: nat, p: nat) {
    exists k :: 0 <= k < |run| && Completes(run[k], x, p)
  }

  // ----- One step -----

  /** The access of x to p after a step: completed if the step does that, and otherwise of the same kind. */
  predicate SameAccess(a: DataAccess, b: DataAccess, completes: bool) {
    && b.kind == a.kind && b.dom == a.dom && b.ty == a.ty && b.weak == a.weak
    && (b.complete <==> a.complete || completes)
  }

  ghost predicate KeepsAccess(w: World, w': World, x: nat, p: nat, completes: bool) {
    && (Present(w', x, p) <==> Present(w, x, p))
    && (Present(w, x, p) ==> SameAccess(Content(w, x, p), Content(w', x, p), completes))
  }

  /** A change that leaves what was declared as it is, and completes nothing. */
  ghost predicate Harmless(change: Change) {
    forall a :: SameAccess(a, change(a), false)
  }

  lemma HarmlessChanges(bits: set<Bit>, next: nat)
    ensures Harmless(Receiving(bits)) && Harmless(Linking(next, bits)) && Harmless(Opening(next))
  {
  }

  lemma {:induction false} ChangesKeepAccess(w: World, links: seq<Link>, change: Change, x: nat, p: nat)
    requires LinksExist(links, |w.objects|) && AllOrdered(w) && Harmless(change)
    ensures KeepsAccess(w, ChangedAll(w, links, change), x, p, false)
  {
    if links != [] {
      var m := |links| - 1;
      AllOrderKept(w, links[..m], change);
      ChangesKeepAccess(w, links[..m], change, x, p);
      PresentKept(ChangedAll(w, links[..m], change), links[m].previous, links[m].region, change, x, p);
    }
  }

  lemma NewKeepsOthers(w: World, arrival: seq<Node<DataAccess>>, x: nat, p: nat)
    requires x < |w.objects|
    ensures KeepsAccess(w, Created(w, arrival), x, p, false)
  {
    assert Created(w, arrival).objects[x] == w.objects[x];
  }

  lemma RegisterKeepsAccess(w: World, parent: nat, footprint: seq<Node<Declaration>>, x: nat, p: nat)
    requires Valid(w) && Enabled(w, Register(parent, footprint)) && x < |w.objects|
    ensures KeepsAccess(w, Step(w, Register(parent, footprint)), x, p, false)
  {
    var w1, links := Created(w, Arrival(w, parent, footprint)), LinksUnder(Bottom(w, parent), footprint);
    RegisterAt(w, parent, footprint, p);
    NewKeepsOthers(w, Arrival(w, parent, footprint), x, p);
    HarmlessChanges({}, |w.objects|);
    ChangesKeepAccess(w1, links, Linking(|w.objects|, {}), x, p);
    var w2 := ChangedAll(w1, links, Linking(|w.objects|, {}));
    assert Step(w, Register(parent, footprint)).objects == w2.objects;
  }

  lemma OpenKeepsAccess(w: World, owner: nat, r: Region, x: nat, p: nat)
    requires Valid(w) && Enabled(w, Open(owner, r)) && x < |w.objects|
    ensures KeepsAccess(w, Step(w, Open(owner, r)), x, p, false)
  {
    var w1 := Created(w, OpenedWith(w, owner, r));
    OpenedWithMeaning(w, owner, r, p);
    NewKeepsOthers(w, OpenedWith(w, owner, r), x, p);
    HarmlessChanges({}, |w.objects|);
    PresentKept(w1, owner, r, Opening(|w.objects|), x, p);
    assert Step(w, Open(owner, r)).objects == Changed(w1, owner, r, Opening(|w.objects|)).objects;
  }

  lemma DeliverKeepsAccess(w: World, k: nat, x: nat, p: nat)
    requires Valid(w) && Enabled(w, Deliver(k)) && x < |w.objects|
    ensures KeepsAccess(w, Step(w, Deliver(k)), x, p, false)
  {
    var op, rest := w.queue[k], w.(queue := w.queue[..k] + w.queue[k + 1..]);
    HarmlessChanges(op.bits, 0);
    PresentKept(rest, op.target, op.region, Receiving(op.bits), x, p);
  }

  lemma LinkBottomKeepsAccess(w: World, owner: nat, r: Region, next: nat, ty: AccessType, x: nat, p: nat)
    requires Valid(w) && Enabled(w, LinkBottom(owner, r, next, ty)) && x < |w.objects|
    ensures KeepsAccess(w, Step(w, LinkBottom(owner, r, next, ty)), x, p, false)
  {
    LastNestedAt(w, owner, r, p);
    HarmlessChanges(TransparentBits(ty), next);
    ChangesKeepAccess(w, Links(Restricted(Bottom(w, owner), r)), Linking(next, TransparentBits(ty)), x, p);
  }

  lemma StepKeepsAccess(w: World, a: Action, x: nat, p: nat)
    requires Valid(w) && Enabled(w, a) && x < |w.objects|
    ensures KeepsAccess(w, Step(w, a), x, p, Completes(a, x, p)) == true
  {
    match a
    case Register(parent, footprint) => RegisterKeepsAccess(w, parent, footprint, x, p);
    case Open(owner, r) => OpenKeepsAccess(w, owner, r, x, p);
    case Deliver(k) => DeliverKeepsAccess(w, k, x, p);
    case Complete(y, r) => PresentKept(w, y, r, Completing(), x, p);
    case LinkBottom(owner, r, next, ty) => LinkBottomKeepsAccess(w, owner, r, next, ty, x, p);
  }

  lemma ObjectsOfStep(w: World, a: Action)
    requires Valid(w) && Enabled(w, a)
    ensures |Step(w, a).objects| == |w.objects| + if a.Register? || a.Open? then 1 else 0
  {
  }

  /** A new task has exactly the accesses that it declares, of the types and strengths that it declares, and in the domain of
      its parent there. */
  lemma RegisteredAsAsked(w: World, parent: nat, footprint: seq<Node<Declaration>>, p: nat)
    requires Valid(w) && Enabled(w, Register(parent, footprint))
    ensures var w', n, d := Step(w, Register(parent, footprint)), |w.objects|, At(footprint, p);
            && (Present(w', n, p) <==> d.Some?)
            && (d.Some? ==>
                  && Content(w', n, p).kind.AccessObject? && Content(w', n, p).dom == DomainAt(w, parent, p)
                  && Content(w', n, p).ty == d.value.ty && Content(w', n, p).weak == d.value.weak && !Content(w', n, p).complete)
  {
    var arrival, links := Arrival(w, parent, footprint), LinksUnder(Bottom(w, parent), footprint);
    var w1, n := Created(w, arrival), |w.objects|;
    RegisterAt(w, parent, footprint, p);
    assert w1.objects[n] == arrival;
    HarmlessChanges({}, n);
    ChangesKeepAccess(w1, links, Linking(n, {}), n, p);
  }

  // ----- Whole runs -----

  lemma {:induction false} ObjectsInPrefix(run: seq<Action>, m: nat, j: nat)
    requires j <= m <= |run|
    ensures ObjectsBefore(run[..m], j) == ObjectsBefore(run, j)
  {
    if j > 0 {
      ObjectsInPrefix(run, m, j - 1);
    }
  }

  lemma {:induction false} ObjectsAreCounted(run: seq<Action>)
    requires Legal(run)
    ensures |After(run).objects| == ObjectsBefore(run, |run|)
    decreases |run|
  {
    if run != [] {
      var m := |run| - 1;
      ObjectsAreCounted(run[..m]);
      ObjectsOfStep(After(run[..m]), run[m]);
      ObjectsInPrefix(run, m, m);
    }
  }

  lemma CompletedInPrefix(run: seq<Action>, x: nat, p: nat)
    requires run != []
    ensures var m := |run| - 1; Completed(run, x, p) <==> Completed(run[..m], x, p) || Completes(run[m], x, p)
  {
    var m := |run| - 1;
    if Completed(run, x, p) {
      var k :| 0 <= k < |run| && Completes(run[k], x, p);
      assert k < m ==> run[..m][k] == run[k];
    }
    if Completed(run[..m], x, p) {
      var k :| 0 <= k < m && Completes(run[..m][k], x, p);
      assert run[k] == run[..m][k];
    }
  }

  lemma {:induction false} NotCompletedBefore(run: seq<Action>, x: nat, p: nat)
    requires Legal(run) && x >= |After(run).objects|
    ensures !Completed(run, x, p)
    decreases |run|
  {
    if run != [] {
      var m := |run| - 1;
      ObjectsOfStep(After(run[..m]), run[m]);
      NotCompletedBefore(run[..m], x, p);
      CompletedInPrefix(run, x, p);
    }
  }

  /** The task registered at step j has, at the end of the run, exactly the accesses that it declared, as it declared them, and
      those of them are complete that the run has completed. */
  ghost predicate AsDeclared(w: World, run: seq<Action>, j: nat, p: nat)
    requires Registers(run, j)
  {
    var x, d := ObjectsBefore(run, j), At(run[j].footprint, p);
    && x < |w.objects| && run[j].parent < |w.objects| && (Present(w, x, p) <==> d.Some?)
    && (d.Some? ==>
          && Content(w, x, p).kind.AccessObject? && Content(w, x, p).ty == d.value.ty && Content(w, x, p).weak == d.value.weak
          && Content(w, x, p).dom == DomainAt(w, run[j].parent, p)
          && (Content(w, x, p).complete <==> Completed(run, x, p)))
  }

  lemma DeclaredNow(w: World, run: seq<Action>, p: nat)
    requires run != [] && run[|run| - 1].Register? && Valid(w) && Enabled(w, run[|run| - 1])
    requires ObjectsBefore(run, |run| - 1) == |w.objects| && !Completed(run, |w.objects|, p)
    ensures AsDeclared(Step(w, run[|run| - 1]), run, |run| - 1, p) == true
  {
    var a := run[|run| - 1];
    assert Concerns(w, a);
    RegisteredAsAsked(w, a.parent, a.footprint, p);
    StepKeepsAccess(w, a, a.parent, p);
    ObjectsOfStep(w, a);
  }

  lemma DeclaredStill(w: World, run: seq<Action>, j: nat, p: nat)
    requires Registers(run, j) && j < |run| - 1 && Valid(w) && Enabled(w, run[|run| - 1])
    requires AsDeclared(w, run[..|run| - 1], j, p) == true
    ensures AsDeclared(Step(w, run[|run| - 1]), run, j, p) == true
  {
    var m, x := |run| - 1, ObjectsBefore(run, j);
    assert run[..m][j] == run[j];
    ObjectsInPrefix(run, m, j);
    CompletedInPrefix(run, x, p);
    ObjectsOfStep(w, run[m]);
    StepKeepsAccess(w, run[m], x, p);
    StepKeepsAccess(w, run[m], run[j].parent, p);
  }

  lemma {:induction false} TaskAsDeclared(run: seq<Action>, j: nat, p: nat)
    requires Legal(run) && Registers(run, j)
    ensures AsDeclared(After(run), run, j, p) == true
    decreases |run|
  {
    var m := |run| - 1;
    if j == m {
      ObjectsAreCounted(run[..m]);
      ObjectsInPrefix(run, m, m);
      NotCompletedBefore(run[..m], ObjectsBefore(run, m), p);
      CompletedInPrefix(run, ObjectsBefore(run, m), p);
      DeclaredNow(After(run[..m]), run, p);
    } else {
      TaskAsDeclared(run[..m], j, p);
      DeclaredStill(After(run[..m]), run, j, p);
    }
  }

  // ----- Main results -----

  /** Nothing keeps the task registered at step j from running, and it has declared, not weakly, and not completed an access to p. */
  ghost predicate InUse(run: seq<Action>, j: nat, p: nat)
    requires Legal(run) && Registers(run, j)
  {
    var w, x, d := After(run), ObjectsBefore(run, j), At(run[j].footprint, p);
    x < |w.objects| && Blocking(w.objects[x]) == 0 && d.Some? && !d.value.weak && !Completed(run, x, p)
  }

  lemma UseIsRunning(run: seq<Action>, j: nat, p: nat)
    requires Legal(run) && Registers(run, j) && InUse(run, j, p)
    ensures var w, x := After(run), ObjectsBefore(run, j);
            && RunningAt(w, x, p) && Content(w, x, p).ty == At(run[j].footprint, p).value.ty
            && Content(w, x, p).dom == DomainAt(w, run[j].parent, p)
  {
    var w, x := After(run), ObjectsBefore(run, j);
    TaskAsDeclared(run, j, p);
    NobodyBlocks(w.objects[x]);
    var i := AtMember(w.objects[x], p);
    BlocksExactly(Content(w, x, p));
  }

  /** In every run: two tasks with the same parent, neither of which anything keeps from running, and which both declared a byte,
      not weakly, and have not completed it, both declared to read it, or both to access it concurrently. */
  lemma DeclaredTasksShare(run: seq<Action>, i: nat, j: nat, p: nat)
    requires Legal(run) && Registers(run, i) && Registers(run, j) && i != j && run[i].parent == run[j].parent
    requires InUse(run, i, p) && InUse(run, j, p)
    ensures var a, b := At(run[i].footprint, p).value.ty, At(run[j].footprint, p).value.ty;
            (a == Read && b == Read) || (a == Concurrent && b == Concurrent)
  {
    var w, z, x := After(run), ObjectsBefore(run, i), ObjectsBefore(run, j);
    UseIsRunning(run, i, p);
    UseIsRunning(run, j, p);
    DifferentSteps(run, i, j);
    var rho, bytes := EveryByteSeesARun(run, p);
    SiblingsAreNotNested(w, z, x, p);
    SiblingsAreNotNested(w, x, z, p);
    ExclusionAtEveryByte(run, p, z, x);
  }

  lemma DifferentSteps(run: seq<Action>, i: nat, j: nat)
    requires Registers(run, i) && Registers(run, j) && i != j
    ensures ObjectsBefore(run, i) != ObjectsBefore(run, j)
  {
    if i < j {
      ObjectsGrow(run, i + 1, j);
    } else {
      ObjectsGrow(run, j + 1, i);
    }
  }

  lemma {:induction false} ObjectsGrow(run: seq<Action>, i: nat, j: nat)
    requires i <= j <= |run|
    ensures ObjectsBefore(run, i) <= ObjectsBefore(run, j)
    decreases j
  {
    if i < j {
      ObjectsGrow(run, i, j - 1);
    }
  }

  // ----- What can always be done -----

  /** The main task has no accesses, so it can register tasks with any accesses at any time. */
  predicate MainIsBare(w: World) {
    w.objects != [] && w.objects[0] == []
  }

  lemma {:induction false} MainHasNone(run: seq<Action>)
    requires Legal(run)
    ensures MainIsBare(After(run))
    decreases |run|
  {
    if run != [] {
      MainHasNone(run[..|run| - 1]);
      NoneAnywhere(After(run[..|run| - 1]), run[|run| - 1]);
    }
  }

  lemma NoneAnywhere(w: World, a: Action)
    requires Valid(w) && Enabled(w, a) && MainIsBare(w)
    ensures MainIsBare(Step(w, a))
  {
    var w' := Step(w, a);
    StepKeepsValid(w, a);
    ObjectsOfStep(w, a);
    if w'.objects[0] != [] {
      var p := w'.objects[0][0].region.start;
      assert InOrder(w'.objects[0], 0);
      StepKeepsAccess(w, a, 0, p);
    }
  }

  lemma AnythingCanBeRegistered(run: seq<Action>, footprint: seq<Node<Declaration>>)
    requires Legal(run) && Ordered(footprint)
    ensures Enabled(After(run), Register(0, footprint))
  {
    var w := After(run);
    MainHasNone(run);
    forall p: nat ensures PossibleAt(w, Register(0, footprint), p) {
      assert !Present(w, 0, p);
    }
  }
}
