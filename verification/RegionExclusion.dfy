/** What the one-byte protocol guarantees, for tasks that access any regions: at every byte, in every run. */
module RegionExclusion {
  import opened Options
  import opened DataAccesses
  import opened Regions
  import opened RegionMaps
  import opened RegionPropagation
  import opened BytewiseRefinement
  import opened RegionSystem
  import opened RegionRuns
  import Byte = Satisfiability
  import ProgramOrder
  import Dependencies

  /** The access of x to p lies in that of its parent to p, and so on: the domain where this ends. */
  function RootAt(w: World, x: nat, p: nat): Domain
    requires Present(w, x, p)
  {
    var d := Content(w, x, p).dom;
    if d.Inside? && d.owner < x && Present(w, d.owner, p) then RootAt(w, d.owner, p) else d
  }

  /** z is a, or nested in it at p. */
  ghost predicate WithinAt(w: World, a: nat, z: nat, p: nat) {
    || a == z
    || (Present(w, z, p) && Content(w, z, p).dom.Inside? && Content(w, z, p).dom.owner < z && WithinAt(w, a, Content(w, z, p).dom.owner, p))
  }

  predicate RunningAt(w: World, x: nat, p: nat) {
    Present(w, x, p) && var a := Content(w, x, p); a.kind.AccessObject? && Satisfied(a) && !a.complete
  }

  lemma {:induction false} RootSeen(w: World, x: nat, p: nat, rho: Numbering, s: Byte.State)
    requires Seen(w, p, rho, s) && Byte.Shape(s) && Present(w, x, p)
    ensures rho(x) < |s.nodes| && Dependencies.Root(s, rho(x)) == RootAt(w, x, p)
  {
    assert ShowsObject(w, p, rho, s, x) && ObjectGrounded(w, p, x) && Byte.Placed(s, rho(x));
    if Content(w, x, p).dom.Inside? {
      RootSeen(w, Content(w, x, p).dom.owner, p, rho, s);
    }
  }

  lemma {:induction false} WithinSeen(w: World, a: nat, z: nat, p: nat, rho: Numbering, s: Byte.State)
    requires Seen(w, p, rho, s) && Byte.Shape(s) && Present(w, a, p) && Present(w, z, p)
    ensures ProgramOrder.Within(s, rho(a), rho(z)) ==> WithinAt(w, a, z, p)
    decreases z
  {
    assert ShowsObject(w, p, rho, s, z) && ObjectGrounded(w, p, z) && Apart(w, p, rho, a, z);
    if Content(w, z, p).dom.Inside? {
      WithinSeen(w, a, Content(w, z, p).dom.owner, p, rho, s);
    }
  }

  /** In every run over regions and at every byte: two accesses under one root that are both satisfied and not complete there
      are nested one in the other there, or both read, or both are concurrent. */
  lemma ExclusionAtEveryByte(run: seq<Action>, p: nat, z: nat, x: nat)
    requires Legal(run)
    requires RunningAt(After(run), z, p) && RunningAt(After(run), x, p)
    requires RootAt(After(run), z, p) == RootAt(After(run), x, p)
    ensures var w := After(run);
            || WithinAt(w, z, x, p) || WithinAt(w, x, z, p)
            || Dependencies.MayShare(Content(w, z, p).ty, Content(w, x, p).ty)
  {
    var w := After(run);
    var rho, bytes := EveryByteSeesARun(run, p);
    var s := Dependencies.After(Byte.INITIAL, bytes);
    Dependencies.ReachableInvariant(bytes);
    RootSeen(w, z, p, rho, s);
    RootSeen(w, x, p, rho, s);
    WithinSeen(w, z, x, p, rho, s);
    WithinSeen(w, x, z, p, rho, s);
    assert ShowsObject(w, p, rho, s, z) && ShowsObject(w, p, rho, s, x);
    Dependencies.MutualExclusion(bytes, rho(z), rho(x));
  }

  /** Nothing keeps the task from running. */
  predicate MayRun(w: World, x: nat) {
    IsTask(w, x) && Blocking(w.objects[x]) == 0
  }

  /** The task uses the byte itself, and has not released it. */
  predicate Uses(w: World, x: nat, p: nat) {
    Present(w, x, p) && !Content(w, x, p).weak && !Content(w, x, p).complete
  }

  lemma UsedIsRunning(w: World, x: nat, p: nat)
    requires MayRun(w, x) && Uses(w, x, p)
    ensures RunningAt(w, x, p)
  {
    NobodyBlocks(w.objects[x]);
    BlocksExactly(Content(w, x, p));
    var i := AtMember(w.objects[x], p);
  }

  lemma SiblingsAreNotNested(w: World, z: nat, x: nat, p: nat)
    requires Present(w, z, p) && Present(w, x, p) && Content(w, z, p).dom == Content(w, x, p).dom && z != x
    requires Grounded(w, p)
    ensures !WithinAt(w, z, x, p) && RootAt(w, z, p) == RootAt(w, x, p)
  {
    assert ObjectGrounded(w, p, z) && ObjectGrounded(w, p, x);
    if WithinAt(w, z, x, p) {
      OuterIsEarlier(w, z, Content(w, x, p).dom.owner, p);
    }
  }

  lemma {:induction false} OuterIsEarlier(w: World, a: nat, z: nat, p: nat)
    requires WithinAt(w, a, z, p)
    ensures a <= z
    decreases z
  {
    if a != z {
      OuterIsEarlier(w, a, Content(w, z, p).dom.owner, p);
    }
  }

  /** Two tasks that may both run, with the same parent task, use no byte in common except to read it, or concurrently. */
  lemma RunningTasksShare(run: seq<Action>, p: nat, z: nat, x: nat)
    requires Legal(run) && z != x
    requires MayRun(After(run), z) && Uses(After(run), z, p)
    requires MayRun(After(run), x) && Uses(After(run), x, p)
    requires Content(After(run), z, p).dom == Content(After(run), x, p).dom
    ensures var w := After(run); Dependencies.MayShare(Content(w, z, p).ty, Content(w, x, p).ty)
  {
    var w := After(run);
    var rho, bytes := EveryByteSeesARun(run, p);
    UsedIsRunning(w, z, p);
    UsedIsRunning(w, x, p);
    SiblingsAreNotNested(w, z, x, p);
    SiblingsAreNotNested(w, x, z, p);
    ExclusionAtEveryByte(run, p, z, x);
  }

  /** In every run over regions: a queued update has a target at every byte of its region, which there lacks every bit that
      the update carries. */
  lemma UpdatesArriveOnce(run: seq<Action>, k: nat, p: nat)
    requires Legal(run) && k < |After(run).queue| && After(run).queue[k].region.Contains(p)
    ensures var w := After(run); var op := w.queue[k];
            Present(w, op.target, p) && Content(w, op.target, p).received !! op.bits
  {
    var w := After(run);
    var op, i := w.queue[k], PositionAt(w, k, p);
    var rho, bytes := EveryByteSeesARun(run, p);
    QueueWithout(w, k, p);
    Dependencies.BitsArriveOnce(bytes, i);
    assert ShowsObject(w, p, rho, Dependencies.After(Byte.INITIAL, bytes), op.target);
  }
}
