/** Any number of collaborators claiming the chunks of one taskloop, in every interleaving of their atomic steps. */
module TaskloopRun {
  import opened TaskloopPartitions
  import opened PartitionPaths
  import opened Sums

  datatype Partition = Partition(bounds: Bounds, next: nat)

  /** Where a collaborator is in its loop. It holds the claimed chunk until it has executed it; between claiming the
      last chunk of a partition and executing it, it takes the partition off the shared count. */
  datatype Phase =
    | Claiming
    | Finishing(lower: nat, upper: nat)
    | Executing(lower: nat, upper: nat)
    | Checking
    | Returned

  datatype Collaborator = Collaborator(path: seq<nat>, visited: nat, phase: Phase)

  datatype Chunk = Chunk(lower: nat, upper: nat)

  datatype State = State(partitions: seq<Partition>, remaining: int, collaborators: seq<Collaborator>, executed: seq<Chunk>)

  datatype Action =
    | Start(cpu: nat, zigzag: bool, path: seq<nat>)
    | Claim(id: nat)
    | Decrement(id: nat)
    | Execute(id: nat)
    | Check(id: nat)

  function HasMore(): Partition -> nat {
    (p: Partition) => if p.next < p.bounds.upper then 1 else 0
  }

  function AboutToDecrement(): Collaborator -> nat {
    (c: Collaborator) => if c.phase.Finishing? then 1 else 0
  }

  predicate HoldsIteration(p: Phase, x: nat) {
    (p.Finishing? || p.Executing?) && p.lower <= x < p.upper
  }

  function Holding(x: nat): Collaborator -> nat {
    (c: Collaborator) => if HoldsIteration(c.phase, x) then 1 else 0
  }

  function Covering(x: nat): Chunk -> nat {
    (c: Chunk) => if c.lower <= x < c.upper then 1 else 0
  }

  // ---- steps ----

  function Initial(loop: seq<Bounds>): State {
    var partitions := seq(|loop|, i requires 0 <= i < |loop| => Partition(loop[i], loop[i].lower));
    State(partitions, Sum(partitions, HasMore()), [], [])
  }

  predicate AtPhase(s: State, id: nat) {
    id < |s.collaborators| && var c := s.collaborators[id];
    !c.phase.Returned? && (c.phase.Claiming? ==> c.visited < |c.path| && c.path[c.visited] < |s.partitions|)
  }

  predicate Enabled(s: State, a: Action) {
    match a
    case Start(cpu, zigzag, path) => |s.partitions| > 0 && IsPath(path, cpu, |s.partitions|, zigzag)
    case Claim(id) => AtPhase(s, id) && s.collaborators[id].phase.Claiming?
    case Decrement(id) => AtPhase(s, id) && s.collaborators[id].phase.Finishing?
    case Execute(id) => AtPhase(s, id) && s.collaborators[id].phase.Executing?
    case Check(id) => AtPhase(s, id) && s.collaborators[id].phase.Checking?
  }

  function Moved(s: State, id: nat, phase: Phase): seq<Collaborator>
    requires id < |s.collaborators|
  {
    s.collaborators[id := s.collaborators[id].(phase := phase)]
  }

  /** What the chunk starting at `lower` means for the collaborator that has just fetched it. */
  function Fetched(b: Bounds, lower: nat): Phase {
    if lower >= b.upper then Checking
    else if lower + b.chunksize >= b.upper then Finishing(lower, b.upper)
    else Executing(lower, lower + b.chunksize)
  }

  /** The atomic addition to the partition's next lower bound, and what the collaborator decides from it. */
  function ClaimChunk(s: State, id: nat): State
    requires Enabled(s, Claim(id))
  {
    var c := s.collaborators[id];
    var at := c.path[c.visited];
    var p := s.partitions[at];
    var phase := Fetched(p.bounds, p.next);
    s.(partitions := s.partitions[at := p.(next := p.next + p.bounds.chunksize)],
       collaborators := s.collaborators[id := Collaborator(c.path, if phase.Checking? then c.visited + 1 else c.visited, phase)])
  }

  function Step(s: State, a: Action): State
    requires Enabled(s, a)
  {
    match a
    case Start(_, _, path) => s.(collaborators := s.collaborators + [Collaborator(path, 0, Claiming)])
    case Claim(id) => ClaimChunk(s, id)
    case Decrement(id) =>
      var held := s.collaborators[id].phase;
      s.(remaining := s.remaining - 1, collaborators := Moved(s, id, Executing(held.lower, held.upper)))
    case Execute(id) =>
      var held := s.collaborators[id].phase;
      s.(executed := s.executed + [Chunk(held.lower, held.upper)], collaborators := Moved(s, id, Claiming))
    case Check(id) =>
      var c := s.collaborators[id];
      s.(collaborators := Moved(s, id, if s.remaining <= 0 || c.visited == |s.partitions| then Returned else Claiming))
  }

  predicate Legal(s: State, run: seq<Action>)
    decreases |run|
  {
    run != [] ==> Enabled(s, run[0]) && Legal(Step(s, run[0]), run[1..])
  }

  function After(s: State, run: seq<Action>): State
    requires Legal(s, run)
    decreases |run|
  {
    if run == [] then s else After(Step(s, run[0]), run[1..])
  }

  // ---- what every step keeps ----

  predicate Exhausted(s: State, p: nat) {
    p < |s.partitions| && s.partitions[p].next >= s.partitions[p].bounds.upper
  }

  predicate SamePartition(s: State, loop: seq<Bounds>, p: nat) {
    p < |s.partitions| == |loop| && s.partitions[p].bounds == loop[p] && s.partitions[p].next >= loop[p].lower && loop[p].chunksize > 0
  }

  predicate CoversAll(path: seq<nat>, n: nat) {
    |path| == n && (forall i :: 0 <= i < n ==> path[i] < n) && (forall p: nat :: p < n ==> p in path)
  }

  predicate AllExhausted(s: State) {
    forall p :: 0 <= p < |s.partitions| ==> Exhausted(s, p)
  }

  /** A collaborator has found every partition it has left behind exhausted. */
  predicate OnItsWay(s: State, id: nat)
    requires id < |s.collaborators|
  {
    var c := s.collaborators[id];
    && CoversAll(c.path, |s.partitions|)
    && (if c.phase.Checking? || c.phase.Returned? then c.visited <= |c.path| else c.visited < |c.path|)
    && (forall k :: 0 <= k < c.visited ==> Exhausted(s, c.path[k]))
    && (c.phase.Returned? ==> AllExhausted(s))
  }

  /** Iteration x has been handed out by partition p. */
  predicate HandedBy(s: State, p: nat, x: nat)
    requires p < |s.partitions|
  {
    s.partitions[p].bounds.lower <= x < s.partitions[p].bounds.upper && x < s.partitions[p].next
  }

  predicate Handed(s: State, x: nat) {
    exists p :: 0 <= p < |s.partitions| && HandedBy(s, p, x)
  }

  /** How many times iteration x has been claimed: it has been executed or somebody is about to. */
  function Claims(s: State, x: nat): nat {
    Sum(s.executed, Covering(x)) + Sum(s.collaborators, Holding(x))
  }

  predicate ClaimedOnce(s: State, x: nat) {
    Claims(s, x) == if Handed(s, x) then 1 else 0
  }

  predicate Counted(s: State) {
    s.remaining == Sum(s.partitions, HasMore()) + Sum(s.collaborators, AboutToDecrement())
  }

  ghost predicate Invariant(s: State, loop: seq<Bounds>, lower: nat, upper: nat) {
    && Tile(loop, lower, upper)
    && |s.partitions| == |loop|
    && (forall p :: 0 <= p < |loop| ==> SamePartition(s, loop, p))
    && (forall id :: 0 <= id < |s.collaborators| ==> OnItsWay(s, id))
    && (forall x :: ClaimedOnce(s, x))
    && Counted(s)
  }

  lemma {:induction false} TileInOrder(loop: seq<Bounds>, lower: nat, upper: nat, p: nat, q: nat)
    requires Tile(loop, lower, upper) && p < q < |loop|
    ensures loop[p].upper <= loop[q].lower
    decreases q
  {
    assert Joined(loop, lower, q) && Joined(loop, lower, q - 1);
    if p < q - 1 {
      TileInOrder(loop, lower, upper, p, q - 1);
    }
  }

  lemma {:induction false} FindPartition(loop: seq<Bounds>, lower: nat, x: nat, n: nat) returns (p: nat)
    requires 0 < n <= |loop| && (forall i :: 0 <= i < |loop| ==> Joined(loop, lower, i))
    requires lower <= x < loop[n - 1].upper
    ensures p < n && loop[p].lower <= x < loop[p].upper
  {
    p := n - 1;
    assert Joined(loop, lower, n - 1);
    if x < loop[p].lower {
      p := FindPartition(loop, lower, x, n - 1);
    }
  }

  /** Partitions are only ever left exhausted. */
  lemma ExhaustionIsStable(s: State, a: Action, p: nat)
    requires Enabled(s, a) && Exhausted(s, p)
    ensures Exhausted(Step(s, a), p)
  {
  }

  lemma WaysKept(s: State, a: Action, loop: seq<Bounds>, lower: nat, upper: nat)
    requires Invariant(s, loop, lower, upper) && Enabled(s, a)
    ensures var t := Step(s, a); forall id :: 0 <= id < |t.collaborators| ==> OnItsWay(t, id)
  {
    var t := Step(s, a);
    forall id | 0 <= id < |t.collaborators| ensures OnItsWay(t, id) {
      if a.Start? && id == |s.collaborators| {
        PathCovers(a.path, a.cpu, |s.partitions|, a.zigzag);
      } else {
        assert OnItsWay(s, id);
        var c, d := s.collaborators[id], t.collaborators[id];
        forall k | 0 <= k < d.visited ensures Exhausted(t, d.path[k]) {
          if k < c.visited {
            ExhaustionIsStable(s, a, c.path[k]);
          }
        }
        if d.phase.Returned? {
          ReturnsWhenExhausted(s, a, id, loop, lower, upper);
        }
      }
    }
  }

  lemma PathCovers(path: seq<nat>, cpu: nat, n: nat, zigzag: bool)
    requires n > 0 && IsPath(path, cpu, n, zigzag)
    ensures CoversAll(path, n)
  {
    forall p: nat | p < n ensures p in path {
      PathVisitsEachOnce(path, cpu, n, zigzag, p);
    }
  }

  lemma ReturnsWhenExhausted(s: State, a: Action, id: nat, loop: seq<Bounds>, lower: nat, upper: nat)
    requires Invariant(s, loop, lower, upper) && Enabled(s, a)
    requires id < |s.collaborators| && Step(s, a).collaborators[id].phase.Returned?
    ensures AllExhausted(Step(s, a))
  {
    var c := s.collaborators[id];
    assert OnItsWay(s, id);
    forall p: nat | p < |s.partitions| ensures Exhausted(Step(s, a), p) {
      if !c.phase.Returned? {
        if c.visited == |c.path| {
          assert p in c.path;
        } else {
          SumAtLeast(s.partitions, p, HasMore());
        }
      }
      assert Exhausted(s, p);
      ExhaustionIsStable(s, a, p);
    }
  }

  lemma CountKept(s: State, a: Action, loop: seq<Bounds>, lower: nat, upper: nat)
    requires Invariant(s, loop, lower, upper) && Enabled(s, a)
    ensures Counted(Step(s, a))
  {
    var t := Step(s, a);
    match a
    case Start(_, _, path) =>
      SumAppend(s.collaborators, t.collaborators[|s.collaborators|], AboutToDecrement());
    case Claim(id) =>
      var at := s.collaborators[id].path[s.collaborators[id].visited];
      assert SamePartition(s, loop, at);
      SumUpdate(s.partitions, at, t.partitions[at], HasMore());
      SumUpdate(s.collaborators, id, t.collaborators[id], AboutToDecrement());
    case Decrement(id) => SumUpdate(s.collaborators, id, t.collaborators[id], AboutToDecrement());
    case Execute(id) => SumUpdate(s.collaborators, id, t.collaborators[id], AboutToDecrement());
    case Check(id) => SumUpdate(s.collaborators, id, t.collaborators[id], AboutToDecrement());
  }

  /** Outside a claim, nothing is handed out and nothing is lost. */
  lemma HandedKept(s: State, t: State, x: nat)
    requires s.partitions == t.partitions && ClaimedOnce(s, x) && Claims(t, x) == Claims(s, x)
    ensures ClaimedOnce(t, x)
  {
    assert forall p :: 0 <= p < |s.partitions| ==> HandedBy(s, p, x) == HandedBy(t, p, x);
  }

  /** A claim hands out exactly the iterations of the chunk that the collaborator now holds. */
  lemma ClaimHandsOut(s: State, id: nat, loop: seq<Bounds>, lower: nat, upper: nat, x: nat)
    requires Invariant(s, loop, lower, upper) && Enabled(s, Claim(id))
    ensures var t := ClaimChunk(s, id); var held := HoldsIteration(t.collaborators[id].phase, x);
            (held ==> !Handed(s, x)) && (Handed(t, x) <==> Handed(s, x) || held)
  {
    var t := ClaimChunk(s, id);
    var at := s.collaborators[id].path[s.collaborators[id].visited];
    var held := HoldsIteration(t.collaborators[id].phase, x);
    assert SamePartition(s, loop, at);
    assert HandedBy(t, at, x) <==> HandedBy(s, at, x) || held;
    assert held ==> !HandedBy(s, at, x);
    forall p | 0 <= p < |loop| && p != at
      ensures HandedBy(t, p, x) == HandedBy(s, p, x) && (held ==> !HandedBy(s, p, x))
    {
      assert SamePartition(s, loop, p);
      if p < at {
        TileInOrder(loop, lower, upper, p, at);
      } else {
        TileInOrder(loop, lower, upper, at, p);
      }
    }
  }

  lemma ClaimsKept(s: State, a: Action, loop: seq<Bounds>, lower: nat, upper: nat, x: nat)
    requires Invariant(s, loop, lower, upper) && Enabled(s, a)
    ensures ClaimedOnce(Step(s, a), x)
  {
    var t := Step(s, a);
    assert ClaimedOnce(s, x);
    if a.Start? {
      SumAppend(s.collaborators, t.collaborators[|s.collaborators|], Holding(x));
    } else {
      SumUpdate(s.collaborators, a.id, t.collaborators[a.id], Holding(x));
    }
    if a.Claim? {
      ClaimHandsOut(s, a.id, loop, lower, upper, x);
    } else {
      if a.Execute? {
        SumAppend(s.executed, t.executed[|s.executed|], Covering(x));
      }
      HandedKept(s, t, x);
    }
  }

  lemma StepKeepsInvariant(s: State, a: Action, loop: seq<Bounds>, lower: nat, upper: nat)
    requires Invariant(s, loop, lower, upper) && Enabled(s, a)
    ensures Invariant(Step(s, a), loop, lower, upper)
  {
    var t := Step(s, a);
    WaysKept(s, a, loop, lower, upper);
    CountKept(s, a, loop, lower, upper);
    forall x ensures ClaimedOnce(t, x) {
      ClaimsKept(s, a, loop, lower, upper, x);
    }
    forall p | 0 <= p < |loop| ensures SamePartition(t, loop, p) {
      assert SamePartition(s, loop, p);
    }
  }

  lemma {:induction false} RunsKeepInvariant(s: State, run: seq<Action>, loop: seq<Bounds>, lower: nat, upper: nat)
    requires Invariant(s, loop, lower, upper) && Legal(s, run)
    ensures Invariant(After(s, run), loop, lower, upper)
    decreases |run|
  {
    if run != [] {
      StepKeepsInvariant(s, run[0], loop, lower, upper);
      RunsKeepInvariant(Step(s, run[0]), run[1..], loop, lower, upper);
    }
  }

  lemma InitialInvariant(loop: seq<Bounds>, lower: nat, upper: nat)
    requires Tile(loop, lower, upper) && forall p :: 0 <= p < |loop| ==> loop[p].chunksize > 0
    ensures Invariant(Initial(loop), loop, lower, upper)
  {
    var s := Initial(loop);
    forall p | 0 <= p < |loop| ensures SamePartition(s, loop, p) { }
    forall x ensures ClaimedOnce(s, x) {
      assert forall p :: 0 <= p < |s.partitions| ==> !HandedBy(s, p, x);
    }
  }

  // ---- main results ----

  predicate SomebodyReturned(s: State) {
    exists c :: c in s.collaborators && c.phase.Returned?
  }

  /** In every run, no iteration is ever claimed twice and none outside the loop is; and once any collaborator has
      returned, every iteration of the loop has been claimed. */
  lemma EveryIterationClaimedOnce(loop: seq<Bounds>, lower: nat, upper: nat, run: seq<Action>, x: nat)
    requires Tile(loop, lower, upper) && forall p :: 0 <= p < |loop| ==> loop[p].chunksize > 0
    requires Legal(Initial(loop), run)
    ensures var s := After(Initial(loop), run);
            && Claims(s, x) <= 1
            && (Claims(s, x) == 1 ==> lower <= x < upper)
            && (SomebodyReturned(s) && lower <= x < upper ==> Claims(s, x) == 1)
  {
    InitialInvariant(loop, lower, upper);
    RunsKeepInvariant(Initial(loop), run, loop, lower, upper);
    var s := After(Initial(loop), run);
    assert ClaimedOnce(s, x);
    if Handed(s, x) {
      InsideTheLoop(s, loop, lower, upper, x);
    }
    if SomebodyReturned(s) && lower <= x < upper {
      var id :| 0 <= id < |s.collaborators| && s.collaborators[id].phase.Returned?;
      assert OnItsWay(s, id);
      var p := FindPartition(loop, lower, x, |loop|);
      assert SamePartition(s, loop, p) && Exhausted(s, p);
      assert HandedBy(s, p, x);
    }
  }

  lemma InsideTheLoop(s: State, loop: seq<Bounds>, lower: nat, upper: nat, x: nat)
    requires Invariant(s, loop, lower, upper) && Handed(s, x)
    ensures lower <= x < upper
  {
    var p :| 0 <= p < |s.partitions| && HandedBy(s, p, x);
    assert SamePartition(s, loop, p) && Joined(loop, lower, p) && Joined(loop, lower, 0);
    if p > 0 {
      TileInOrder(loop, lower, upper, 0, p);
    }
    if p < |loop| - 1 {
      TileInOrder(loop, lower, upper, p, |loop| - 1);
      assert Joined(loop, lower, |loop| - 1);
    }
  }

  /** When all the collaborators have returned, every iteration has been executed exactly once. */
  lemma EveryIterationExecutedOnce(loop: seq<Bounds>, lower: nat, upper: nat, run: seq<Action>, x: nat)
    requires Tile(loop, lower, upper) && forall p :: 0 <= p < |loop| ==> loop[p].chunksize > 0
    requires Legal(Initial(loop), run)
    ensures var s := After(Initial(loop), run);
            s.collaborators != [] && (forall c :: c in s.collaborators ==> c.phase.Returned?) ==>
              Sum(s.executed, Covering(x)) == if lower <= x < upper then 1 else 0
  {
    var s := After(Initial(loop), run);
    EveryIterationClaimedOnce(loop, lower, upper, run, x);
    if s.collaborators != [] && forall c :: c in s.collaborators ==> c.phase.Returned? {
      assert s.collaborators[0] in s.collaborators;
      SumOfZeros(s.collaborators, Holding(x));
    }
  }

  /** In every run, a collaborator that has found a partition exhausted returns exactly if it has tried all of them, or no
      partition has chunks left and nobody is about to report one as finished. */
  lemma ReturnsExactly(loop: seq<Bounds>, lower: nat, upper: nat, run: seq<Action>, id: nat)
    requires Tile(loop, lower, upper) && forall p :: 0 <= p < |loop| ==> loop[p].chunksize > 0
    requires Legal(Initial(loop), run) && Enabled(After(Initial(loop), run), Check(id))
    ensures var s := After(Initial(loop), run);
            Step(s, Check(id)).collaborators[id].phase.Returned?
            <==> s.collaborators[id].visited == |loop| || (AllExhausted(s) && forall c :: c in s.collaborators ==> !c.phase.Finishing?)
  {
    InitialInvariant(loop, lower, upper);
    RunsKeepInvariant(Initial(loop), run, loop, lower, upper);
    var s := After(Initial(loop), run);
    if AllExhausted(s) && forall c :: c in s.collaborators ==> !c.phase.Finishing? {
      forall p | p in s.partitions ensures HasMore()(p) == 0 {
        var i :| 0 <= i < |s.partitions| && s.partitions[i] == p;
        assert Exhausted(s, i);
      }
      SumOfZeros(s.partitions, HasMore());
      SumOfZeros(s.collaborators, AboutToDecrement());
    }
    if s.remaining <= 0 {
      forall p | 0 <= p < |s.partitions| ensures Exhausted(s, p) {
        SumAtLeast(s.partitions, p, HasMore());
      }
      forall c | c in s.collaborators ensures !c.phase.Finishing? {
        var i :| 0 <= i < |s.collaborators| && s.collaborators[i] == c;
        SumAtLeast(s.collaborators, i, AboutToDecrement());
      }
    }
  }

  // ---- no collaborator goes on forever ----

  function Left(): Partition -> nat {
    (p: Partition) => if p.next < p.bounds.upper then p.bounds.upper - p.next else 0
  }

  function StepsOfOne(n: nat, c: Collaborator): nat {
    var ahead := if c.visited < n then 2 * (n - c.visited) else 0;
    match c.phase
    case Claiming => ahead + 1
    case Finishing(_, _) => ahead + 3
    case Executing(_, _) => ahead + 2
    case Checking => ahead + 2
    case Returned => 0
  }

  function Steps(n: nat): Collaborator -> nat {
    (c: Collaborator) => StepsOfOne(n, c)
  }

  /** A bound on the steps that the collaborators started so far can still make. */
  function StepsLeft(s: State): nat {
    3 * Sum(s.partitions, Left()) + Sum(s.collaborators, Steps(|s.partitions|))
  }

  lemma ClaimSpends(s: State, id: nat, loop: seq<Bounds>, lower: nat, upper: nat)
    requires Invariant(s, loop, lower, upper) && Enabled(s, Claim(id))
    ensures StepsLeft(ClaimChunk(s, id)) < StepsLeft(s)
  {
    var t := ClaimChunk(s, id);
    var at := s.collaborators[id].path[s.collaborators[id].visited];
    assert OnItsWay(s, id) && SamePartition(s, loop, at);
    SumUpdate(s.collaborators, id, t.collaborators[id], Steps(|loop|));
    SumUpdate(s.partitions, at, t.partitions[at], Left());
  }

  lemma StepSpends(s: State, a: Action, loop: seq<Bounds>, lower: nat, upper: nat)
    requires Invariant(s, loop, lower, upper) && Enabled(s, a)
    ensures StepsLeft(Step(s, a)) < if a.Start? then StepsLeft(s) + 2 * |loop| + 2 else StepsLeft(s)
  {
    var t := Step(s, a);
    if a.Start? {
      SumAppend(s.collaborators, t.collaborators[|s.collaborators|], Steps(|loop|));
    } else if a.Claim? {
      ClaimSpends(s, a.id, loop, lower, upper);
    } else {
      assert OnItsWay(s, a.id);
      SumUpdate(s.collaborators, a.id, t.collaborators[a.id], Steps(|loop|));
    }
  }

  function Starts(run: seq<Action>): nat {
    if run == [] then 0 else (if run[0].Start? then 1 else 0) + Starts(run[1..])
  }

  /** However the steps interleave, a given number of collaborators can make only so many of them. */
  lemma {:induction false} RunsAreBounded(s: State, run: seq<Action>, loop: seq<Bounds>, lower: nat, upper: nat)
    requires Invariant(s, loop, lower, upper) && Legal(s, run)
    ensures |run| + StepsLeft(After(s, run)) <= StepsLeft(s) + Starts(run) * (2 * |loop| + 2)
    decreases |run|
  {
    if run != [] {
      StepKeepsInvariant(s, run[0], loop, lower, upper);
      StepSpends(s, run[0], loop, lower, upper);
      RunsAreBounded(Step(s, run[0]), run[1..], loop, lower, upper);
      var c := 2 * |loop| + 2;
      assert (1 + Starts(run[1..])) * c == c + Starts(run[1..]) * c;
    }
  }

  /** Nobody gets stuck: a collaborator that has not returned can make its next step. */
  lemma NobodyStuck(s: State, id: nat, loop: seq<Bounds>, lower: nat, upper: nat)
    requires Invariant(s, loop, lower, upper) && id < |s.collaborators| && !s.collaborators[id].phase.Returned?
    ensures exists a: Action :: !a.Start? && a.id == id && Enabled(s, a)
  {
    assert OnItsWay(s, id);
    var a := match s.collaborators[id].phase
      case Claiming => Claim(id)
      case Finishing(_, _) => Decrement(id)
      case Executing(_, _) => Execute(id)
      case Checking => Check(id)
      case Returned => Check(id);
    assert Enabled(s, a);
  }
}
