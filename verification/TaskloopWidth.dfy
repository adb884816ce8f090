/** Taskloop counters of a given width, which wrap around: when they give out the right chunks all the same. */
module TaskloopWidth {
  import Division
  import opened TaskloopPartitions
  import opened TaskloopRun
  import opened TaskloopCounter

  // ---- steps ----

  /** What the chunk starting at `lower` means, when its end is computed in `width` values. */
  function WrappedFetch(b: Bounds, lower: nat, width: nat): Phase
    requires width > 0
  {
    var end := (lower + b.chunksize) % width;
    if lower >= b.upper then Checking
    else if end >= b.upper then Finishing(lower, b.upper)
    else Executing(lower, end)
  }

  function WrappedClaim(s: State, id: nat, width: nat): State
    requires Enabled(s, Claim(id)) && width > 0
  {
    var c := s.collaborators[id];
    var at := c.path[c.visited];
    var p := s.partitions[at];
    var phase := WrappedFetch(p.bounds, p.next, width);
    s.(partitions := s.partitions[at := p.(next := (p.next + p.bounds.chunksize) % width)],
       collaborators := s.collaborators[id := Collaborator(c.path, if phase.Checking? then c.visited + 1 else c.visited, phase)])
  }

  function WrappedStep(s: State, a: Action, width: nat): State
    requires Enabled(s, a) && width > 0
  {
    if a.Claim? then WrappedClaim(s, a.id, width) else Step(s, a)
  }

  predicate WrappedLegal(s: State, run: seq<Action>, width: nat)
    requires width > 0
    decreases |run|
  {
    run != [] ==> Enabled(s, run[0]) && WrappedLegal(WrappedStep(s, run[0], width), run[1..], width)
  }

  function WrappedAfter(s: State, run: seq<Action>, width: nat): State
    requires width > 0 && WrappedLegal(s, run, width)
    decreases |run|
  {
    if run == [] then s else WrappedAfter(WrappedStep(s, run[0], width), run[1..], width)
  }

  /** Collaborator id, when it makes its claim, gets a chunk that is not empty, lies in the partition that it tries, and has
      no iteration that was claimed before; or it gets none. */
  ghost predicate RightChunk(s: State, id: nat, width: nat)
    requires Enabled(s, Claim(id)) && width > 0
  {
    var c := s.collaborators[id];
    var b := s.partitions[c.path[c.visited]].bounds;
    var phase := WrappedFetch(b, s.partitions[c.path[c.visited]].next, width);
    phase.Checking?
    || (b.lower <= phase.lower < phase.upper <= b.upper && forall x :: phase.lower <= x < phase.upper ==> Claims(s, x) == 0)
  }

  ghost predicate RightChunks(s: State, width: nat)
    requires width > 0
  {
    forall id: nat :: Enabled(s, Claim(id)) ==> RightChunk(s, id, width)
  }

  // ---- the width that is needed ----

  /** The bounds and the size of a chunk are themselves numbers of that width. */
  predicate Representable(b: Bounds, width: nat) {
    b.lower <= b.upper < width && 0 < b.chunksize < width
  }

  predicate StaysAbove(b: Bounds, times: nat, width: nat)
    requires width > 0
  {
    (b.lower + times * b.chunksize) % width >= b.upper
  }

  /** The last chunk does not reach the width, and none of the n attempts after it finds the counter below the end. */
  ghost predicate Fits(b: Bounds, n: nat, width: nat)
    requires Representable(b, width)
  {
    && (b.lower < b.upper ==> b.lower + ChunksOf(b) * b.chunksize < width)
    && forall times: nat :: ChunksOf(b) <= times < ChunksOf(b) + n ==> StaysAbove(b, times, width)
  }

  // ---- attempts that mean what they should ----

  predicate Agrees(b: Bounds, times: nat, width: nat)
    requires width > 0
  {
    var lower := b.lower + times * b.chunksize;
    WrappedFetch(b, lower % width, width) == Fetched(b, lower)
  }

  lemma AgreesExactly(b: Bounds, times: nat, width: nat)
    requires Representable(b, width)
    ensures var chunks := ChunksOf(b);
            Agrees(b, times, width) <==>
              if times + 1 < chunks then true
              else if times < chunks then b.lower + chunks * b.chunksize < width
              else StaysAbove(b, times, width)
  {
    var lower := b.lower + times * b.chunksize;
    StillChunks(b, times);
    StillChunks(b, times + 1);
    assert (times + 1) * b.chunksize == times * b.chunksize + b.chunksize;
    if lower < b.upper {
      SmallRemainder(lower, width);
      var end := lower + b.chunksize;
      if end < width {
        SmallRemainder(end, width);
      } else {
        Division.Quotient(end, width, 1, end - width);
      }
    }
  }

  lemma SmallRemainder(x: nat, width: nat)
    requires x < width
    ensures x % width == x
  {
    Division.Quotient(x, width, 0, x);
  }

  lemma FittingAgrees(b: Bounds, n: nat, width: nat, times: nat)
    requires Representable(b, width) && Fits(b, n, width) && times < ChunksOf(b) + n
    ensures Agrees(b, times, width)
  {
    AgreesExactly(b, times, width);
    StillChunks(b, 0);
    if times >= ChunksOf(b) {
      assert StaysAbove(b, times, width);
    }
  }

  /** If it does not fit, some attempt is the first that goes wrong. */
  lemma FirstWrong(b: Bounds, n: nat, width: nat) returns (times: nat)
    requires Representable(b, width) && !Fits(b, n, width) && n > 0
    ensures times < ChunksOf(b) + n && !Agrees(b, times, width)
    ensures forall t: nat :: t < times ==> Agrees(b, t, width)
  {
    StillChunks(b, 0);
    var wrong: nat;
    if b.lower < b.upper && b.lower + ChunksOf(b) * b.chunksize >= width {
      wrong := ChunksOf(b) - 1;
    } else {
      wrong :| ChunksOf(b) <= wrong < ChunksOf(b) + n && !StaysAbove(b, wrong, width);
    }
    AgreesExactly(b, wrong, width);
    times := Least(b, width, wrong);
  }

  lemma {:induction false} Least(b: Bounds, width: nat, wrong: nat) returns (times: nat)
    requires width > 0 && !Agrees(b, wrong, width)
    ensures times <= wrong && !Agrees(b, times, width) && forall t: nat :: t < times ==> Agrees(b, t, width)
    decreases wrong
  {
    if t: nat :| t < wrong && !Agrees(b, t, width) {
      times := Least(b, width, t);
    } else {
      times := wrong;
    }
  }

  // ---- runs that are those of unbounded counters ----

  function Wrapped(p: Partition, width: nat): Partition
    requires width > 0
  {
    p.(next := p.next % width)
  }

  function Wrap(s: State, width: nat): State
    requires width > 0
  {
    s.(partitions := seq(|s.partitions|, i requires 0 <= i < |s.partitions| => Wrapped(s.partitions[i], width)))
  }

  /** The next attempt at partition p means what it should. */
  predicate NextAgrees(s: State, p: nat, width: nat)
    requires width > 0 && p < |s.partitions|
  {
    WrappedFetch(s.partitions[p].bounds, s.partitions[p].next % width, width) == Fetched(s.partitions[p].bounds, s.partitions[p].next)
  }

  lemma WrappedEnabled(s: State, a: Action, width: nat)
    requires width > 0
    ensures Enabled(Wrap(s, width), a) <==> Enabled(s, a)
  {
  }

  lemma StepWraps(s: State, a: Action, width: nat)
    requires width > 0 && Enabled(s, a)
    requires a.Claim? ==> NextAgrees(s, s.collaborators[a.id].path[s.collaborators[a.id].visited], width)
    ensures Enabled(Wrap(s, width), a) && WrappedStep(Wrap(s, width), a, width) == Wrap(Step(s, a), width)
  {
    if a.Claim? {
      var at := s.collaborators[a.id].path[s.collaborators[a.id].visited];
      Division.SameRemainder(s.partitions[at].next, s.partitions[at].bounds.chunksize, width);
      var w, t := WrappedStep(Wrap(s, width), a, width), Wrap(Step(s, a), width);
      assert w.partitions == t.partitions;
    }
  }

  predicate CanHold(loop: seq<Bounds>, width: nat) {
    forall p :: 0 <= p < |loop| ==> Representable(loop[p], width)
  }

  ghost predicate AllFit(loop: seq<Bounds>, n: nat, width: nat)
    requires CanHold(loop, width)
  {
    forall p :: 0 <= p < |loop| ==> Fits(loop[p], n, width)
  }

  ghost predicate AllAccounted(s: State, loop: seq<Bounds>, width: nat)
    requires CanHold(loop, width)
  {
    |s.partitions| == |loop| && forall p :: 0 <= p < |loop| ==> Accounted(s, loop[p], p)
  }

  lemma AllStepsAccount(s: State, a: Action, loop: seq<Bounds>, width: nat)
    requires CanHold(loop, width) && AllAccounted(s, loop, width) && Enabled(s, a)
    ensures AllAccounted(Step(s, a), loop, width)
  {
    forall p | 0 <= p < |loop| ensures Accounted(Step(s, a), loop[p], p) {
      StepAccounts(s, a, loop[p], p);
    }
  }

  /** With few enough collaborators, the next attempt is one that fits. */
  lemma ClaimAgrees(s: State, id: nat, loop: seq<Bounds>, n: nat, width: nat)
    requires CanHold(loop, width) && AllFit(loop, n, width) && AllAccounted(s, loop, width)
    requires Enabled(s, Claim(id)) && |s.collaborators| <= n && width > 0
    ensures NextAgrees(s, s.collaborators[id].path[s.collaborators[id].visited], width)
  {
    var p := s.collaborators[id].path[s.collaborators[id].visited];
    var b, t := loop[p], Step(s, Claim(id));
    assert Accounted(s, b, p);
    StepAccounts(s, Claim(id), b, p);
    var times: nat :| Raised(t, b, p, times);
    OnePassEach(t.collaborators, p);
    var before: nat :| Raised(s, b, p, before);
    assert (before + 1) * b.chunksize == before * b.chunksize + b.chunksize;
    SameMultiple(times, before + 1, b.chunksize);
    FittingAgrees(b, n, width, before);
  }

  lemma SameMultiple(x: nat, y: nat, c: nat)
    requires x * c == y * c && c > 0
    ensures x == y
  {
    Division.Cancel(c, x, y);
    Division.Cancel(c, y, x);
  }

  /** Every run on wrapped counters that fit is one on unbounded counters. */
  lemma {:induction false} WrappedRunIsImage(s: State, run: seq<Action>, loop: seq<Bounds>, n: nat, width: nat)
    requires width > 0 && CanHold(loop, width) && AllFit(loop, n, width) && AllAccounted(s, loop, width)
    requires |s.collaborators| + Starts(run) <= n && WrappedLegal(Wrap(s, width), run, width)
    ensures Legal(s, run) && WrappedAfter(Wrap(s, width), run, width) == Wrap(After(s, run), width)
    ensures AllAccounted(After(s, run), loop, width) && |After(s, run).collaborators| == |s.collaborators| + Starts(run)
    decreases |run|
  {
    if run != [] {
      var a := run[0];
      WrappedEnabled(s, a, width);
      if a.Claim? {
        ClaimAgrees(s, a.id, loop, n, width);
      }
      StepWraps(s, a, width);
      AllStepsAccount(s, a, loop, width);
      WrappedRunIsImage(Step(s, a), run[1..], loop, n, width);
    }
  }

  lemma InitialWraps(loop: seq<Bounds>, width: nat)
    requires width > 0 && CanHold(loop, width)
    ensures Wrap(Initial(loop), width) == Initial(loop) && AllAccounted(Initial(loop), loop, width)
  {
    var s := Initial(loop);
    forall p | 0 <= p < |loop| ensures Wrapped(s.partitions[p], width) == s.partitions[p] && Accounted(s, loop[p], p) {
      SmallRemainder(loop[p].lower, width);
      assert Raised(s, loop[p], p, 0);
    }
    assert Wrap(s, width).partitions == s.partitions;
  }

  lemma ClaimsWrapped(s: State, width: nat, x: nat)
    requires width > 0
    ensures Claims(Wrap(s, width), x) == Claims(s, x)
  {
  }

  // ---- enough ----

  lemma UnboundedIsRight(s: State, id: nat, loop: seq<Bounds>, lower: nat, upper: nat, width: nat)
    requires Invariant(s, loop, lower, upper) && Enabled(s, Claim(id)) && width > 0
    requires NextAgrees(s, s.collaborators[id].path[s.collaborators[id].visited], width)
    ensures Enabled(Wrap(s, width), Claim(id)) && RightChunk(Wrap(s, width), id, width)
  {
    var p := s.collaborators[id].path[s.collaborators[id].visited];
    var phase := Fetched(s.partitions[p].bounds, s.partitions[p].next);
    assert SamePartition(s, loop, p);
    forall x: nat | !phase.Checking? && phase.lower <= x < phase.upper ensures Claims(Wrap(s, width), x) == 0 {
      ClaimHandsOut(s, id, loop, lower, upper, x);
      assert ClaimedOnce(s, x);
      ClaimsWrapped(s, width, x);
    }
  }

  lemma FittingIsRight(loop: seq<Bounds>, lower: nat, upper: nat, n: nat, width: nat, run: seq<Action>)
    requires Tile(loop, lower, upper) && width > 0 && CanHold(loop, width) && AllFit(loop, n, width)
    requires WrappedLegal(Initial(loop), run, width) && Starts(run) <= n
    ensures RightChunks(WrappedAfter(Initial(loop), run, width), width)
  {
    InitialWraps(loop, width);
    WrappedRunIsImage(Initial(loop), run, loop, n, width);
    InitialInvariant(loop, lower, upper);
    RunsKeepInvariant(Initial(loop), run, loop, lower, upper);
    var s := After(Initial(loop), run);
    forall id: nat | Enabled(Wrap(s, width), Claim(id)) ensures RightChunk(Wrap(s, width), id, width) {
      WrappedEnabled(s, Claim(id), width);
      ClaimAgrees(s, id, loop, n, width);
      UnboundedIsRight(s, id, loop, lower, upper, width);
    }
  }

  /** With counters that fit, whole loops are executed as with unbounded ones: no iteration is claimed twice, none outside
      the loop, and all of them once any collaborator has returned. */
  lemma WrappedClaimsOnce(loop: seq<Bounds>, lower: nat, upper: nat, n: nat, width: nat, run: seq<Action>, x: nat)
    requires Tile(loop, lower, upper) && width > 0 && CanHold(loop, width) && AllFit(loop, n, width)
    requires WrappedLegal(Initial(loop), run, width) && Starts(run) <= n
    ensures var s := WrappedAfter(Initial(loop), run, width);
            && Claims(s, x) <= 1
            && (Claims(s, x) == 1 ==> lower <= x < upper)
            && (SomebodyReturned(s) && lower <= x < upper ==> Claims(s, x) == 1)
  {
    InitialWraps(loop, width);
    WrappedRunIsImage(Initial(loop), run, loop, n, width);
    EveryIterationClaimedOnce(loop, lower, upper, run, x);
    ClaimsWrapped(After(Initial(loop), run), width, x);
  }

  // ---- and needed ----

  /** Counters only grow. */
  lemma {:induction false} CountersGrow(s: State, run: seq<Action>, p: nat)
    requires Legal(s, run) && p < |s.partitions|
    ensures |After(s, run).partitions| == |s.partitions|
    ensures After(s, run).partitions[p].next >= s.partitions[p].next && After(s, run).partitions[p].bounds == s.partitions[p].bounds
    decreases |run|
  {
    if run != [] {
      CountersGrow(Step(s, run[0]), run[1..], p);
    }
  }

  /** Every attempt that has been made at partition p meant what it should. */
  ghost predicate Agreed(s: State, loop: seq<Bounds>, p: nat, width: nat)
    requires width > 0 && p < |loop|
  {
    p < |s.partitions| && forall t: nat :: loop[p].lower + t * loop[p].chunksize < s.partitions[p].next ==> Agrees(loop[p], t, width)
  }

  ghost predicate AllAgreed(s: State, loop: seq<Bounds>, width: nat)
    requires width > 0
  {
    forall p :: 0 <= p < |loop| ==> Agreed(s, loop, p, width)
  }

  lemma NextAgreed(s: State, id: nat, rest: seq<Action>, loop: seq<Bounds>, width: nat)
    requires width > 0 && CanHold(loop, width) && AllAccounted(s, loop, width)
    requires Enabled(s, Claim(id)) && Legal(Step(s, Claim(id)), rest)
    requires AllAgreed(After(Step(s, Claim(id)), rest), loop, width)
    ensures NextAgrees(s, s.collaborators[id].path[s.collaborators[id].visited], width)
  {
    var p := s.collaborators[id].path[s.collaborators[id].visited];
    assert Accounted(s, loop[p], p) && Agreed(After(Step(s, Claim(id)), rest), loop, p, width);
    var times: nat :| Raised(s, loop[p], p, times);
    CountersGrow(Step(s, Claim(id)), rest, p);
    assert Agrees(loop[p], times, width);
  }

  /** A run on unbounded counters in which every attempt meant what it should is one on wrapped counters. */
  lemma {:induction false} RunWraps(s: State, run: seq<Action>, loop: seq<Bounds>, width: nat)
    requires width > 0 && CanHold(loop, width) && AllAccounted(s, loop, width) && Legal(s, run)
    requires AllAgreed(After(s, run), loop, width) == true
    ensures WrappedLegal(Wrap(s, width), run, width) && WrappedAfter(Wrap(s, width), run, width) == Wrap(After(s, run), width)
    decreases |run|
  {
    if run != [] {
      var a := run[0];
      if a.Claim? {
        NextAgreed(s, a.id, run[1..], loop, width);
      }
      StepWraps(s, a, width);
      AllStepsAccount(s, a, loop, width);
      RunWraps(Step(s, a), run[1..], loop, width);
    }
  }

  /** An attempt that does not mean what it should gives out a wrong chunk. */
  lemma WrongChunk(s: State, id: nat, loop: seq<Bounds>, lower: nat, upper: nat, width: nat, p: nat, times: nat)
    requires Invariant(s, loop, lower, upper) && Tries(s, id, p) && p < |loop| && Representable(loop[p], width)
    requires s.partitions[p] == Partition(loop[p], loop[p].lower + times * loop[p].chunksize) && !Agrees(loop[p], times, width)
    ensures Enabled(Wrap(s, width), Claim(id)) && !RightChunk(Wrap(s, width), id, width)
  {
    var b := loop[p];
    var next := b.lower + times * b.chunksize;
    AgreesExactly(b, times, width);
    StillChunks(b, times);
    var phase := WrappedFetch(b, next % width, width);
    if times < ChunksOf(b) {
      SmallRemainder(next, width);
      assert (times + 1) * b.chunksize == times * b.chunksize + b.chunksize;
      Division.Quotient(next + b.chunksize, width, 1, next + b.chunksize - width);
    } else if b.lower <= phase.lower < phase.upper <= b.upper {
      var x := phase.lower;
      assert HandedBy(s, p, x) && ClaimedOnce(s, x);
      ClaimsWrapped(s, width, x);
    }
  }

  lemma ReachedAgrees(s: State, loop: seq<Bounds>, p: nat, width: nat, times: nat)
    requires width > 0 && p < |loop| == |s.partitions| && s.partitions[p].next == loop[p].lower + times * loop[p].chunksize
    requires forall t: nat :: t < times ==> Agrees(loop[p], t, width)
    ensures Agreed(s, loop, p, width)
  {
    forall t: nat | loop[p].lower + t * loop[p].chunksize < s.partitions[p].next ensures Agrees(loop[p], t, width) {
      if t >= times {
        Monotone(times, t, loop[p].chunksize);
      }
    }
  }

  lemma NotFittingIsWrong(loop: seq<Bounds>, lower: nat, upper: nat, n: nat, width: nat, p: nat) returns (run: seq<Action>)
    requires Tile(loop, lower, upper) && width > 0 && CanHold(loop, width) && p < |loop| && !Fits(loop[p], n, width) && n > 0
    ensures WrappedLegal(Initial(loop), run, width) && Starts(run) == n
    ensures !RightChunks(WrappedAfter(Initial(loop), run, width), width)
  {
    var s0, b := Initial(loop), loop[p];
    var times := FirstWrong(b, n, width);
    run := CounterReaches(loop, p, n, times);
    var s := After(s0, run);
    InitialWraps(loop, width);
    forall q | 0 <= q < |loop| ensures Agreed(s, loop, q, width) {
      ReachedAgrees(s, loop, q, width, if q == p then times else 0);
    }
    RunWraps(s0, run, loop, width);
    InitialInvariant(loop, lower, upper);
    RunsKeepInvariant(s0, run, loop, lower, upper);
    WrongChunk(s, 0, loop, lower, upper, width, p, times);
  }

  /** With up to n collaborators, counters of `width` values give out the right chunks in all runs if and only if, in every
      partition, the last chunk does not reach the width and none of the n attempts after it finds the counter below the end. */
  lemma RightChunksExactly(loop: seq<Bounds>, lower: nat, upper: nat, n: nat, width: nat)
    requires Tile(loop, lower, upper) && width > 0 && CanHold(loop, width) && n > 0
    ensures (forall run :: WrappedLegal(Initial(loop), run, width) && Starts(run) <= n
               ==> RightChunks(WrappedAfter(Initial(loop), run, width), width))
            <==> AllFit(loop, n, width)
  {
    if AllFit(loop, n, width) {
      forall run | WrappedLegal(Initial(loop), run, width) && Starts(run) <= n
        ensures RightChunks(WrappedAfter(Initial(loop), run, width), width)
      {
        FittingIsRight(loop, lower, upper, n, width, run);
      }
    } else {
      var p :| 0 <= p < |loop| && !Fits(loop[p], n, width);
      var run := NotFittingIsWrong(loop, lower, upper, n, width, p);
    }
  }
}
