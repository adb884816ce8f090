/** How far the counters of a taskloop can get, and so how wide they must be. */
module TaskloopCounter {
  import Division
  import opened Sums
  import opened TaskloopPartitions
  import opened PartitionPaths
  import opened TaskloopRun

  // ---- no further than this ----

  predicate Repeats(path: seq<nat>, i: nat, j: nat)
    requires i < |path| && j < |path|
  {
    i != j && path[i] == path[j]
  }

  predicate NoRepeats(path: seq<nat>) {
    forall i, j :: 0 <= i < |path| && 0 <= j < |path| ==> !Repeats(path, i, j)
  }

  predicate HasPassed(c: Collaborator, p: nat) {
    c.visited <= |c.path| && p in c.path[..c.visited]
  }

  /** The collaborators that have found partition p exhausted and gone on. */
  function Passed(p: nat): Collaborator -> nat {
    (c: Collaborator) => if HasPassed(c, p) then 1 else 0
  }

  function ChunksOf(b: Bounds): nat
    requires b.lower <= b.upper && b.chunksize > 0
  {
    Chunks(b.upper - b.lower, b.chunksize)
  }

  /** The counter of partition p has been raised `times` times: once for every chunk at most, and once for every
      collaborator that has gone on. */
  predicate Raised(s: State, b: Bounds, p: nat, times: nat)
    requires p < |s.partitions| && b.lower <= b.upper && b.chunksize > 0
  {
    s.partitions[p].next == b.lower + times * b.chunksize && times <= ChunksOf(b) + Sum(s.collaborators, Passed(p))
  }

  ghost predicate Accounted(s: State, b: Bounds, p: nat)
    requires b.lower <= b.upper && b.chunksize > 0
  {
    && p < |s.partitions| && s.partitions[p].bounds == b
    && (forall c :: c in s.collaborators ==> NoRepeats(c.path))
    && exists times: nat :: Raised(s, b, p, times)
  }

  lemma PathHasNoRepeats(path: seq<nat>, cpu: nat, n: nat, zigzag: bool)
    requires n > 0 && IsPath(path, cpu, n, zigzag)
    ensures NoRepeats(path)
  {
    forall i, j | 0 <= i < |path| && 0 <= j < |path| ensures !Repeats(path, i, j) {
      PathVisitsEachOnce(path, cpu, n, zigzag, path[i]);
    }
  }

  lemma PassedNow(c: Collaborator, p: nat)
    requires NoRepeats(c.path) && c.visited < |c.path|
    ensures var d := c.(visited := c.visited + 1);
            if c.path[c.visited] == p then !HasPassed(c, p) && HasPassed(d, p) else HasPassed(c, p) <==> HasPassed(d, p)
  {
    var k := c.visited;
    assert c.path[..k + 1] == c.path[..k] + [c.path[k]];
    if c.path[k] == p && p in c.path[..k] {
      var i :| 0 <= i < k && c.path[i] == p;
      assert Repeats(c.path, i, k);
    }
  }

  /** A chunk is left only while the counter has been raised less often than there are chunks. */
  lemma StillChunks(b: Bounds, times: nat)
    requires b.lower <= b.upper && b.chunksize > 0
    ensures b.lower + times * b.chunksize < b.upper <==> times < ChunksOf(b)
  {
    ChunksCover(b.upper - b.lower, b.chunksize);
    if times < ChunksOf(b) {
      Monotone(times, ChunksOf(b) - 1, b.chunksize);
    } else {
      Monotone(ChunksOf(b), times, b.chunksize);
    }
  }

  lemma ClaimAccounts(s: State, id: nat, b: Bounds, p: nat)
    requires b.lower <= b.upper && b.chunksize > 0 && Accounted(s, b, p) && Enabled(s, Claim(id))
    ensures Accounted(ClaimChunk(s, id), b, p)
  {
    var t, c := ClaimChunk(s, id), s.collaborators[id];
    var times: nat :| Raised(s, b, p, times);
    assert c in s.collaborators;
    SumUpdate(s.collaborators, id, t.collaborators[id], Passed(p));
    PassedNow(c, p);
    StillChunks(b, times);
    assert t.collaborators[id] == Collaborator(c.path, t.collaborators[id].visited, t.collaborators[id].phase);
    forall d | d in t.collaborators ensures NoRepeats(d.path) {
      assert d == t.collaborators[id] || d in s.collaborators;
    }
    if c.path[c.visited] == p {
      assert (times + 1) * b.chunksize == times * b.chunksize + b.chunksize;
      assert Raised(t, b, p, times + 1);
    } else {
      assert Raised(t, b, p, times);
    }
  }

  lemma StepAccounts(s: State, a: Action, b: Bounds, p: nat)
    requires b.lower <= b.upper && b.chunksize > 0 && Accounted(s, b, p) && Enabled(s, a)
    ensures Accounted(Step(s, a), b, p)
  {
    var t := Step(s, a);
    var times: nat :| Raised(s, b, p, times);
    match a
    case Claim(id) => ClaimAccounts(s, id, b, p);
    case Start(cpu, zigzag, path) =>
      PathHasNoRepeats(path, cpu, |s.partitions|, zigzag);
      SumAppend(s.collaborators, t.collaborators[|s.collaborators|], Passed(p));
      assert Raised(t, b, p, times);
    case Decrement(id) => SamePasses(s, t, id, b, p, times);
    case Execute(id) => SamePasses(s, t, id, b, p, times);
    case Check(id) => SamePasses(s, t, id, b, p, times);
  }

  lemma SamePasses(s: State, t: State, id: nat, b: Bounds, p: nat, times: nat)
    requires b.lower <= b.upper && b.chunksize > 0 && Accounted(s, b, p) && Raised(s, b, p, times)
    requires id < |s.collaborators| == |t.collaborators| && t.partitions == s.partitions
    requires t.collaborators == s.collaborators[id := s.collaborators[id].(phase := t.collaborators[id].phase)]
    ensures Accounted(t, b, p)
  {
    SumUpdate(s.collaborators, id, t.collaborators[id], Passed(p));
    forall d | d in t.collaborators ensures NoRepeats(d.path) {
      assert s.collaborators[id] in s.collaborators;
      assert d == t.collaborators[id] || d in s.collaborators;
    }
    assert Raised(t, b, p, times);
  }

  lemma {:induction false} RunsAccount(s: State, run: seq<Action>, b: Bounds, p: nat)
    requires b.lower <= b.upper && b.chunksize > 0 && Accounted(s, b, p) && Legal(s, run)
    ensures Accounted(After(s, run), b, p)
    ensures |After(s, run).collaborators| == |s.collaborators| + Starts(run)
    decreases |run|
  {
    if run != [] {
      StepAccounts(s, run[0], b, p);
      RunsAccount(Step(s, run[0]), run[1..], b, p);
    }
  }

  lemma {:induction false} OnePassEach(s: seq<Collaborator>, p: nat)
    ensures Sum(s, Passed(p)) <= |s|
  {
    if s != [] {
      OnePassEach(s[..|s| - 1], p);
    }
  }

  /** The furthest that the counter of a partition gets with n collaborators. */
  function Furthest(b: Bounds, n: nat): nat
    requires b.lower <= b.upper && b.chunksize > 0
  {
    b.lower + (ChunksOf(b) + n) * b.chunksize
  }

  /** In every run, the counter of a partition stays within that. */
  lemma CounterIsBounded(loop: seq<Bounds>, run: seq<Action>, p: nat)
    requires p < |loop| && loop[p].lower <= loop[p].upper && loop[p].chunksize > 0 && Legal(Initial(loop), run)
    ensures var s := After(Initial(loop), run); p < |s.partitions| && s.partitions[p].next <= Furthest(loop[p], Starts(run))
  {
    var b, s0 := loop[p], Initial(loop);
    assert Raised(s0, b, p, 0);
    RunsAccount(s0, run, b, p);
    var s := After(s0, run);
    var times: nat :| Raised(s, b, p, times);
    OnePassEach(s.collaborators, p);
    Monotone(times, ChunksOf(b) + Starts(run), b.chunksize);
  }

  // ---- and as far as this ----

  /** Collaborator id is about to try partition p. */
  predicate Tries(s: State, id: nat, p: nat) {
    id < |s.collaborators| && p < |s.partitions| && var c := s.collaborators[id];
    c.phase.Claiming? && c.visited < |c.path| && c.path[c.visited] == p
  }

  predicate SameOthers(s: State, t: State, id: nat) {
    |s.collaborators| == |t.collaborators|
    && forall x :: 0 <= x < |s.collaborators| && x != id ==> t.collaborators[x] == s.collaborators[x]
  }

  lemma Prepended(s: State, a: Action, run: seq<Action>)
    requires Enabled(s, a) && Legal(Step(s, a), run)
    ensures Legal(s, [a] + run) && After(s, [a] + run) == After(Step(s, a), run)
    ensures Starts([a] + run) == Starts(run) + if a.Start? then 1 else 0
  {
    assert ([a] + run)[1..] == run;
  }

  /** Claiming a chunk and executing it. */
  lemma TakeOne(s: State, id: nat, p: nat) returns (t: State, first: Action, rest: seq<Action>)
    requires Tries(s, id, p) && s.partitions[p].next < s.partitions[p].bounds.upper
    ensures Enabled(s, first) && !first.Start? && Legal(Step(s, first), rest) && After(Step(s, first), rest) == t && Starts(rest) == 0
    ensures Tries(t, id, p) && SameOthers(s, t, id)
    ensures t.partitions == s.partitions[p := s.partitions[p].(next := s.partitions[p].next + s.partitions[p].bounds.chunksize)]
  {
    first := Claim(id);
    var s1 := Step(s, first);
    if s1.collaborators[id].phase.Finishing? {
      var s2 := Step(s1, Decrement(id));
      t := Step(s2, Execute(id));
      Prepended(s2, Execute(id), []);
      Prepended(s1, Decrement(id), [Execute(id)] + []);
      rest := [Decrement(id)] + ([Execute(id)] + []);
    } else {
      t := Step(s1, Execute(id));
      Prepended(s1, Execute(id), []);
      rest := [Execute(id)] + [];
    }
  }

  lemma {:induction false} Concatenated(s: State, first: seq<Action>, second: seq<Action>)
    requires Legal(s, first) && Legal(After(s, first), second)
    ensures Legal(s, first + second) && After(s, first + second) == After(After(s, first), second)
    ensures Starts(first + second) == Starts(first) + Starts(second)
    decreases |first|
  {
    if first == [] {
      assert first + second == second;
    } else {
      Concatenated(Step(s, first[0]), first[1..], second);
      Prepended(s, first[0], first[1..] + second);
      assert first + second == [first[0]] + (first[1..] + second);
    }
  }

  /** One collaborator takes the next chunks of a partition. */
  lemma {:induction false} TakeChunks(s: State, id: nat, p: nat, b: Bounds, times: nat, goal: nat) returns (run: seq<Action>)
    requires Tries(s, id, p) && b.lower <= b.upper && b.chunksize > 0
    requires s.partitions[p] == Partition(b, b.lower + times * b.chunksize) && times <= goal <= ChunksOf(b)
    ensures Legal(s, run) && Starts(run) == 0
    ensures var t := After(s, run);
            && Tries(t, id, p) && SameOthers(s, t, id)
            && t.partitions == s.partitions[p := Partition(b, b.lower + goal * b.chunksize)]
    decreases goal - times
  {
    StillChunks(b, times);
    if times == goal {
      run := [];
    } else {
      var t, first, rest := TakeOne(s, id, p);
      assert (times + 1) * b.chunksize == times * b.chunksize + b.chunksize;
      var more := TakeChunks(t, id, p, b, times + 1, goal);
      Concatenated(Step(s, first), rest, more);
      Prepended(s, first, rest + more);
      run := [first] + (rest + more);
    }
  }

  /** One after the other, collaborators from `from` on find the partition exhausted, and raise its counter all the same. */
  lemma {:induction false} FindNothing(s: State, from: nat, p: nat, b: Bounds, times: nat) returns (run: seq<Action>)
    requires p < |s.partitions| && from <= |s.collaborators| && forall id :: from <= id < |s.collaborators| ==> Tries(s, id, p)
    requires b.chunksize > 0 && s.partitions[p] == Partition(b, b.lower + times * b.chunksize) && s.partitions[p].next >= b.upper
    ensures Legal(s, run) && Starts(run) == 0
    ensures var t := After(s, run);
            && |t.collaborators| == |s.collaborators| && t.collaborators[..from] == s.collaborators[..from]
            && t.partitions == s.partitions[p := Partition(b, b.lower + (times + (|s.collaborators| - from)) * b.chunksize)]
    decreases |s.collaborators| - from
  {
    if from == |s.collaborators| {
      run := [];
    } else {
      assert Tries(s, from, p);
      var t := Step(s, Claim(from));
      assert (times + 1) * b.chunksize == times * b.chunksize + b.chunksize;
      forall id | from + 1 <= id < |t.collaborators| ensures Tries(t, id, p) {
        assert Tries(s, id, p);
      }
      var rest := FindNothing(t, from + 1, p, b, times + 1);
      Prepended(s, Claim(from), rest);
      run := [Claim(from)] + rest;
      var u := After(s, run);
      assert u.collaborators[..from] == u.collaborators[..from + 1][..from] && t.collaborators[..from] == s.collaborators[..from];
    }
  }

  /** n collaborators start at partition p. */
  lemma {:induction false} StartAll(s: State, p: nat, n: nat) returns (run: seq<Action>)
    requires p < |s.partitions| && forall id :: 0 <= id < |s.collaborators| ==> Tries(s, id, p)
    ensures Legal(s, run) && Starts(run) == n
    ensures var t := After(s, run);
            && t.partitions == s.partitions && |t.collaborators| == |s.collaborators| + n
            && forall id :: 0 <= id < |t.collaborators| ==> Tries(t, id, p)
    decreases n
  {
    if n == 0 {
      run := [];
    } else {
      var k := |s.partitions|;
      var path := seq(k, i requires 0 <= i < k => Visited(p, k, false, i));
      Division.Quotient(p, k, 0, p);
      var a := Start(p, false, path);
      var t := Step(s, a);
      forall id | 0 <= id < |t.collaborators| ensures Tries(t, id, p) {
        assert id < |s.collaborators| ==> Tries(s, id, p);
      }
      var rest := StartAll(t, p, n - 1);
      Prepended(s, a, rest);
      run := [a] + rest;
    }
  }

  /** n collaborators start at a partition, and the first of them takes some of its chunks. */
  lemma ChunksReach(loop: seq<Bounds>, p: nat, n: nat, times: nat) returns (run: seq<Action>)
    requires p < |loop| && loop[p].lower <= loop[p].upper && loop[p].chunksize > 0 && times <= ChunksOf(loop[p]) && n > 0
    ensures Legal(Initial(loop), run) && Starts(run) == n
    ensures var s, b := After(Initial(loop), run), loop[p];
            && |s.collaborators| == n && (forall id :: 0 <= id < n ==> Tries(s, id, p))
            && s.partitions == Initial(loop).partitions[p := Partition(b, b.lower + times * b.chunksize)]
  {
    var s0 := Initial(loop);
    var start := StartAll(s0, p, n);
    var s1 := After(s0, start);
    assert Tries(s1, 0, p);
    var take := TakeChunks(s1, 0, p, loop[p], 0, times);
    Concatenated(s0, start, take);
    run := start + take;
    forall id | 0 <= id < n ensures Tries(After(s0, run), id, p) {
      assert Tries(s1, id, p);
    }
  }

  /** They can raise the counter as often as there are chunks, and once more for each of them but one, who is about to try
      next; the other partitions are as they were. */
  lemma CounterReaches(loop: seq<Bounds>, p: nat, n: nat, times: nat) returns (run: seq<Action>)
    requires p < |loop| && loop[p].lower <= loop[p].upper && loop[p].chunksize > 0 && times < ChunksOf(loop[p]) + n && n > 0
    ensures Legal(Initial(loop), run) && Starts(run) == n
    ensures var s, b := After(Initial(loop), run), loop[p];
            && Tries(s, 0, p)
            && s.partitions == Initial(loop).partitions[p := Partition(b, b.lower + times * b.chunksize)]
  {
    var b, s0, chunks := loop[p], Initial(loop), ChunksOf(loop[p]);
    if times <= chunks {
      run := ChunksReach(loop, p, n, times);
    } else {
      var take := ChunksReach(loop, p, n, chunks);
      var s1, from := After(s0, take), n - (times - chunks);
      StillChunks(b, chunks);
      var fail := FindNothing(s1, from, p, b, chunks);
      Concatenated(s0, take, fail);
      run := take + fail;
      var s := After(s0, run);
      assert Tries(s1, 0, p);
      assert s.collaborators[0] == s.collaborators[..from][0] == s1.collaborators[0];
    }
  }

  /** Any number of collaborators can get the counter of any partition as far as the bound. */
  lemma CounterReachesBound(loop: seq<Bounds>, p: nat, n: nat) returns (run: seq<Action>)
    requires p < |loop| && loop[p].lower <= loop[p].upper && loop[p].chunksize > 0 && n > 0
    ensures Legal(Initial(loop), run) && Starts(run) == n && p < |After(Initial(loop), run).partitions|
    ensures After(Initial(loop), run).partitions[p].next == Furthest(loop[p], n)
  {
    var b, s0, times := loop[p], Initial(loop), ChunksOf(loop[p]) + n - 1;
    run := CounterReaches(loop, p, n, times);
    Prepended(After(s0, run), Claim(0), []);
    Concatenated(s0, run, [Claim(0)] + []);
    assert (times + 1) * b.chunksize == times * b.chunksize + b.chunksize;
    run := run + ([Claim(0)] + []);
  }

  /** No counter ever reaches `width`, so that counters of that width do not wrap around. */
  ghost predicate StaysBelow(loop: seq<Bounds>, run: seq<Action>, width: nat)
    requires Legal(Initial(loop), run)
  {
    forall p :: 0 <= p < |loop| ==> Within(After(Initial(loop), run), p, width)
  }

  predicate Within(s: State, p: nat, width: nat) {
    p < |s.partitions| && s.partitions[p].next < width
  }

  predicate WideEnough(loop: seq<Bounds>, n: nat, width: nat)
    requires forall p :: 0 <= p < |loop| ==> loop[p].lower <= loop[p].upper && loop[p].chunksize > 0
  {
    forall p :: 0 <= p < |loop| ==> Furthest(loop[p], n) < width
  }

  /** Counters that can hold `width` values never wrap around in the runs of up to n collaborators exactly if they can hold,
      for every partition, its chunks and one more for each collaborator. */
  lemma CountersDoNotWrapExactly(loop: seq<Bounds>, n: nat, width: nat)
    requires n > 0 && forall p :: 0 <= p < |loop| ==> loop[p].lower <= loop[p].upper && loop[p].chunksize > 0
    ensures (forall run :: Legal(Initial(loop), run) && Starts(run) <= n ==> StaysBelow(loop, run, width)) <==> WideEnough(loop, n, width)
  {
    if WideEnough(loop, n, width) {
      forall run | Legal(Initial(loop), run) && Starts(run) <= n ensures StaysBelow(loop, run, width) {
        forall p | 0 <= p < |loop| ensures Within(After(Initial(loop), run), p, width) {
          CounterIsBounded(loop, run, p);
          Monotone(ChunksOf(loop[p]) + Starts(run), ChunksOf(loop[p]) + n, loop[p].chunksize);
        }
      }
    } else {
      var p :| 0 <= p < |loop| && Furthest(loop[p], n) >= width;
      var run := CounterReachesBound(loop, p, n);
      assert !Within(After(Initial(loop), run), p, width);
      assert !StaysBelow(loop, run, width);
    }
  }
}
