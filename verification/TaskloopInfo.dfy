/** What a taskloop knows about its iterations before any collaborator starts. */
module TaskloopInfos {
  import opened TaskloopPartitions
  import opened TaskloopRun
  import opened Sums
  import opened Division

  /** The chunk size chosen when none is asked for gives every partition at least two chunks if there are enough
      iterations. */
  lemma DefaultChunksize(iterations: nat, n: nat)
    requires n > 0 && iterations >= 2 * n
    ensures iterations / (2 * n) >= 1 && Chunks(iterations, iterations / (2 * n)) / n >= 2
  {
    var c := iterations / (2 * n);
    AtLeast(iterations, 2 * n, 1);
    var total := Chunks(iterations, c);
    ChunksCover(iterations, c);
    assert iterations == 2 * n * c + iterations % (2 * n);
    Cancel(c, total, 2 * n);
    AtLeast(total, n, 2);
  }

  /** The largest size with which there are two chunks for each of n partitions, or 1 if there is none. */
  predicate IsDefault(c: nat, iterations: nat, n: nat) {
    if iterations < 2 * n then c == 1 else 2 * n * c <= iterations < 2 * n * (c + 1)
  }

  predicate Untouched(partitions: seq<Partition>, loop: seq<Bounds>) {
    |partitions| <= |loop| && forall i :: 0 <= i < |partitions| ==> partitions[i] == Partition(loop[i], loop[i].lower)
  }

  method SetPartitions(loop: seq<Bounds>) returns (partitions: array<Partition>, nonEmptyPartitions: nat)
    requires forall i :: 0 <= i < |loop| ==> loop[i].lower <= loop[i].upper
    ensures fresh(partitions) && partitions[..] == Initial(loop).partitions && nonEmptyPartitions == Initial(loop).remaining
  {
    partitions := new Partition[|loop|];
    nonEmptyPartitions := 0;
    for i := 0 to |loop|
      invariant Untouched(partitions[..i], loop)
      invariant nonEmptyPartitions == Sum(partitions[..i], HasMore())
    {
      ghost var before := partitions[..i];
      partitions[i] := Partition(loop[i], loop[i].lower);
      assert partitions[..i + 1] == before + [partitions[i]];
      SumAppend(before, partitions[i], HasMore());
      if IterationCount(loop[i]) > 0 {
        nonEmptyPartitions := nonEmptyPartitions + 1;
      }
    }
    assert partitions[..] == partitions[..|loop|] == Initial(loop).partitions;
  }

  class TaskloopInfo {
    var bounds: Bounds
    var partitions: array?<Partition>
    var remainingPartitions: nat

    constructor ()
      ensures partitions == null && remainingPartitions == 0
    {
      bounds := Bounds(0, 0, 0);
      partitions := null;
      remainingPartitions := 0;
    }

    /** Keeps the chunk size that was asked for, or chooses one. */
    method SetBounds(n: nat, newBounds: Bounds)
      requires n > 0 && newBounds.lower <= newBounds.upper
      modifies this`bounds
      ensures bounds.lower == newBounds.lower && bounds.upper == newBounds.upper && bounds.chunksize > 0
      ensures newBounds.chunksize > 0 ==> bounds.chunksize == newBounds.chunksize
      ensures newBounds.chunksize == 0 ==> IsDefault(bounds.chunksize, newBounds.upper - newBounds.lower, n)
      ensures newBounds.chunksize == 0 && IterationCount(newBounds) >= 2 * n ==>
                Chunks(IterationCount(bounds), bounds.chunksize) / n >= 2
    {
      bounds := newBounds;
      if bounds.chunksize == 0 {
        var totalIterations := IterationCount(bounds);
        var chunksize := totalIterations / (2 * n);
        bounds := bounds.(chunksize := if chunksize < 1 then 1 else chunksize);
        assert totalIterations == 2 * n * chunksize + totalIterations % (2 * n);
        if totalIterations >= 2 * n {
          DefaultChunksize(totalIterations, n);
        } else {
          Quotient(totalIterations, 2 * n, 0, totalIterations);
        }
      }
    }

    /** Sets up the partitions and the count of those with work: the starting point of every run. */
    method Initialize(n: nat, newBounds: Bounds) returns (ghost loop: seq<Bounds>)
      requires n > 0 && newBounds.lower <= newBounds.upper && partitions == null
      modifies this
      ensures bounds.lower == newBounds.lower && bounds.upper == newBounds.upper && bounds.chunksize > 0
      ensures newBounds.chunksize > 0 ==> bounds.chunksize == newBounds.chunksize
      ensures newBounds.chunksize == 0 ==> IsDefault(bounds.chunksize, newBounds.upper - newBounds.lower, n)
      ensures |loop| == n && Tile(loop, newBounds.lower, newBounds.upper)
      ensures forall i :: 0 <= i < n ==> Fair(bounds, loop[i], Chunks(IterationCount(bounds), bounds.chunksize) / n)
      ensures newBounds.chunksize == 0 && IterationCount(newBounds) >= 2 * n ==>
                Chunks(IterationCount(bounds), bounds.chunksize) / n >= 2
      ensures partitions != null && fresh(partitions) && partitions[..] == Initial(loop).partitions
      ensures remainingPartitions == Initial(loop).remaining
    {
      SetBounds(n, newBounds);
      var partialBounds := SplitIterations(n, bounds);
      loop := partialBounds;
      forall i | 0 <= i < n ensures loop[i].lower <= loop[i].upper {
        assert Joined(loop, bounds.lower, i);
      }
      partitions, remainingPartitions := SetPartitions(partialBounds);
    }
  }
}
