/** How the iterations of a taskloop are cut into partitions of whole chunks. */
module TaskloopPartitions {
  import opened Division

  datatype Bounds = Bounds(lower: nat, upper: nat, chunksize: nat)

  function IterationCount(b: Bounds): nat
    requires b.lower <= b.upper
  {
    b.upper - b.lower
  }

  /** The number of chunks that it takes to cover `iterations`. */
  function Chunks(iterations: nat, chunksize: nat): nat
    requires chunksize > 0
  {
    iterations / chunksize + if iterations % chunksize > 0 then 1 else 0
  }

  /** Partition `i` starts where the one before it ends. */
  predicate Joined(s: seq<Bounds>, lower: nat, i: nat)
    requires i < |s|
  {
    s[i].lower <= s[i].upper && s[i].lower == if i == 0 then lower else s[i - 1].upper
  }

  /** The partitions are, in order, the whole of [lower, upper) with nothing missing and nothing twice. */
  predicate Tile(s: seq<Bounds>, lower: nat, upper: nat) {
    |s| > 0 && (forall i :: 0 <= i < |s| ==> Joined(s, lower, i)) && s[|s| - 1].upper == upper
  }

  /** A boundary is a whole number of chunks away from the start, or the very end. */
  predicate OnChunkBoundary(b: Bounds, x: nat) {
    x == b.upper || (x >= b.lower && b.chunksize > 0 && (x - b.lower) % b.chunksize == 0)
  }

  /** A partition of the loop `b` starts on a chunk boundary and has `each` chunks, or one more. */
  predicate Fair(b: Bounds, p: Bounds, each: nat) {
    && p.lower <= p.upper && p.chunksize == b.chunksize > 0
    && OnChunkBoundary(b, p.lower)
    && each <= Chunks(p.upper - p.lower, b.chunksize) <= each + 1
  }

  // ---- arithmetic of chunks ----

  lemma ChunksCover(iterations: nat, chunksize: nat)
    requires chunksize > 0
    ensures Chunks(iterations, chunksize) * chunksize >= iterations
    ensures iterations > 0 ==> (Chunks(iterations, chunksize) - 1) * chunksize < iterations
  {
    assert iterations == chunksize * (iterations / chunksize) + iterations % chunksize;
  }

  /** Chunks is the least number of chunks that covers the iterations. */
  lemma ChunksAre(iterations: nat, chunksize: nat, m: nat)
    requires chunksize > 0 && m * chunksize >= iterations && (m > 0 ==> (m - 1) * chunksize < iterations)
    ensures Chunks(iterations, chunksize) == m
  {
    if m > 0 {
      var r := iterations - (m - 1) * chunksize;
      assert m * chunksize == (m - 1) * chunksize + chunksize;
      if r == chunksize {
        Quotient(iterations, chunksize, m, 0);
      } else {
        Quotient(iterations, chunksize, m - 1, r);
      }
    } else {
      Quotient(iterations, chunksize, 0, 0);
    }
  }

  // ---- splitting ----

  /** How many chunks come before partition `k`, when the last `extra` of `n` partitions get one more. */
  function ChunksBefore(each: nat, extra: nat, n: nat, k: nat): nat {
    each * k + if k + extra > n then k + extra - n else 0
  }

  function Boundary(b: Bounds, chunks: nat): nat {
    var x := b.lower + chunks * b.chunksize;
    if x < b.upper then x else b.upper
  }

  lemma BoundaryIsOnChunk(b: Bounds, chunks: nat)
    requires b.chunksize > 0
    ensures OnChunkBoundary(b, Boundary(b, chunks))
  {
    Quotient(chunks * b.chunksize, b.chunksize, chunks, 0);
  }

  lemma NextBoundary(b: Bounds, chunks: nat, more: nat)
    ensures Boundary(b, chunks + more) == var x := Boundary(b, chunks) + more * b.chunksize; if x < b.upper then x else b.upper
  {
    assert (chunks + more) * b.chunksize == chunks * b.chunksize + more * b.chunksize;
  }

  /** All the chunks have been dealt out at the end, and never more than there are. */
  lemma ChunksDealt(total: nat, n: nat, k: nat)
    requires 0 <= k <= n && n > 0
    ensures ChunksBefore(total / n, total % n, n, n) == total
    ensures ChunksBefore(total / n, total % n, n, k) <= total
  {
    var each := total / n;
    assert total == n * each + total % n;
    assert each * k <= each * n;
  }

  lemma WholeLoop(b: Bounds)
    requires b.lower <= b.upper && b.chunksize > 0
    ensures Boundary(b, Chunks(IterationCount(b), b.chunksize)) == b.upper
  {
    ChunksCover(IterationCount(b), b.chunksize);
  }

  /** Between two boundaries there are as many chunks as were dealt out. */
  lemma ChunksBetween(b: Bounds, from: nat, more: nat)
    requires b.lower <= b.upper && b.chunksize > 0 && from + more <= Chunks(IterationCount(b), b.chunksize)
    ensures Boundary(b, from) <= Boundary(b, from + more)
    ensures Chunks(Boundary(b, from + more) - Boundary(b, from), b.chunksize) == more
  {
    var c := b.chunksize;
    if more == 0 {
      ChunksAre(0, c, 0);
    } else {
      BoundaryBelow(b, from);
      assert (from + more) * c == from * c + more * c;
      assert (more - 1) * c == more * c - c;
      BoundaryLeast(b, from + more);
      var d: nat := more - 1;
      assert (from + d) * c == from * c + d * c;
      assert more * c == d * c + c;
      ChunksAre(Boundary(b, from + more) - Boundary(b, from), c, more);
    }
  }

  /** Before all the chunks are dealt out, no boundary is cut short. */
  lemma BoundaryBelow(b: Bounds, chunks: nat)
    requires b.lower <= b.upper && b.chunksize > 0 && chunks < Chunks(IterationCount(b), b.chunksize)
    ensures Boundary(b, chunks) == b.lower + chunks * b.chunksize < b.upper
  {
    ChunksCover(IterationCount(b), b.chunksize);
    Monotone(chunks, Chunks(IterationCount(b), b.chunksize) - 1, b.chunksize);
  }

  /** A boundary is past the chunk before it, and not past its own. */
  lemma BoundaryLeast(b: Bounds, chunks: nat)
    requires b.lower <= b.upper && b.chunksize > 0 && 0 < chunks <= Chunks(IterationCount(b), b.chunksize)
    ensures b.lower + (chunks - 1) * b.chunksize < Boundary(b, chunks) <= b.lower + (chunks - 1) * b.chunksize + b.chunksize
  {
    BoundaryBelow(b, chunks - 1);
    NextBoundary(b, chunks - 1, 1);
  }

  lemma Monotone(x: nat, y: nat, c: nat)
    requires x <= y
    ensures x * c <= y * c
  {
    assert y * c == x * c + (y - x) * c;
  }

  /** The partition after `k` others: the same arithmetic on bounds and on numbers of chunks. */
  lemma DealPartition(b: Bounds, n: nat, k: nat, each: nat, total: nat)
    requires b.lower <= b.upper && b.chunksize > 0 && k < n
    requires total == Chunks(IterationCount(b), b.chunksize) && each == total / n
    ensures var more := each + if total % n >= n - k then 1 else 0;
            var lower := Boundary(b, ChunksBefore(each, total % n, n, k));
            var upper := Boundary(b, ChunksBefore(each, total % n, n, k + 1));
            && upper == (if lower + more * b.chunksize < b.upper then lower + more * b.chunksize else b.upper)
            && Fair(b, Bounds(lower, upper, b.chunksize), each)
  {
    var more := each + if total % n >= n - k then 1 else 0;
    var dealt := ChunksBefore(each, total % n, n, k);
    assert ChunksBefore(each, total % n, n, k + 1) == dealt + more;
    NextBoundary(b, dealt, more);
    ChunksDealt(total, n, k + 1);
    ChunksBetween(b, dealt, more);
    BoundaryIsOnChunk(b, dealt);
  }

  method SplitIterations(n: nat, b: Bounds) returns (partitions: seq<Bounds>)
    requires n > 0 && b.chunksize > 0 && b.lower <= b.upper
    ensures |partitions| == n && Tile(partitions, b.lower, b.upper)
    ensures forall i :: 0 <= i < n ==> Fair(b, partitions[i], Chunks(IterationCount(b), b.chunksize) / n)
  {
    var totalIterations := IterationCount(b);
    var totalChunks := totalIterations / b.chunksize + if totalIterations % b.chunksize > 0 then 1 else 0;
    var chunksPerPartition := totalChunks / n;
    partitions := [];
    var lowerBound := b.lower;
    assert totalChunks == Chunks(totalIterations, b.chunksize);
    assert ChunksBefore(chunksPerPartition, totalChunks % n, n, 0) == 0;
    for partition := 0 to n
      invariant |partitions| == partition
      invariant lowerBound == Boundary(b, ChunksBefore(chunksPerPartition, totalChunks % n, n, partition))
      invariant lowerBound == if partition == 0 then b.lower else partitions[partition - 1].upper
      invariant forall i :: 0 <= i < partition ==> Joined(partitions, b.lower, i)
      invariant forall i :: 0 <= i < partition ==> Fair(b, partitions[i], chunksPerPartition)
    {
      var extraChunk := if totalChunks % n >= n - partition then 1 else 0;
      var myIterations := (chunksPerPartition + extraChunk) * b.chunksize;
      var upperBound := if lowerBound + myIterations < b.upper then lowerBound + myIterations else b.upper;
      DealPartition(b, n, partition, chunksPerPartition, totalChunks);
      ghost var before := partitions;
      partitions := partitions + [Bounds(lowerBound, upperBound, b.chunksize)];
      forall i | 0 <= i < partition ensures Joined(partitions, b.lower, i) && Fair(b, partitions[i], chunksPerPartition) {
        assert Joined(before, b.lower, i) && partitions[i] == before[i];
      }
      lowerBound := upperBound;
    }
    ChunksDealt(totalChunks, n, n);
    WholeLoop(b);
  }
}
