/** Registering an access to a box of a multidimensional array as intervals of bytes. */
module Multidimensional {
  import opened Regions

  /** A dimension has `size` elements, of which those in [start, end) are accessed. The last one is in bytes. */
  datatype Dimension = Dimension(size: nat, start: nat, end: nat)

  predicate Proper(d: Dimension) {
    d.start <= d.end <= d.size
  }

  predicate AllProper(dims: seq<Dimension>) {
    forall i :: 0 <= i < |dims| ==> Proper(dims[i])
  }

  function Stride(dims: seq<Dimension>): nat {
    if dims == [] then 1 else dims[0].size * Stride(dims[1..])
  }

  predicate Continuous(d: Dimension) {
    d.start == 0 && d.end == d.size
  }

  // ---- what is accessed ----

  predicate InBox(dims: seq<Dimension>, index: seq<nat>) {
    |dims| == |index| && forall i :: 0 <= i < |dims| ==> dims[i].start <= index[i] < dims[i].end
  }

  /** Where in the array the element with a given index is. */
  function Offset(dims: seq<Dimension>, index: seq<nat>): nat
    requires |dims| == |index|
  {
    if dims == [] then 0 else index[0] * Stride(dims[1..]) + Offset(dims[1..], index[1..])
  }

  /** The byte at `offset` belongs to the box. */
  ghost predicate Accessed(dims: seq<Dimension>, offset: int) {
    exists index :: InBox(dims, index) && Offset(dims, index) == offset
  }

  /** The byte belongs to the slice of the box with first index `i`. */
  ghost predicate InSlice(rest: seq<Dimension>, offset: int, i: nat) {
    Accessed(rest, offset - i * Stride(rest))
  }

  ghost predicate InSlices(rest: seq<Dimension>, offset: int, from: nat, to: nat) {
    exists i :: from <= i < to && InSlice(rest, offset, i)
  }

  lemma AccessedBySlices(dims: seq<Dimension>, offset: int)
    requires dims != []
    ensures Accessed(dims, offset) <==> InSlices(dims[1..], offset, dims[0].start, dims[0].end)
  {
    var rest := dims[1..];
    if Accessed(dims, offset) {
      var index :| InBox(dims, index) && Offset(dims, index) == offset;
      assert InBox(rest, index[1..]) && Offset(rest, index[1..]) == offset - index[0] * Stride(rest);
      assert InSlice(rest, offset, index[0]);
    }
    if InSlices(rest, offset, dims[0].start, dims[0].end) {
      var i: nat :| dims[0].start <= i < dims[0].end && InSlice(rest, offset, i);
      var tail :| InBox(rest, tail) && Offset(rest, tail) == offset - i * Stride(rest);
      var index := [i] + tail;
      assert index[1..] == tail;
      assert InBox(dims, index) && Offset(dims, index) == offset;
    }
  }

  // ---- collapsing a whole dimension into the one around it ----

  function Collapsed(dims: seq<Dimension>): seq<Dimension>
    requires |dims| >= 2
  {
    var m := dims[1].size;
    [Dimension(dims[0].size * m, dims[0].start * m, dims[0].end * m)] + dims[2..]
  }

  lemma ScaledProper(d: Dimension, m: nat)
    requires Proper(d)
    ensures d.start * m <= d.end * m <= d.size * m
  {
  }

  lemma CollapsedStride(dims: seq<Dimension>)
    requires |dims| >= 2
    ensures Stride(Collapsed(dims)) == Stride(dims)
  {
    assert Collapsed(dims)[1..] == dims[2..] == dims[1..][1..];
    Associative(dims[0].size, dims[1].size, Stride(dims[2..]));
  }

  lemma CollapsedProper(dims: seq<Dimension>)
    requires |dims| >= 2 && AllProper(dims)
    ensures AllProper(Collapsed(dims))
  {
    ScaledProper(dims[0], dims[1].size);
    forall i | 0 <= i < |Collapsed(dims)| ensures Proper(Collapsed(dims)[i]) {
      assert i > 0 ==> Collapsed(dims)[i] == dims[i + 1];
    }
  }

  /** Index i of the outer and j of the inner dimension are index i * m + j of the collapsed one. */
  lemma CollapseKeepsBytes(dims: seq<Dimension>, offset: int)
    requires |dims| >= 2 && AllProper(dims) && Continuous(dims[1])
    ensures Accessed(dims, offset) <==> Accessed(Collapsed(dims), offset)
  {
    var m, rest := dims[1].size, dims[2..];
    assert dims[1..][1..] == rest && Collapsed(dims)[1..] == rest && dims[1..][0] == dims[1];
    AccessedBySlices(dims, offset);
    AccessedBySlices(Collapsed(dims), offset);
    if Accessed(dims, offset) {
      var i: nat :| dims[0].start <= i < dims[0].end && InSlice(dims[1..], offset, i);
      var inner := offset - i * Stride(dims[1..]);
      AccessedBySlices(dims[1..], inner);
      var j: nat :| 0 <= j < m && InSlice(rest, inner, j);
      SameOffset(i, j, m, Stride(rest));
      Within(dims[0].start, dims[0].end, i, j, m);
      assert InSlice(rest, offset, i * m + j);
    }
    if Accessed(Collapsed(dims), offset) {
      var k: nat :| dims[0].start * m <= k < dims[0].end * m && InSlice(rest, offset, k);
      var i, j := Split(dims[0].start, dims[0].end, k, m);
      SameOffset(i, j, m, Stride(rest));
      var inner := offset - i * Stride(dims[1..]);
      assert InSlice(rest, inner, j);
      AccessedBySlices(dims[1..], inner);
      assert InSlice(dims[1..], offset, i);
    }
  }

  lemma Associative(a: nat, b: nat, c: nat)
    ensures a * (b * c) == (a * b) * c
  {
  }

  lemma SameOffset(i: nat, j: nat, m: nat, s: nat)
    ensures i * (m * s) + j * s == (i * m + j) * s
  {
    Associative(i, m, s);
  }

  lemma Within(from: nat, to: nat, i: nat, j: nat, m: nat)
    requires from <= i < to && j < m
    ensures from * m <= i * m + j < to * m
  {
    assert from * m <= i * m;
    assert (i + 1) * m <= to * m;
  }

  lemma Split(from: nat, to: nat, k: nat, m: nat) returns (i: nat, j: nat)
    requires from * m <= k < to * m
    ensures from <= i < to && j < m && k == i * m + j
  {
    i, j := k / m, k % m;
    assert i >= to ==> i * m >= to * m;
    assert i + 1 <= from ==> (i + 1) * m <= from * m;
  }

  // ---- what is registered ----

  predicate Ascending(s: seq<Region>, i: nat)
    requires i < |s|
  {
    i > 0 ==> s[i - 1].End() <= s[i].start
  }

  predicate Inside(r: Region, from: nat, to: nat) {
    from <= r.start && r.End() <= to
  }

  /** The regions come in address order, none overlaps the next, and all are within [from, to). */
  predicate Ordered(s: seq<Region>, from: nat, to: nat) {
    from <= to && forall i :: 0 <= i < |s| ==> Ascending(s, i) && Inside(s[i], from, to)
  }

  predicate Registered(s: seq<Region>, x: nat) {
    exists i :: 0 <= i < |s| && s[i].Contains(x)
  }

  /** No byte is registered twice. */
  lemma {:induction false} OrderedAreDisjoint(s: seq<Region>, from: nat, to: nat, i: nat, j: nat)
    requires Ordered(s, from, to) && i < j < |s|
    ensures s[i].End() <= s[j].start
    decreases j
  {
    assert Ascending(s, j);
    if i < j - 1 {
      OrderedAreDisjoint(s, from, to, i, j - 1);
    }
  }

  lemma OrderedAppend(s: seq<Region>, t: seq<Region>, from: nat, mid: nat, to: nat)
    requires Ordered(s, from, mid) && Ordered(t, mid, to)
    ensures Ordered(s + t, from, to)
  {
    var r := s + t;
    forall i | 0 <= i < |r| ensures Ascending(r, i) && Inside(r[i], from, to) {
      if i < |s| {
        assert Ascending(s, i) && Inside(s[i], from, mid);
      } else {
        assert Ascending(t, i - |s|) && Inside(t[i - |s|], mid, to);
        assert i == |s| > 0 ==> Inside(s[|s| - 1], from, mid);
      }
    }
  }

  lemma RegisteredAppend(s: seq<Region>, t: seq<Region>, x: nat)
    ensures Registered(s + t, x) <==> Registered(s, x) || Registered(t, x)
  {
    if i :| 0 <= i < |s| && s[i].Contains(x) {
      assert (s + t)[i].Contains(x);
    }
    if i :| 0 <= i < |t| && t[i].Contains(x) {
      assert (s + t)[|s| + i].Contains(x);
    }
  }

  /** The regions are exactly the bytes of the box in an array at `base`. */
  ghost predicate Exactly(s: seq<Region>, dims: seq<Dimension>, base: nat) {
    forall x: nat :: Registered(s, x) <==> Accessed(dims, x - base)
  }

  ghost predicate ExactlySlices(s: seq<Region>, rest: seq<Dimension>, base: nat, from: nat, to: nat) {
    forall x: nat :: Registered(s, x) <==> InSlices(rest, x - base, from, to)
  }

  /** One more slice: what it registers is what it adds to the box. */
  lemma OneMoreSlice(s: seq<Region>, t: seq<Region>, rest: seq<Dimension>, base: nat, from: nat, to: nat)
    requires ExactlySlices(s, rest, base, from, to) && from <= to
    requires Exactly(t, rest, base + to * Stride(rest))
    ensures ExactlySlices(s + t, rest, base, from, to + 1)
  {
    forall x: nat ensures Registered(s + t, x) <==> InSlices(rest, x - base, from, to + 1) {
      RegisteredAppend(s, t, x);
      assert Registered(t, x) <==> InSlice(rest, x - base, to);
      if InSlices(rest, x - base, from, to) {
        var i: nat :| from <= i < to && InSlice(rest, x - base, i);
        assert from <= i < to + 1;
      }
    }
  }

  lemma LastDimension(d: Dimension, base: nat)
    requires Proper(d)
    ensures Exactly([Region(base + d.start, d.end - d.start)], [d], base)
  {
    var s := [Region(base + d.start, d.end - d.start)];
    forall x: nat ensures Registered(s, x) <==> Accessed([d], x - base) {
      assert Registered(s, x) <==> s[0].Contains(x);
      if Registered(s, x) {
        OneIndex(d, x - base);
      }
      if Accessed([d], x - base) {
        var index :| InBox([d], index) && Offset([d], index) == x - base;
        assert Offset([d], index) == index[0];
      }
    }
  }

  lemma OneIndex(d: Dimension, i: nat)
    requires d.start <= i < d.end
    ensures Accessed([d], i)
  {
    assert InBox([d], [i]) && Offset([d], [i]) == i;
  }

  /** Registers the box `dims` of the array at `base`, outermost dimension first: whole inner dimensions are merged
      into the current one, and otherwise every index of the current dimension is registered in turn. */
  method RegisterDataAccess(dims: seq<Dimension>, base: nat) returns (regions: seq<Region>)
    requires dims != [] && AllProper(dims)
    ensures Ordered(regions, base, base + Stride(dims))
    ensures Exactly(regions, dims, base)
    decreases |dims|, 0
  {
    var current, others := dims[0], dims[1..];
    assert Proper(current);
    if others == [] {
      assert dims == [current];
      regions := [Region(base + current.start, current.end - current.start)];
      LastDimension(current, base);
    } else if Continuous(others[0]) {
      CollapsedProper(dims);
      CollapsedStride(dims);
      regions := RegisterDataAccess(Collapsed(dims), base);
      forall x: nat ensures Registered(regions, x) <==> Accessed(dims, x - base) {
        CollapseKeepsBytes(dims, x - base);
      }
    } else {
      regions := RegisterSlices(current, others, base);
      forall x: nat ensures Registered(regions, x) <==> Accessed(dims, x - base) {
        AccessedBySlices(dims, x - base);
      }
    }
  }

  method RegisterSlices(current: Dimension, others: seq<Dimension>, base: nat) returns (regions: seq<Region>)
    requires Proper(current) && others != [] && AllProper(others)
    ensures Ordered(regions, base, base + current.size * Stride(others))
    ensures ExactlySlices(regions, others, base, current.start, current.end)
    decreases |others|, 1
  {
    var stride := Stride(others);
    var currentBaseAddress := base + current.start * stride;
    regions := [];
    for index := current.start to current.end
      invariant currentBaseAddress == base + index * stride
      invariant Ordered(regions, base, base + index * stride)
      invariant ExactlySlices(regions, others, base, current.start, index)
    {
      var slice := RegisterDataAccess(others, currentBaseAddress);
      assert (index + 1) * stride == index * stride + stride;
      OrderedAppend(regions, slice, base, base + index * stride, base + (index + 1) * stride);
      OneMoreSlice(regions, slice, others, base, current.start, index);
      regions := regions + slice;
      currentBaseAddress := currentBaseAddress + stride;
    }
    assert current.end * stride <= current.size * stride;
    OrderedAppend(regions, [], base, base + current.end * stride, base + current.size * stride);
    assert regions + [] == regions;
  }
}
