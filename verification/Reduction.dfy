/** Private storage of a reduction, one slot per CPU, and its combination into the original region. All sizes are in bytes;
    an element takes several of them, and is kept at the first. Combiners work element by element. */
module Reductions {
  import opened Regions
  import opened Division

  // ---- slots ----

  function Padded(size: nat, line: nat): nat
    requires line > 0
  {
    ((size + line - 1) / line) * line
  }

  /** A slot has room for the region and is a whole number of cache lines, as few as possible. */
  lemma PaddedMeaning(size: nat, line: nat)
    requires line > 0
    ensures size <= Padded(size, line) < size + line && Padded(size, line) % line == 0
  {
    var q := (size + line - 1) / line;
    assert size + line - 1 == line * q + (size + line - 1) % line;
    assert q * line == line * q;
    Quotient(q * line, line, q, 0);
  }

  /** Where the slot of a CPU starts: after those of the CPUs before it. */
  function SlotStart(padded: nat, cpu: nat): nat {
    if cpu == 0 then 0 else SlotStart(padded, cpu - 1) + padded
  }

  lemma {:induction false} SlotStartIs(padded: nat, cpu: nat)
    ensures SlotStart(padded, cpu) == padded * cpu
  {
    if cpu > 0 {
      SlotStartIs(padded, cpu - 1);
    }
  }

  function Slot(padded: nat, size: nat, cpu: nat): Region {
    Region(SlotStart(padded, cpu), size)
  }

  /** The slots of different CPUs never overlap, and all of them are within the storage. */
  lemma SlotsAreDisjoint(padded: nat, size: nat, n: nat, i: nat, j: nat)
    requires size <= padded && i < n && j < n && i != j
    ensures Slot(padded, size, i).End() <= padded * n
    ensures Slot(padded, size, i).End() <= Slot(padded, size, j).start || Slot(padded, size, j).End() <= Slot(padded, size, i).start
  {
    SlotStartIs(padded, n);
    NextSlot(padded, i, n);
    if i < j {
      NextSlot(padded, i, j);
    } else {
      NextSlot(padded, j, i);
    }
  }

  lemma {:induction false} NextSlot(padded: nat, i: nat, j: nat)
    requires i < j
    ensures SlotStart(padded, i) + padded <= SlotStart(padded, j)
  {
    if i < j - 1 {
      NextSlot(padded, i, j - 1);
    }
  }

  // ---- combination, element by element ----

  /** Element p, starting from value v, combined with its private copies of the first n CPUs of the set. */
  function Folded<V>(f: (V, V) -> V, storage: seq<V>, padded: nat, cpus: seq<bool>, v: V, p: nat, n: nat): V
    requires n <= |cpus|
  {
    if n == 0 then v
    else
      var w := Folded(f, storage, padded, cpus, v, p, n - 1);
      var at := SlotStart(padded, n - 1) + p;
      if cpus[n - 1] && at < |storage| then f(w, storage[at]) else w
  }

  /** The set of CPUs is {c}. */
  predicate Only(cpus: seq<bool>, c: nat) {
    forall i :: 0 <= i < |cpus| ==> (cpus[i] <==> i == c)
  }

  /** One CPU alone: the private copy is combined that is at the same place in its slot. */
  lemma {:induction false} OnlyItsSlot<V>(f: (V, V) -> V, storage: seq<V>, padded: nat, cpus: seq<bool>, c: nat, v: V, p: nat, n: nat)
    requires Only(cpus, c) && n <= |cpus| && padded * c + p < |storage|
    ensures Folded(f, storage, padded, cpus, v, p, n) == if c < n then f(v, storage[padded * c + p]) else v
  {
    if n > 0 {
      SlotStartIs(padded, n - 1);
      OnlyItsSlot(f, storage, padded, cpus, c, v, p, n - 1);
    }
  }

  /** An element starts at byte p: there is a whole number of them before it. */
  predicate IsElement(p: nat, size: nat) {
    size > 0 && (p == 0 || (p >= size && IsElement(p - size, size)))
  }

  /** Between the starts of two elements there is none. */
  lemma {:induction false} NoElementBetween(k: nat, p: nat, size: nat)
    requires IsElement(k, size) && k < p < k + size
    ensures !IsElement(p, size)
  {
    if k > 0 {
      NoElementBetween(k - size, p - size, size);
    }
  }

  lemma {:induction false} ElementsAre(p: nat, size: nat)
    requires size > 0
    ensures IsElement(p, size) <==> p % size == 0
  {
    if p >= size {
      ElementsAre(p - size, size);
      assert p - size == size * ((p - size) / size) + (p - size) % size;
      Quotient(p, size, (p - size) / size + 1, (p - size) % size);
    } else {
      Quotient(p, size, 0, p);
    }
  }

  function Elements(size: nat): nat -> bool {
    (p: nat) => IsElement(p, size)
  }

  /** The elements in [from, to) combined with the first n CPUs, the others as they were. */
  function Combined<V>(f: (V, V) -> V, storage: seq<V>, padded: nat, starts: nat -> bool, cpus: seq<bool>, memory: seq<V>, from: nat, to: nat, n: nat): (r: seq<V>)
    requires n <= |cpus|
    ensures |r| == |memory|
  {
    seq(|memory|, p requires 0 <= p < |memory| =>
          if from <= p < to && starts(p) then Folded(f, storage, padded, cpus, memory[p], p, n) else memory[p])
  }

  /** With one CPU alone, the elements of [from, to), which start at multiples of the size, are combined with what is at the
      same place in that CPU's slot. */
  lemma CombinedAlone<V>(f: (V, V) -> V, storage: seq<V>, padded: nat, size: nat, cpus: seq<bool>, c: nat, memory: seq<V>, from: nat, to: nat, p: nat)
    requires c < |cpus| && Only(cpus, c) && size > 0 && p < |memory| && padded * c + p < |storage|
    ensures Combined(f, storage, padded, Elements(size), cpus, memory, from, to, |cpus|)[p]
         == if from <= p < to && p % size == 0 then f(memory[p], storage[padded * c + p]) else memory[p]
  {
    ElementsAre(p, size);
    OnlyItsSlot(f, storage, padded, cpus, c, memory[p], p, |cpus|);
  }

  /** Fragments combined one after the other. */
  function CombinedInTurn<V>(f: (V, V) -> V, storage: seq<V>, padded: nat, starts: nat -> bool, cpus: seq<bool>, memory: seq<V>, fragments: seq<Region>): (r: seq<V>)
    ensures |r| == |memory|
  {
    if fragments == [] then memory
    else
      var last := fragments[|fragments| - 1];
      var before := CombinedInTurn(f, storage, padded, starts, cpus, memory, fragments[..|fragments| - 1]);
      Combined(f, storage, padded, starts, cpus, before, last.start, last.End(), |cpus|)
  }

  function Covers(fragments: seq<Region>, p: nat): nat {
    if fragments == [] then 0
    else Covers(fragments[..|fragments| - 1], p) + if fragments[|fragments| - 1].Contains(p) then 1 else 0
  }

  predicate Within(fragments: seq<Region>, size: nat) {
    forall i :: 0 <= i < |fragments| ==> fragments[i].length > 0 && fragments[i].End() <= size
  }

  /** The fragments, in whatever order, are the whole region and do not overlap. */
  predicate Tiling(fragments: seq<Region>, size: nat) {
    Within(fragments, size) && forall p :: 0 <= p < size ==> Covers(fragments, p) == 1
  }

  lemma {:induction false} EachElement<V>(f: (V, V) -> V, storage: seq<V>, padded: nat, starts: nat -> bool, cpus: seq<bool>, memory: seq<V>, fragments: seq<Region>, p: nat)
    requires p < |memory| && Covers(fragments, p) <= 1
    ensures CombinedInTurn(f, storage, padded, starts, cpus, memory, fragments)[p]
         == if Covers(fragments, p) == 1 && starts(p) then Folded(f, storage, padded, cpus, memory[p], p, |cpus|) else memory[p]
  {
    if fragments != [] {
      EachElement(f, storage, padded, starts, cpus, memory, fragments[..|fragments| - 1], p);
    }
  }

  /** Combining any tiling of the region, in any order, is combining the region at once. */
  lemma TilingIsWhole<V>(f: (V, V) -> V, storage: seq<V>, padded: nat, starts: nat -> bool, cpus: seq<bool>, memory: seq<V>, fragments: seq<Region>)
    requires Tiling(fragments, |memory|)
    ensures CombinedInTurn(f, storage, padded, starts, cpus, memory, fragments)
         == Combined(f, storage, padded, starts, cpus, memory, 0, |memory|, |cpus|)
  {
    forall p | 0 <= p < |memory|
      ensures CombinedInTurn(f, storage, padded, starts, cpus, memory, fragments)[p]
           == Combined(f, storage, padded, starts, cpus, memory, 0, |memory|, |cpus|)[p]
    {
      EachElement(f, storage, padded, starts, cpus, memory, fragments, p);
    }
  }

  // ---- counting what is left ----

  function Lengths(fragments: seq<Region>): nat {
    if fragments == [] then 0 else Lengths(fragments[..|fragments| - 1]) + fragments[|fragments| - 1].length
  }

  /** The number of times that elements below n are covered. */
  function Coverage(fragments: seq<Region>, n: nat): nat {
    if n == 0 then 0 else Coverage(fragments, n - 1) + Covers(fragments, n - 1)
  }

  function Below(r: Region, n: nat): nat {
    if n <= r.start then 0 else Min(n, r.End()) - r.start
  }

  lemma {:induction false} CoverageOfLast(fragments: seq<Region>, n: nat)
    requires fragments != []
    ensures Coverage(fragments, n) == Coverage(fragments[..|fragments| - 1], n) + Below(fragments[|fragments| - 1], n)
  {
    if n > 0 {
      CoverageOfLast(fragments, n - 1);
    }
  }

  lemma {:induction false} NoCoverage(n: nat)
    ensures Coverage([], n) == 0
  {
    if n > 0 {
      NoCoverage(n - 1);
    }
  }

  lemma {:induction false} CoverageIsLengths(fragments: seq<Region>, size: nat)
    requires Within(fragments, size)
    ensures Coverage(fragments, size) == Lengths(fragments)
  {
    if fragments == [] {
      NoCoverage(size);
    } else {
      CoverageOfLast(fragments, size);
      CoverageIsLengths(fragments[..|fragments| - 1], size);
    }
  }

  lemma {:induction false} CoverageOfOnes(fragments: seq<Region>, n: nat)
    requires forall p :: 0 <= p < n ==> Covers(fragments, p) == 1
    ensures Coverage(fragments, n) == n
  {
    if n > 0 {
      CoverageOfOnes(fragments, n - 1);
    }
  }

  lemma {:induction false} LengthsGrow(fragments: seq<Region>, k: nat, size: nat)
    requires k < |fragments| && Within(fragments, size)
    ensures Lengths(fragments[..k]) < Lengths(fragments)
  {
    var before := fragments[..|fragments| - 1];
    if k < |before| {
      LengthsGrow(before, k, size);
      assert before[..k] == fragments[..k];
    }
  }

  /** The lengths of a tiling add up to the region only with the last fragment. */
  lemma OnlyTheLastCompletes(fragments: seq<Region>, size: nat, k: nat)
    requires Tiling(fragments, size) && k <= |fragments|
    ensures Lengths(fragments[..k]) == size <==> k == |fragments|
    ensures Lengths(fragments[..k]) <= size
  {
    CoverageIsLengths(fragments, size);
    CoverageOfOnes(fragments, size);
    assert fragments[..|fragments|] == fragments;
    if k < |fragments| {
      LengthsGrow(fragments, k, size);
    }
  }

  /** The elements in [from, to) combined with one slot, which starts at `base`. */
  function WithSlot<V>(f: (V, V) -> V, storage: seq<V>, base: nat, starts: nat -> bool, memory: seq<V>, from: nat, to: nat): (r: seq<V>)
    ensures |r| == |memory|
  {
    seq(|memory|, p requires 0 <= p < |memory| =>
          if from <= p < to && starts(p) && base + p < |storage| then f(memory[p], storage[base + p]) else memory[p])
  }

  /** After the first n CPUs, the next one is combined or left out. */
  lemma OneMoreCPU<V>(f: (V, V) -> V, storage: seq<V>, padded: nat, starts: nat -> bool, cpus: seq<bool>, memory: seq<V>, from: nat, to: nat, n: nat)
    requires n < |cpus|
    ensures Combined(f, storage, padded, starts, cpus, memory, from, to, n + 1)
         == var before := Combined(f, storage, padded, starts, cpus, memory, from, to, n);
            if cpus[n] then WithSlot(f, storage, SlotStart(padded, n), starts, before, from, to) else before
  {
    var before := Combined(f, storage, padded, starts, cpus, memory, from, to, n);
    var after := Combined(f, storage, padded, starts, cpus, memory, from, to, n + 1);
    var step := if cpus[n] then WithSlot(f, storage, SlotStart(padded, n), starts, before, from, to) else before;
    forall p | 0 <= p < |memory| ensures after[p] == step[p] {
      assert before[p] == if from <= p < to && starts(p) then Folded(f, storage, padded, cpus, memory[p], p, n) else memory[p];
    }
  }

  lemma NoCPUYet<V>(f: (V, V) -> V, storage: seq<V>, padded: nat, starts: nat -> bool, cpus: seq<bool>, memory: seq<V>, from: nat, to: nat)
    ensures Combined(f, storage, padded, starts, cpus, memory, from, to, 0) == memory
  {
    forall p | 0 <= p < |memory| ensures Combined(f, storage, padded, starts, cpus, memory, from, to, 0)[p] == memory[p] {
      assert Folded(f, storage, padded, cpus, memory[p], p, 0) == memory[p];
    }
  }

  lemma SlotIsDone<V>(f: (V, V) -> V, storage: seq<V>, base: nat, size: nat, was: seq<V>, now: seq<V>, from: nat, to: nat)
    requires |now| == |was| && base + |was| <= |storage|
    requires forall p :: 0 <= p < |was| ==> now[p] == if from <= p < to && IsElement(p, size) then f(was[p], storage[base + p]) else was[p]
    ensures now == WithSlot(f, storage, base, Elements(size), was, from, to)
  {
    forall p | 0 <= p < |was| ensures now[p] == WithSlot(f, storage, base, Elements(size), was, from, to)[p] { }
  }

  lemma OneMoreFragment<V>(f: (V, V) -> V, storage: seq<V>, padded: nat, starts: nat -> bool, cpus: seq<bool>, memory: seq<V>, fragments: seq<Region>, k: nat)
    requires k < |fragments|
    ensures CombinedInTurn(f, storage, padded, starts, cpus, memory, fragments[..k + 1])
         == Combined(f, storage, padded, starts, cpus, CombinedInTurn(f, storage, padded, starts, cpus, memory, fragments[..k]),
                     fragments[k].start, fragments[k].End(), |cpus|)
    ensures Lengths(fragments[..k + 1]) == Lengths(fragments[..k]) + fragments[k].length
  {
    assert fragments[..k + 1][..k] == fragments[..k];
  }

  /** An element of the slot starts at byte p of the storage. */
  predicate StartsIn(slot: Region, size: nat, p: nat) {
    slot.Contains(p) && IsElement(p - slot.start, size)
  }

  // ---- the object ----

  class ReductionInfo<V> {
    const region: Region
    /** The size of an element. */
    const size: nat
    const padded: nat
    const cpuCount: nat
    const neutral: V
    const combiner: (V, V) -> V
    const storage: array<V>
    /** The original region, from its first byte on. */
    const memory: array<V>
    var initialized: seq<bool>
    var sizeCounter: int

    ghost predicate Valid()
      reads this, storage, memory
    {
      && size > 0 && region.length <= padded && storage.Length == SlotStart(padded, cpuCount) && memory.Length == region.length
      && storage != memory && |initialized| == cpuCount
    }

    /** Takes zeroed memory for the slots, none of which is initialised yet. */
    constructor (original: Region, elementSize: nat, contents: array<V>, line: nat, cpus: nat, zero: V, initial: V, combine: (V, V) -> V)
      requires line > 0 && cpus > 0 && elementSize > 0 && contents.Length == original.length
      ensures Valid() && region == original && size == elementSize && memory == contents && combiner == combine && neutral == initial
      ensures padded % line == 0 && padded < original.length + line && cpuCount == cpus
      ensures fresh(storage) && forall p :: 0 <= p < storage.Length ==> storage[p] == zero
      ensures sizeCounter == original.length && forall i :: 0 <= i < cpus ==> !initialized[i]
    {
      PaddedMeaning(original.length, line);
      region := original;
      size := elementSize;
      padded := Padded(original.length, line);
      cpuCount := cpus;
      neutral := initial;
      combiner := combine;
      SlotStartIs(Padded(original.length, line), cpus);
      storage := new V[Padded(original.length, line) * cpus](_ => zero);
      memory := contents;
      initialized := seq(cpus, _ => false);
      sizeCounter := original.length;
    }

    /** The slot of a CPU: its elements are set to the neutral value the first time, and left alone afterwards, like all other
        slots. */
    method GetCPUPrivateStorage(cpu: nat) returns (slot: Region)
      requires Valid() && cpu < cpuCount
      modifies this`initialized, storage
      ensures Valid() && slot == Region(padded * cpu, region.length) && slot.End() <= storage.Length
      ensures initialized == old(initialized)[cpu := true]
      ensures forall p :: 0 <= p < storage.Length ==>
                storage[p] == if StartsIn(slot, size, p) && !old(initialized)[cpu] then neutral else old(storage[p])
    {
      slot := Slot(padded, region.length, cpu);
      SlotStartIs(padded, cpu);
      NextSlot(padded, cpu, cpuCount);
      if !initialized[cpu] {
        Initialize(slot);
      }
      initialized := initialized[cpu := true];
    }

    method Initialize(slot: Region)
      requires Valid() && slot.End() <= storage.Length
      modifies storage
      ensures forall p :: 0 <= p < storage.Length ==> storage[p] == if StartsIn(slot, size, p) then neutral else old(storage[p])
    {
      var k := 0;
      while k < slot.length
        invariant IsElement(k, size)
        invariant forall p :: 0 <= p < storage.Length ==>
          storage[p] == if StartsIn(slot, size, p) && p < slot.start + k then neutral else old(storage[p])
      {
        storage[slot.start + k] := neutral;
        forall p: nat | StartsIn(slot, size, p) && p < slot.start + k + size ensures p <= slot.start + k {
          if p > slot.start + k {
            NoElementBetween(k, p - slot.start, size);
          }
        }
        k := k + size;
      }
    }

    /** Combines the elements in [from, to) with their private copies in the slot at `base`. */
    method CombineSlot(from: nat, to: nat, base: nat, ghost slots: seq<V>)
      requires Valid() && slots == storage[..] && base + region.length <= storage.Length && from <= to <= region.length
      requires IsElement(from, size)
      modifies memory
      ensures slots == storage[..] && memory[..] == WithSlot(combiner, slots, base, Elements(size), old(memory[..]), from, to)
    {
      var k := from;
      while k < to
        invariant from <= k && IsElement(k, size) && slots == storage[..]
        invariant forall p :: 0 <= p < memory.Length ==>
          memory[p] == if from <= p < to && p < k && IsElement(p, size) then combiner(old(memory[p]), slots[base + p]) else old(memory[p])
      {
        CombineElement(k, base, slots);
        k := k + size;
      }
      SlotIsDone(combiner, slots, base, size, old(memory[..]), memory[..], from, to);
    }

    method CombineElement(k: nat, base: nat, ghost slots: seq<V>)
      requires Valid() && slots == storage[..] && base + region.length <= storage.Length && k < region.length && IsElement(k, size)
      modifies memory
      ensures slots == storage[..] && memory[k] == combiner(old(memory[k]), slots[base + k])
      ensures forall p :: 0 <= p < memory.Length && p != k ==> memory[p] == old(memory[p])
      ensures IsElement(k + size, size) && forall p :: k < p < k + size ==> !IsElement(p, size)
    {
      memory[k] := combiner(memory[k], storage[base + k]);
      forall p | k < p < k + size ensures !IsElement(p, size) {
        NoElementBetween(k, p, size);
      }
    }

    /** Combines one fragment of the region with the slots of a set of CPUs, and tells whether it was the last. */
    method CombineRegion(fragment: Region, cpus: seq<bool>) returns (last: bool)
      requires Valid() && |cpus| == cpuCount
      requires region.start <= fragment.start && fragment.End() <= region.End() && IsElement(fragment.start - region.start, size)
      modifies this`sizeCounter, memory
      ensures Valid() && sizeCounter == old(sizeCounter) - fragment.length && (last <==> sizeCounter == 0)
      ensures var from := fragment.start - region.start;
              memory[..] == Combined(combiner, storage[..], padded, Elements(size), cpus, old(memory[..]), from, from + fragment.length, |cpus|)
    {
      var from := fragment.start - region.start;
      var to := from + fragment.length;
      ghost var was, slots := memory[..], storage[..];
      NoCPUYet(combiner, slots, padded, Elements(size), cpus, was, from, to);
      for i := 0 to cpuCount
        invariant storage[..] == slots && sizeCounter == old(sizeCounter)
        invariant memory[..] == Combined(combiner, slots, padded, Elements(size), cpus, was, from, to, i)
      {
        OneMoreCPU(combiner, slots, padded, Elements(size), cpus, was, from, to, i);
        if cpus[i] {
          NextSlot(padded, i, cpuCount);
          CombineSlot(from, to, SlotStart(padded, i), slots);
        }
      }
      sizeCounter := sizeCounter - fragment.length;
      last := sizeCounter == 0;
    }

    /** The way of one contribution: what a task on a CPU stores for an element, in the slot that it is given, is what ends up
        combined into that element. */
    method Reduce(cpu: nat, p: nat, contribution: V, cpus: seq<bool>) returns (last: bool)
      requires Valid() && cpu < cpuCount && p < region.length && p % size == 0
      requires |cpus| == cpuCount && Only(cpus, cpu)
      modifies this`initialized, this`sizeCounter, storage, memory
      ensures Valid() && memory[p] == combiner(old(memory[p]), contribution)
    {
      var slot := GetCPUPrivateStorage(cpu);
      storage[slot.start + p] := contribution;
      CombinedAlone(combiner, storage[..], padded, size, cpus, cpu, memory[..], 0, region.length, p);
      last := CombineRegion(region, cpus);
    }

    /** Any tiling into whole elements, in any order: the region ends up as if combined at once, and only the last call
        reports it. */
    method CombineFragments(fragments: seq<Region>, cpus: seq<bool>) returns (reports: seq<bool>)
      requires Valid() && |cpus| == cpuCount && sizeCounter == region.length
      requires Tiling(fragments, region.length) && forall i :: 0 <= i < |fragments| ==> IsElement(fragments[i].start, size)
      modifies this`sizeCounter, memory
      ensures Valid() && |reports| == |fragments|
      ensures memory[..] == Combined(combiner, storage[..], padded, Elements(size), cpus, old(memory[..]), 0, region.length, |cpus|)
      ensures forall k :: 0 <= k < |reports| ==> (reports[k] <==> k == |fragments| - 1)
    {
      reports := [];
      ghost var was, slots := memory[..], storage[..];
      for k := 0 to |fragments|
        invariant Valid() && storage[..] == slots && |reports| == k
        invariant sizeCounter == region.length - Lengths(fragments[..k])
        invariant memory[..] == CombinedInTurn(combiner, slots, padded, Elements(size), cpus, was, fragments[..k])
        invariant forall j :: 0 <= j < k ==> (reports[j] <==> j == |fragments| - 1)
      {
        OneMoreFragment(combiner, slots, padded, Elements(size), cpus, was, fragments, k);
        var fragment := fragments[k];
        var last := CombineRegion(Region(region.start + fragment.start, fragment.length), cpus);
        OnlyTheLastCompletes(fragments, region.length, k + 1);
        reports := reports + [last];
      }
      assert fragments[..|fragments|] == fragments;
      TilingIsWhole(combiner, slots, padded, Elements(size), cpus, was, fragments);
    }
  }
}
