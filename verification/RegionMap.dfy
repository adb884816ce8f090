/** The ordered map of disjoint regions behind the accesses, the fragments and the bottom map of a task. */
module RegionMaps {
  import opened Options
  import opened Regions

  datatype Node<T> = Node(region: Region, content: T)

  predicate InOrder<T>(ns: seq<Node<T>>, i: nat)
    requires i < |ns|
  {
    ns[i].region.length > 0 && (i + 1 < |ns| ==> ns[i].region.End() <= ns[i + 1].region.start)
  }

  /** The nodes are not empty, in address order, and disjoint. */
  predicate Ordered<T>(ns: seq<Node<T>>) {
    forall i :: 0 <= i < |ns| ==> InOrder(ns, i)
  }

  lemma {:induction false} OrderedPair<T>(ns: seq<Node<T>>, i: nat, j: nat)
    requires Ordered(ns) && i < j < |ns|
    ensures ns[i].region.End() <= ns[j].region.start && ns[i].region.length > 0 && ns[j].region.length > 0
    decreases j
  {
    assert InOrder(ns, i) && InOrder(ns, j) && InOrder(ns, j - 1);
    if i < j - 1 { OrderedPair(ns, i, j - 1); }
  }

  lemma OrderedSlice<T>(ns: seq<Node<T>>, i: nat, j: nat)
    requires Ordered(ns) && i <= j <= |ns|
    ensures Ordered(ns[i..j])
  {
    forall k | 0 <= k < j - i ensures InOrder(ns[i..j], k) { assert InOrder(ns, i + k); }
  }

  lemma Around<T>(ns: seq<Node<T>>, k: nat)
    requires Ordered(ns) && k < |ns|
    ensures Ordered(ns[..k]) && Ordered(ns[k + 1..]) && ns[k].region.length > 0
    ensures k > 0 ==> ns[..k][k - 1].region.End() <= ns[k].region.start
    ensures k + 1 < |ns| ==> ns[k].region.End() <= ns[k + 1..][0].region.start
  {
    OrderedSlice(ns, 0, k);
    OrderedSlice(ns, k + 1, |ns|);
    assert ns[0..k] == ns[..k] && ns[k + 1..|ns|] == ns[k + 1..];
    assert InOrder(ns, k) && (k > 0 ==> InOrder(ns, k - 1));
  }

  predicate AllWithin<T>(ns: seq<Node<T>>, start: nat, end: nat) {
    forall i :: 0 <= i < |ns| ==> start <= ns[i].region.start && ns[i].region.End() <= end
  }

  /** The content at one address. */
  function At<T>(ns: seq<Node<T>>, p: nat): Option<T> {
    if ns == [] then None
    else if ns[0].region.Contains(p) then Some(ns[0].content)
    else At(ns[1..], p)
  }

  function Or<T>(a: Option<T>, b: Option<T>): Option<T> {
    if a.Some? then a else b
  }

  lemma {:induction false} AtAppend<T>(a: seq<Node<T>>, b: seq<Node<T>>, p: nat)
    ensures At(a + b, p) == Or(At(a, p), At(b, p))
  {
    if a == [] {
      assert a + b == b;
    } else {
      assert (a + b)[1..] == a[1..] + b;
      AtAppend(a[1..], b, p);
    }
  }

  lemma {:induction false} AtOutside<T>(ns: seq<Node<T>>, p: nat)
    requires forall i :: 0 <= i < |ns| ==> !ns[i].region.Contains(p)
    ensures At(ns, p) == None
  {
    if ns != [] {
      AtOutside(ns[1..], p);
    }
  }

  lemma AppendOrdered<T>(a: seq<Node<T>>, b: seq<Node<T>>)
    requires Ordered(a) && Ordered(b)
    requires a != [] && b != [] ==> a[|a| - 1].region.End() <= b[0].region.start
    ensures Ordered(a + b)
  {
    forall k | 0 <= k < |a + b| ensures InOrder(a + b, k) {
      if k < |a| { assert InOrder(a, k); } else { assert InOrder(b, k - |a|); }
    }
  }

  function LeftOf<T>(n: Node<T>, both: Region): seq<Node<T>> {
    if n.region.start < both.start then [Node(Between(n.region.start, both.start), n.content)] else []
  }

  function RightOf<T>(n: Node<T>, both: Region): seq<Node<T>> {
    if both.End() < n.region.End() then [Node(Between(both.End(), n.region.End()), n.content)] else []
  }

  /** A node after the addresses it shares with `r` have been set apart, or removed. */
  function Fragmented<T>(n: Node<T>, r: Region, remove: bool): seq<Node<T>>
    requires Overlap(n.region, r)
  {
    var both := Shared(n.region, r);
    LeftOf(n, both) + (if remove then [] else [Node(both, n.content)]) + RightOf(n, both)
  }

  predicate CutAt<T>(ns: seq<Node<T>>, r: Region) {
    forall i :: 0 <= i < |ns| ==> !Overlap(ns[i].region, r) || FullyContainedIn(ns[i].region, r)
  }

  lemma FragmentedOrdered<T>(n: Node<T>, r: Region, remove: bool)
    requires Overlap(n.region, r)
    ensures Ordered(Fragmented(n, r, remove))
  {
    var both := Shared(n.region, r);
    var middle := if remove then [] else [Node(both, n.content)];
    AppendOrdered(LeftOf(n, both), middle);
    AppendOrdered(LeftOf(n, both) + middle, RightOf(n, both));
  }

  lemma FragmentedWithin<T>(n: Node<T>, r: Region, remove: bool, i: nat)
    requires Overlap(n.region, r) && i < |Fragmented(n, r, remove)|
    ensures var piece := Fragmented(n, r, remove)[i].region;
            && n.region.start <= piece.start && piece.End() <= n.region.End()
            && (!Overlap(piece, r) || FullyContainedIn(piece, r))
  {
    var both := Shared(n.region, r);
    var middle := if remove then [] else [Node(both, n.content)];
    var piece := Fragmented(n, r, remove)[i];
    assert piece in LeftOf(n, both) || piece in middle || piece in RightOf(n, both);
  }

  /** Setting apart changes no address; removing loses exactly the shared addresses. */
  lemma FragmentedMeaning<T>(n: Node<T>, r: Region, remove: bool, p: nat)
    requires Overlap(n.region, r)
    ensures At(Fragmented(n, r, remove), p)
         == (if n.region.Contains(p) && !(remove && r.Contains(p)) then Some(n.content) else None)
  {
    var both := Shared(n.region, r);
    var middle := if remove then [] else [Node(both, n.content)];
    AtAppend(LeftOf(n, both), middle, p);
    AtAppend(LeftOf(n, both) + middle, RightOf(n, both), p);
  }

  function Cut<T>(n: Node<T>, r: Region): seq<Node<T>> {
    if Overlap(n.region, r) then Fragmented(n, r, false) else [n]
  }

  lemma CutOrdered<T>(n: Node<T>, r: Region)
    requires n.region.length > 0
    ensures Ordered(Cut(n, r)) && AllWithin(Cut(n, r), n.region.start, n.region.End()) && CutAt(Cut(n, r), r)
  {
    if Overlap(n.region, r) {
      FragmentedOrdered(n, r, false);
      forall i | 0 <= i < |Cut(n, r)| ensures var piece := Cut(n, r)[i].region;
        && n.region.start <= piece.start && piece.End() <= n.region.End() && (!Overlap(piece, r) || FullyContainedIn(piece, r))
      {
        FragmentedWithin(n, r, false, i);
      }
    }
  }

  lemma CutInvisible<T>(n: Node<T>, r: Region, p: nat)
    ensures At(Cut(n, r), p) == At([n], p)
  {
    if Overlap(n.region, r) { FragmentedMeaning(n, r, false, p); }
  }

  /** Every node cut at the boundaries of `r`. */
  function FragmentAll<T>(ns: seq<Node<T>>, r: Region): seq<Node<T>> {
    if ns == [] then [] else FragmentAll(ns[..|ns| - 1], r) + Cut(ns[|ns| - 1], r)
  }

  lemma {:induction false} FragmentAllOrdered<T>(ns: seq<Node<T>>, r: Region, end: nat)
    requires Ordered(ns) && AllWithin(ns, 0, end)
    ensures Ordered(FragmentAll(ns, r)) && CutAt(FragmentAll(ns, r), r) && AllWithin(FragmentAll(ns, r), 0, end)
  {
    if ns != [] {
      var n := |ns| - 1;
      OrderedSlice(ns, 0, n);
      forall i | 0 <= i < n ensures ns[i].region.End() <= ns[n].region.start { OrderedPair(ns, i, n); }
      assert InOrder(ns, n);
      FragmentAllOrdered(ns[..n], r, ns[n].region.start);
      CutOrdered(ns[n], r);
      AppendOrdered(FragmentAll(ns[..n], r), Cut(ns[n], r));
    }
  }

  /** Cutting is invisible address by address. */
  lemma {:induction false} FragmentAllInvisible<T>(ns: seq<Node<T>>, r: Region, p: nat)
    ensures At(FragmentAll(ns, r), p) == At(ns, p)
  {
    if ns != [] {
      var n := |ns| - 1;
      FragmentAllInvisible(ns[..n], r, p);
      CutInvisible(ns[n], r, p);
      assert ns == ns[..n] + [ns[n]];
      AtAppend(ns[..n], [ns[n]], p);
      AtAppend(FragmentAll(ns[..n], r), Cut(ns[n], r), p);
    }
  }

  lemma {:induction false} FragmentAllApart<T>(ns: seq<Node<T>>, r: Region)
    requires forall i :: 0 <= i < |ns| ==> !Overlap(ns[i].region, r)
    ensures FragmentAll(ns, r) == ns
  {
    if ns != [] {
      FragmentAllApart(ns[..|ns| - 1], r);
    }
  }

  lemma {:induction false} FragmentPrefix<T>(ns: seq<Node<T>>, k: nat, r: Region)
    requires k <= |ns| && forall i :: k <= i < |ns| ==> !Overlap(ns[i].region, r)
    ensures FragmentAll(ns, r) == FragmentAll(ns[..k], r) + ns[k..]
    decreases |ns|
  {
    if k == |ns| {
      assert ns[..k] == ns;
    } else {
      var n := |ns| - 1;
      FragmentPrefix(ns[..n], k, r);
      assert ns[..n][..k] == ns[..k] && ns[..n][k..] + [ns[n]] == ns[k..];
    }
  }

  lemma FragmentOneMore<T>(ns: seq<Node<T>>, k: nat, r: Region)
    requires k < |ns|
    ensures FragmentAll(ns[..k + 1], r) == FragmentAll(ns[..k], r) + Cut(ns[k], r)
    ensures ns[k..][0] == ns[k] && ns[k..][1..] == ns[k + 1..]
  {
    assert ns[..k + 1][..k] == ns[..k];
  }

  lemma ApartFrom<T>(ns: seq<Node<T>>, k: nat, r: Region)
    requires Ordered(ns) && k <= |ns| && (k < |ns| ==> r.End() <= ns[k].region.start)
    ensures forall i :: k <= i < |ns| ==> r.End() <= ns[i].region.start
  {
    if k < |ns| {
      forall i | k < i < |ns| ensures r.End() <= ns[i].region.start {
        OrderedPair(ns, k, i);
      }
    }
  }

  // ----- Traversals -----

  /** What a traversal reports: a node that intersects the region, or a gap within it. */
  datatype Event<T> = Visit(node: Node<T>) | Gap(region: Region)

  function Clip<T>(e: Event<T>, r: Region): Region {
    match e
    case Visit(n) => Intersect(n.region, r)
    case Gap(g) => g
  }

  /** The clipped nodes and the gaps cover [from, to) without holes or overlaps, in address order. */
  predicate Tiles<T>(events: seq<Event<T>>, r: Region, from: nat, to: nat) {
    if events == [] then from == to
    else
      var n := |events| - 1;
      var c := Clip(events[n], r);
      c.length > 0 && c.End() == to && Tiles(events[..n], r, from, c.start)
  }

  /** The traversal of `r` has reported the nodes [lo, hi) and covered it up to `lastEnd`. */
  predicate Covered<T>(ns: seq<Node<T>>, r: Region, events: seq<Event<T>>, lo: nat, hi: nat, lastEnd: nat) {
    && lo <= hi <= |ns|
    && r.start <= lastEnd <= r.End() && Tiles(events, r, r.start, lastEnd)
    && (hi < |ns| ==> ns[hi].region.End() > lastEnd && (lo < hi ==> lastEnd <= ns[hi].region.start))
    && (lo == hi ==> lastEnd == r.start)
    && (forall i :: lo <= i < hi ==> Overlap(ns[i].region, r))
    && (forall i :: 0 <= i < lo ==> ns[i].region.End() <= r.start)
  }

  function GapBefore<T>(n: Node<T>, lastEnd: nat): seq<Event<T>> {
    if lastEnd < n.region.start then [Gap(Between(lastEnd, n.region.start))] else []
  }

  lemma TilesOneMore<T>(events: seq<Event<T>>, e: Event<T>, r: Region, from: nat)
    requires Clip(e, r).length > 0 && Tiles(events, r, from, Clip(e, r).start)
    ensures Tiles(events + [e], r, from, Clip(e, r).End())
  {
    assert (events + [e])[..|events|] == events;
  }

  lemma CoveredOneMore<T>(ns: seq<Node<T>>, r: Region, events: seq<Event<T>>, lo: nat, hi: nat, lastEnd: nat)
    requires Ordered(ns) && Covered(ns, r, events, lo, hi, lastEnd)
    requires r.length > 0 && hi < |ns| && ns[hi].region.start < r.End()
    ensures Covered(ns, r, events + GapBefore(ns[hi], lastEnd) + [Visit(ns[hi])], lo, hi + 1, Min(ns[hi].region.End(), r.End()))
  {
    var n := ns[hi];
    assert InOrder(ns, hi);
    assert lastEnd < r.End();
    var events' := events + GapBefore(n, lastEnd);
    var from := Max(lastEnd, n.region.start);
    assert Tiles(events', r, r.start, from) by {
      if lastEnd < n.region.start {
        TilesOneMore(events, Gap(Between(lastEnd, n.region.start)), r, r.start);
      } else {
        assert events' == events;
      }
    }
    assert Clip(Visit(n), r) == Between(from, Min(n.region.End(), r.End()));
    TilesOneMore(events', Visit(n), r, r.start);
    if hi + 1 < |ns| { assert InOrder(ns, hi + 1); }
  }

  function Visits<T>(events: seq<Event<T>>): seq<Node<T>> {
    if events == [] then []
    else
      var n := |events| - 1;
      Visits(events[..n]) + (if events[n].Visit? then [events[n].node] else [])
  }

  function Replaced<T>(e: Event<T>, onNode: Node<T> -> seq<Node<T>>, onGap: Region -> seq<Node<T>>): seq<Node<T>> {
    match e
    case Visit(n) => onNode(n)
    case Gap(g) => onGap(g)
  }

  function Built<T>(events: seq<Event<T>>, onNode: Node<T> -> seq<Node<T>>, onGap: Region -> seq<Node<T>>): seq<Node<T>> {
    if events == [] then []
    else
      var n := |events| - 1;
      Built(events[..n], onNode, onGap) + Replaced(events[n], onNode, onGap)
  }

  /** Putting nodes that stay within [start, end) in the place of ns[i..j] keeps the order. */
  lemma OrderedSplice<T>(ns: seq<Node<T>>, i: nat, j: nat, middle: seq<Node<T>>, start: nat, end: nat)
    requires Ordered(ns) && i <= j <= |ns| && Ordered(middle) && AllWithin(middle, start, end) && start <= end
    requires i > 0 ==> ns[i - 1].region.End() <= start
    requires j < |ns| ==> end <= ns[j].region.start
    ensures Ordered(ns[..i] + middle + ns[j..])
  {
    OrderedSlice(ns, 0, i);
    OrderedSlice(ns, j, |ns|);
    assert ns[0..i] == ns[..i] && ns[j..|ns|] == ns[j..];
    AppendOrdered(ns[..i], middle);
    AppendOrdered(ns[..i] + middle, ns[j..]);
  }

  /** The callbacks may split, shrink, erase or replace the node they are given, and fill the gap. */
  ghost predicate StayInside<T(!new)>(onNode: Node<T> -> seq<Node<T>>, onGap: Region -> seq<Node<T>>) {
    && (forall n: Node<T> {:trigger onNode(n)} ::
          n.region.length > 0 ==> Ordered(onNode(n)) && AllWithin(onNode(n), n.region.start, n.region.End()))
    && (forall g: Region {:trigger onGap(g)} ::
          g.length > 0 ==> Ordered(onGap(g)) && AllWithin(onGap(g), g.start, g.End()))
  }

  /** How far a traversal has come: `events` have been reported, `hi` is the next node of the original
      contents `ns`, and `it` is where that node is in the present contents `now`. */
  ghost predicate Placement<T>(onNode: Node<T> -> seq<Node<T>>, onGap: Region -> seq<Node<T>>,
                         ns: seq<Node<T>>, now: seq<Node<T>>, events: seq<Event<T>>, lo: nat, hi: nat, it: nat) {
    && lo <= hi <= |ns|
    && Visits(events) == ns[lo..hi]
    && it == lo + |Built(events, onNode, onGap)|
    && now == ns[..lo] + Built(events, onNode, onGap) + ns[hi..]
  }

  lemma PlacementOneMore<T>(onNode: Node<T> -> seq<Node<T>>, onGap: Region -> seq<Node<T>>,
                            ns: seq<Node<T>>, now: seq<Node<T>>, events: seq<Event<T>>, lo: nat, hi: nat, it: nat, e: Event<T>)
    requires Placement(onNode, onGap, ns, now, events, lo, hi, it)
    requires e.Visit? ==> it < |now| && e.node == now[it]
    ensures var j := if e.Visit? then 1 else 0;
            && hi + j <= |ns|
            && (e.Visit? ==> e.node == ns[hi])
            && Placement(onNode, onGap, ns, now[..it] + Replaced(e, onNode, onGap) + now[it + j..],
                         events + [e], lo, hi + j, it + |Replaced(e, onNode, onGap)|)
  {
    assert (events + [e])[..|events|] == events;
    assert now[..it] == ns[..lo] + Built(events, onNode, onGap);
    assert now[it..] == ns[hi..];
  }

  /** The state of a traversal of `r` between two iterations. Contracts compare it with `true` to have it proved as one fact. */
  ghost predicate InTurn<T>(onNode: Node<T> -> seq<Node<T>>, onGap: Region -> seq<Node<T>>, r: Region,
                            ns: seq<Node<T>>, now: seq<Node<T>>, events: seq<Event<T>>, lo: nat, hi: nat, it: nat, lastEnd: nat) {
    && Ordered(now)
    && Placement(onNode, onGap, ns, now, events, lo, hi, it)
    && Covered(ns, r, events, lo, hi, lastEnd)
    && (it > 0 && lastEnd < r.End() ==> now[it - 1].region.End() <= lastEnd)
  }

  lemma TurnStarts<T>(onNode: Node<T> -> seq<Node<T>>, onGap: Region -> seq<Node<T>>, r: Region, ns: seq<Node<T>>, lo: nat)
    requires Ordered(ns) && lo <= |ns| && Covered(ns, r, [], lo, lo, r.start)
    ensures InTurn(onNode, onGap, r, ns, ns, [], lo, lo, lo, r.start) == true
  {
    assert ns == ns[..lo] + [] + ns[lo..];
  }

  /** Where the traversal stands. */
  lemma TurnAt<T>(onNode: Node<T> -> seq<Node<T>>, onGap: Region -> seq<Node<T>>, r: Region,
                  ns: seq<Node<T>>, now: seq<Node<T>>, events: seq<Event<T>>, lo: nat, hi: nat, it: nat, lastEnd: nat)
    requires InTurn(onNode, onGap, r, ns, now, events, lo, hi, it, lastEnd) == true
    ensures hi <= |ns| && it <= |now| && (it < |now| <==> hi < |ns|) && (it < |now| ==> now[it] == ns[hi])
    ensures Ordered(now) && Placement(onNode, onGap, ns, now, events, lo, hi, it) == true && lastEnd <= r.End()
    ensures it > 0 && lastEnd < r.End() ==> now[it - 1].region.End() <= lastEnd
    ensures Covered(ns, r, events, lo, hi, lastEnd) == true
  {
  }

  /** An iteration has reported the gap before the next node, if any, and the node. */
  lemma TurnOver<T>(onNode: Node<T> -> seq<Node<T>>, onGap: Region -> seq<Node<T>>, r: Region,
                    ns: seq<Node<T>>, now: seq<Node<T>>, events: seq<Event<T>>, lo: nat, hi: nat, it: nat, lastEnd: nat)
    requires Ordered(ns) && r.length > 0 && Covered(ns, r, events, lo, hi, lastEnd) && hi < |ns| && ns[hi].region.start < r.End()
    requires var all := events + GapBefore(ns[hi], lastEnd) + [Visit(ns[hi])]; Placement(onNode, onGap, ns, now, all, lo, hi + 1, it)
    requires Ordered(now) && (it > 0 ==> now[it - 1].region.End() <= ns[hi].region.End())
    ensures var all := events + GapBefore(ns[hi], lastEnd) + [Visit(ns[hi])];
            InTurn(onNode, onGap, r, ns, now, all, lo, hi + 1, it, Min(ns[hi].region.End(), r.End())) == true
  {
    CoveredOneMore(ns, r, events, lo, hi, lastEnd);
  }

  /** What has been reported and done when a traversal ends, having come to `reached`. */
  ghost predicate Outcome<T>(onNode: Node<T> -> seq<Node<T>>, onGap: Region -> seq<Node<T>>, r: Region,
                             ns: seq<Node<T>>, now: seq<Node<T>>, events: seq<Event<T>>, lo: nat, hi: nat, reached: nat) {
    && Ordered(now) && lo <= hi <= |ns| && reached <= r.End()
    && Visits(events) == ns[lo..hi]
    && (forall i :: 0 <= i < lo ==> !Overlap(ns[i].region, r))
    && (forall i :: lo <= i < hi ==> Overlap(ns[i].region, r))
    && Tiles(events, r, r.start, reached)
    && now == ns[..lo] + Built(events, onNode, onGap) + ns[hi..]
  }

  lemma TurnOutcome<T>(onNode: Node<T> -> seq<Node<T>>, onGap: Region -> seq<Node<T>>, r: Region,
                       ns: seq<Node<T>>, now: seq<Node<T>>, events: seq<Event<T>>, lo: nat, hi: nat, it: nat, lastEnd: nat)
    requires InTurn(onNode, onGap, r, ns, now, events, lo, hi, it, lastEnd) == true
    ensures Outcome(onNode, onGap, r, ns, now, events, lo, hi, lastEnd) == true
  {
  }

  /** The same with one more gap, which ends at `reached`. */
  lemma GapOutcome<T>(onNode: Node<T> -> seq<Node<T>>, onGap: Region -> seq<Node<T>>, r: Region,
                      ns: seq<Node<T>>, now: seq<Node<T>>, events: seq<Event<T>>, lo: nat, hi: nat, it: nat, lastEnd: nat, reached: nat)
    requires Covered(ns, r, events, lo, hi, lastEnd) && lastEnd < reached <= r.End() && Ordered(now)
    requires Placement(onNode, onGap, ns, now, events + [Gap(Between(lastEnd, reached))], lo, hi, it)
    ensures Outcome(onNode, onGap, r, ns, now, events + [Gap(Between(lastEnd, reached))], lo, hi, reached) == true
  {
    TilesOneMore(events, Gap(Between(lastEnd, reached)), r, r.start);
  }

  predicate AllGoOn<T>(events: seq<Event<T>>, goOn: Event<T> -> bool) {
    forall i :: 0 <= i < |events| ==> goOn(events[i])
  }

  /** The traversal went on until a callback asked it not to, or until its end. */
  predicate StopsWhenAsked<T>(events: seq<Event<T>>, goOn: Event<T> -> bool, finished: bool) {
    if finished then AllGoOn(events, goOn)
    else events != [] && !goOn(events[|events| - 1]) && AllGoOn(events[..|events| - 1], goOn)
  }

  lemma StopLast<T>(events: seq<Event<T>>, e: Event<T>, goOn: Event<T> -> bool)
    requires AllGoOn(events, goOn)
    ensures StopsWhenAsked(events + [e], goOn, goOn(e)) == true
  {
    assert (events + [e])[..|events|] == events;
  }

  /** Half an iteration: the gap before the next node has been reported, if there is one. */
  ghost predicate GapDone<T>(onNode: Node<T> -> seq<Node<T>>, onGap: Region -> seq<Node<T>>,
                             ns: seq<Node<T>>, now: seq<Node<T>>, events: seq<Event<T>>, all: seq<Event<T>>, lo: nat, hi: nat, it: nat, lastEnd: nat) {
    Ordered(now) && hi < |ns| && Placement(onNode, onGap, ns, now, all, lo, hi, it) && all == events + GapBefore(ns[hi], lastEnd)
  }

  class IntrusiveLinearRegionMap<T(!new)> {
    var nodes: seq<Node<T>>

    ghost predicate Valid()
      reads this
    {
      Ordered(nodes)
    }

    constructor ()
      ensures Valid() && nodes == []
    {
      nodes := [];
    }

    /** The first node that starts at `address` or after it. */
    method LowerBound(address: nat) returns (i: nat)
      requires Valid()
      ensures i <= |nodes|
      ensures forall j :: 0 <= j < i ==> nodes[j].region.start < address
      ensures forall j :: i <= j < |nodes| ==> address <= nodes[j].region.start
    {
      i := 0;
      while i < |nodes| && nodes[i].region.start < address
        invariant i <= |nodes|
        invariant forall j :: 0 <= j < i ==> nodes[j].region.start < address
      {
        i := i + 1;
      }
      ApartFrom(nodes, i, Region(address, 0));
    }

    /** Where a traversal of a region that starts at `address` begins. */
    method StartingPoint(address: nat) returns (it: nat)
      requires Valid()
      ensures it <= |nodes|
      ensures forall j :: 0 <= j < it ==> nodes[j].region.End() <= address
      ensures forall j :: it < j < |nodes| ==> nodes[j].region.End() > address
      ensures it == |nodes| ==> it == 0
    {
      it := LowerBound(address);
      if it != 0 {
        if it == |nodes| || nodes[it].region.start > address {
          it := it - 1;
        }
        forall j | 0 <= j < it ensures nodes[j].region.End() <= address { OrderedPair(nodes, j, it); }
      }
      forall j | it < j < |nodes| ensures nodes[j].region.End() > address { assert InOrder(nodes, j); }
    }

    method Insert(n: Node<T>, ghost before: seq<Node<T>>, ghost after: seq<Node<T>>)
      requires Valid() && n.region.length > 0 && nodes == before + after
      requires before != [] ==> before[|before| - 1].region.End() <= n.region.start
      requires after != [] ==> n.region.End() <= after[0].region.start
      modifies this
      ensures Valid() && nodes == before + [n] + after
    {
      var k := LowerBound(n.region.start);
      assert k == |before| by {
        if before != [] { assert nodes[|before| - 1] == before[|before| - 1] && InOrder(nodes, |before| - 1); }
        if after != [] { assert nodes[|before|] == after[0]; }
      }
      OrderedSlice(nodes, 0, k);
      OrderedSlice(nodes, k, |nodes|);
      assert before == nodes[0..k] && after == nodes[k..|nodes|];
      nodes := nodes[..k] + [n] + nodes[k..];
      AppendOrdered(before, [n]);
      AppendOrdered(before + [n], after);
    }

    /** Makes the node the shared part only, or erases it. */
    method Shrink(position: nat, both: Region, removeIntersection: bool)
      requires Valid() && position < |nodes| && both.length > 0
      requires nodes[position].region.start <= both.start && both.End() <= nodes[position].region.End()
      modifies this
      ensures Valid()
      ensures nodes == old(nodes)[..position] + (if removeIntersection then [] else [Node(both, old(nodes[position].content))])
                       + old(nodes)[position + 1..]
    {
      ghost var before, after := nodes[..position], nodes[position + 1..];
      Around(nodes, position);
      if removeIntersection {
        nodes := nodes[..position] + nodes[position + 1..];
        AppendOrdered(before, after);
      } else {
        ghost var middle := [Node(both, nodes[position].content)];
        nodes := nodes[position := Node(both, nodes[position].content)];
        AppendOrdered(before, middle);
        AppendOrdered(before + middle, after);
        assert nodes == before + middle + after;
      }
    }

    /** Puts the part of `original` before `both` back. */
    method InsertLeft(original: Node<T>, both: Region, ghost before: seq<Node<T>>, ghost after: seq<Node<T>>)
      requires Valid() && nodes == before + after && original.region.start <= both.start
      requires before != [] ==> before[|before| - 1].region.End() <= original.region.start
      requires after != [] ==> both.start <= after[0].region.start
      modifies this
      ensures Valid() && nodes == before + LeftOf(original, both) + after
    {
      if original.region.start < both.start {
        Insert(Node(Between(original.region.start, both.start), original.content), before, after);
      } else {
        assert before + [] + after == before + after;
      }
    }

    /** Puts the part of `original` after `both` back. */
    method InsertRight(original: Node<T>, both: Region, ghost before: seq<Node<T>>, ghost after: seq<Node<T>>)
      requires Valid() && nodes == before + after && both.End() <= original.region.End()
      requires before != [] ==> before[|before| - 1].region.End() <= both.End()
      requires after != [] ==> original.region.End() <= after[0].region.start
      modifies this
      ensures Valid() && nodes == before + RightOf(original, both) + after
    {
      if both.End() < original.region.End() {
        Insert(Node(Between(both.End(), original.region.End()), original.content), before, after);
      } else {
        assert before + [] + after == before + after;
      }
    }

    method ShrinkKeepingLeft(position: nat, both: Region, removeIntersection: bool)
      requires Valid() && position < |nodes| && both.length > 0
      requires nodes[position].region.start <= both.start && both.End() <= nodes[position].region.End()
      modifies this
      ensures Valid()
      ensures nodes == old(nodes)[..position] + LeftOf(old(nodes[position]), both)
                       + (if removeIntersection then [] else [Node(both, old(nodes[position].content))]) + old(nodes)[position + 1..]
    {
      var original := nodes[position];
      ghost var before, after := nodes[..position], nodes[position + 1..];
      ghost var middle := if removeIntersection then [] else [Node(both, original.content)];
      Around(nodes, position);
      Shrink(position, both, removeIntersection);
      assert nodes == before + (middle + after);
      InsertLeft(original, both, before, middle + after);
    }

    /** Sets the addresses shared with `fragmenter` apart in a node of their own, or removes them. */
    method FragmentByIntersection(position: nat, fragmenter: Region, removeIntersection: bool)
      returns (intersectionPosition: Option<nat>)
      requires Valid() && position < |nodes| && Overlap(nodes[position].region, fragmenter)
      modifies this
      ensures Valid()
      ensures nodes == old(nodes)[..position] + Fragmented(old(nodes[position]), fragmenter, removeIntersection)
                       + old(nodes)[position + 1..]
      ensures intersectionPosition == if removeIntersection then None
                                      else Some(position + |LeftOf(old(nodes[position]), Shared(old(nodes[position].region), fragmenter))|)
    {
      var original := nodes[position];
      var both := Shared(original.region, fragmenter);
      intersectionPosition := if removeIntersection then None else Some(position + |LeftOf(original, both)|);
      ghost var before, after := nodes[..position], nodes[position + 1..];
      ghost var middle := if removeIntersection then [] else [Node(both, original.content)];
      ghost var upTo := before + LeftOf(original, both) + middle;
      Around(nodes, position);
      assert upTo != [] ==> upTo[|upTo| - 1].region.End() <= both.End();
      ShrinkKeepingLeft(position, both, removeIntersection);
      InsertRight(original, both, upTo, after);
      assert nodes == before + (LeftOf(original, both) + middle + RightOf(original, both)) + after;
    }

    /** Cuts the node at `position`, the first of `rest`, and says where its successor is then. */
    method CutOne(region: Region, position: nat, ghost done: seq<Node<T>>, ghost rest: seq<Node<T>>) returns (it: nat)
      requires Valid() && rest != [] && nodes == done + rest && position == |done|
      modifies this
      ensures Valid() && nodes == done + Cut(rest[0], region) + rest[1..] && it == |done + Cut(rest[0], region)|
    {
      it := position + 1;
      if Overlap(nodes[position].region, region) {
        var size := |nodes|;
        var _ := FragmentByIntersection(position, region, false);
        it := it + (|nodes| - size);
      }
    }

    method FragmentFrom(start: nat, region: Region, ghost ns: seq<Node<T>>, ghost first: nat) returns (ghost k: nat)
      requires Valid() && first <= |ns|
      requires start == |FragmentAll(ns[..first], region)| && nodes == FragmentAll(ns[..first], region) + ns[first..]
      modifies this
      ensures Valid() && k <= |ns| && nodes == FragmentAll(ns[..k], region) + ns[k..]
      ensures k < |ns| ==> region.End() <= ns[k].region.start
    {
      var it := start;
      k := first;
      while it < |nodes| && nodes[it].region.start < region.End()
        invariant Valid() && k <= |ns|
        invariant it == |FragmentAll(ns[..k], region)| && nodes == FragmentAll(ns[..k], region) + ns[k..]
        decreases |ns| - k
      {
        FragmentOneMore(ns, k, region);
        it := CutOne(region, it, FragmentAll(ns[..k], region), ns[k..]);
        k := k + 1;
      }
    }

    /** Cuts every node at the boundaries of `region`. */
    method FragmentIntersecting(region: Region)
      requires Valid()
      modifies this
      ensures Valid() && nodes == FragmentAll(old(nodes), region)
    {
      ghost var ns := nodes;
      var it := StartingPoint(region.start);
      FragmentAllApart(ns[..it], region);
      ghost var k := FragmentFrom(it, region, ns, it);
      ApartFrom(ns, k, region);
      FragmentPrefix(ns, k, region);
    }

    /** Puts `middle` in the place of the nodes [i, j). */
    method Splice(i: nat, j: nat, middle: seq<Node<T>>, ghost start: nat, ghost end: nat)
      requires Valid() && i <= j <= |nodes| && Ordered(middle) && AllWithin(middle, start, end) && start <= end
      requires i > 0 ==> nodes[i - 1].region.End() <= start
      requires j < |nodes| ==> end <= nodes[j].region.start
      modifies this
      ensures Valid() && nodes == old(nodes)[..i] + middle + old(nodes)[j..]
      ensures i + |middle| > 0 ==> nodes[i + |middle| - 1].region.End() <= end
    {
      OrderedSplice(nodes, i, j, middle, start, end);
      nodes := nodes[..i] + middle + nodes[j..];
      if i + |middle| > 0 {
        assert nodes[i + |middle| - 1] == if middle == [] then old(nodes)[i - 1] else middle[|middle| - 1];
      }
    }

    method ReportMissing(missing: Region, onNode: Node<T> -> seq<Node<T>>, onGap: Region -> seq<Node<T>>,
                         events: seq<Event<T>>, it: nat, ghost ns: seq<Node<T>>, ghost lo: nat, ghost hi: nat)
      returns (events': seq<Event<T>>, it': nat)
      requires Placement(onNode, onGap, ns, nodes, events, lo, hi, it)
      requires Valid() && StayInside(onNode, onGap) && missing.length > 0
      requires it > 0 ==> nodes[it - 1].region.End() <= missing.start
      requires it < |nodes| ==> missing.End() <= nodes[it].region.start
      modifies this
      ensures Valid() && events' == events + [Gap(missing)] && Placement(onNode, onGap, ns, nodes, events', lo, hi, it')
    {
      PlacementOneMore(onNode, onGap, ns, nodes, events, lo, hi, it, Gap(missing));
      var inserted := onGap(missing);
      Splice(it, it, inserted, missing.start, missing.End());
      it' := it + |inserted|;
      events' := events + [Gap(missing)];
    }

    method ReportIntersecting(onNode: Node<T> -> seq<Node<T>>, onGap: Region -> seq<Node<T>>,
                              events: seq<Event<T>>, it: nat, ghost ns: seq<Node<T>>, ghost lo: nat, ghost hi: nat)
      returns (events': seq<Event<T>>, it': nat)
      requires Placement(onNode, onGap, ns, nodes, events, lo, hi, it) && hi < |ns|
      requires Valid() && StayInside(onNode, onGap)
      modifies this
      ensures Valid() && events' == events + [Visit(ns[hi])] && Placement(onNode, onGap, ns, nodes, events', lo, hi + 1, it')
      ensures it' > 0 ==> nodes[it' - 1].region.End() <= ns[hi].region.End()
    {
      var current := nodes[it];
      PlacementOneMore(onNode, onGap, ns, nodes, events, lo, hi, it, Visit(current));
      Around(nodes, it);
      var replacement := onNode(current);
      Splice(it, it + 1, replacement, current.region.start, current.region.End());
      it' := it + |replacement|;
      events' := events + [Visit(current)];
    }

    /** Where the traversal of a region starts: the first node that is not entirely before it. */
    method FirstReaching(region: Region) returns (it: nat)
      requires Valid() && region.length > 0
      ensures it <= |nodes| && Covered(nodes, region, [], it, it, region.start)
    {
      it := 0;
      if |nodes| != 0 {
        it := StartingPoint(region.start);
        if nodes[it].region.End() <= region.start {
          it := it + 1;
        }
      }
    }

    /** The gap before the current node, if there is one. */
    method ReportGap(region: Region, onNode: Node<T> -> seq<Node<T>>, onGap: Region -> seq<Node<T>>, goOn: Event<T> -> bool,
                     events: seq<Event<T>>, it: nat, lastEnd: nat, ghost ns: seq<Node<T>>, ghost lo: nat, ghost hi: nat)
      returns (events': seq<Event<T>>, it': nat, cont: bool)
      requires StayInside(onNode, onGap) && AllGoOn(events, goOn) && Covered(ns, region, events, lo, hi, lastEnd) == true
      requires InTurn(onNode, onGap, region, ns, nodes, events, lo, hi, it, lastEnd) == true && hi < |ns|
      requires it < |nodes| && nodes[it] == ns[hi] && nodes[it].region.start < region.End()
      modifies this
      ensures StopsWhenAsked(events', goOn, cont) == true
      ensures cont ==> GapDone(onNode, onGap, ns, nodes, events, events', lo, hi, it', lastEnd) == true
      ensures !cont ==> Outcome(onNode, onGap, region, ns, nodes, events', lo, hi, ns[hi].region.start) == true
    {
      TurnAt(onNode, onGap, region, ns, nodes, events, lo, hi, it, lastEnd);
      events', it', cont := events, it, true;
      if lastEnd < nodes[it].region.start {
        var missing := Between(lastEnd, nodes[it].region.start);
        events', it' := ReportMissing(missing, onNode, onGap, events, it, ns, lo, hi);
        cont := goOn(Gap(missing));
        StopLast(events, Gap(missing), goOn);
        GapOutcome(onNode, onGap, region, ns, nodes, events, lo, hi, it', lastEnd, ns[hi].region.start);
      } else {
        assert events == events + GapBefore(ns[hi], lastEnd);
      }
    }

    /** The current node, after the gap before it. */
    method ReportNode(region: Region, onNode: Node<T> -> seq<Node<T>>, onGap: Region -> seq<Node<T>>, goOn: Event<T> -> bool,
                      all: seq<Event<T>>, it: nat, ghost lastEnd: nat,
                      ghost ns: seq<Node<T>>, ghost events: seq<Event<T>>, ghost lo: nat, ghost hi: nat)
      returns (events': seq<Event<T>>, it': nat, lastEnd': nat, cont: bool)
      requires Ordered(ns) && StayInside(onNode, onGap) && region.length > 0 && AllGoOn(all, goOn)
      requires Covered(ns, region, events, lo, hi, lastEnd) == true && hi < |ns| && ns[hi].region.start < region.End()
      requires GapDone(onNode, onGap, ns, nodes, events, all, lo, hi, it, lastEnd) == true
      modifies this
      ensures StopsWhenAsked(events', goOn, cont) == true
      ensures InTurn(onNode, onGap, region, ns, nodes, events', lo, hi + 1, it', lastEnd') == true
    {
      var end := nodes[it].region.End();
      events', it' := ReportIntersecting(onNode, onGap, all, it, ns, lo, hi);
      lastEnd' := if end <= region.End() then end else region.End();
      cont := goOn(events'[|all|]);
      StopLast(all, Visit(ns[hi]), goOn);
      TurnOver(onNode, onGap, region, ns, nodes, events, lo, hi, it', lastEnd);
    }

    /** One iteration: the gap before the current node, if any, and then the node, unless the former ends the traversal. */
    method ReportOne(region: Region, onNode: Node<T> -> seq<Node<T>>, onGap: Region -> seq<Node<T>>, goOn: Event<T> -> bool,
                     events: seq<Event<T>>, it: nat, lastEnd: nat, ghost ns: seq<Node<T>>, ghost lo: nat, ghost hi: nat)
      returns (events': seq<Event<T>>, it': nat, lastEnd': nat, ghost hi': nat, cont: bool)
      requires Ordered(ns) && StayInside(onNode, onGap) && region.length > 0 && AllGoOn(events, goOn)
      requires InTurn(onNode, onGap, region, ns, nodes, events, lo, hi, it, lastEnd) == true
      requires it < |nodes| && nodes[it].region.start < region.End()
      modifies this
      ensures StopsWhenAsked(events', goOn, cont) == true
      ensures cont ==> hi' == hi + 1 <= |ns| && InTurn(onNode, onGap, region, ns, nodes, events', lo, hi', it', lastEnd') == true
      ensures !cont ==> Outcome(onNode, onGap, region, ns, nodes, events', lo, hi', lastEnd') == true
    {
      TurnAt(onNode, onGap, region, ns, nodes, events, lo, hi, it, lastEnd);
      lastEnd', hi' := nodes[it].region.start, hi;
      events', it', cont := ReportGap(region, onNode, onGap, goOn, events, it, lastEnd, ns, lo, hi);
      if cont {
        events', it', lastEnd', cont := ReportNode(region, onNode, onGap, goOn, events', it', lastEnd, ns, events, lo, hi);
        hi' := hi + 1;
        TurnOutcome(onNode, onGap, region, ns, nodes, events', lo, hi', it', lastEnd');
      }
    }

    method TraverseFrom(region: Region, onNode: Node<T> -> seq<Node<T>>, onGap: Region -> seq<Node<T>>, goOn: Event<T> -> bool,
                        start: nat, ghost ns: seq<Node<T>>)
      returns (events: seq<Event<T>>, it: nat, lastEnd: nat, ghost hi: nat, cont: bool)
      requires Ordered(ns) && region.length > 0 && StayInside(onNode, onGap)
      requires InTurn(onNode, onGap, region, ns, nodes, [], start, start, start, region.start) == true
      modifies this
      ensures StopsWhenAsked(events, goOn, cont) == true
      ensures cont ==> InTurn(onNode, onGap, region, ns, nodes, events, start, hi, it, lastEnd) == true
      ensures cont && it < |nodes| ==> region.End() <= nodes[it].region.start
      ensures !cont ==> Outcome(onNode, onGap, region, ns, nodes, events, start, hi, lastEnd) == true
    {
      events, it, lastEnd, hi, cont := [], start, region.start, start, true;
      TurnAt(onNode, onGap, region, ns, nodes, events, start, hi, it, lastEnd);
      while it < |nodes| && nodes[it].region.start < region.End()
        invariant cont && AllGoOn(events, goOn) && hi <= |ns| && (it < |nodes| ==> hi < |ns|)
        invariant InTurn(onNode, onGap, region, ns, nodes, events, start, hi, it, lastEnd) == true
        decreases |ns| - hi
      {
        events, it, lastEnd, hi, cont := ReportOne(region, onNode, onGap, goOn, events, it, lastEnd, ns, start, hi);
        if !cont {
          return;
        }
        TurnAt(onNode, onGap, region, ns, nodes, events, start, hi, it, lastEnd);
      }
    }

    /** Reports, in address order, every node that intersects `region` and every gap within it, and puts what the callbacks
        return in their place, until one of them asks to stop. */
    method ProcessIntersectingAndMissing(region: Region, onNode: Node<T> -> seq<Node<T>>, onGap: Region -> seq<Node<T>>,
                                         goOn: Event<T> -> bool)
      returns (events: seq<Event<T>>, finished: bool, ghost lo: nat, ghost hi: nat, ghost reached: nat)
      requires Valid() && region.length > 0 && StayInside(onNode, onGap)
      modifies this
      ensures Valid() && StopsWhenAsked(events, goOn, finished)
      ensures Outcome(onNode, onGap, region, old(nodes), nodes, events, lo, hi, reached)
      ensures finished ==> reached == region.End() && forall i :: hi <= i < |old(nodes)| ==> !Overlap(old(nodes)[i].region, region)
    {
      ghost var ns := nodes;
      var it := FirstReaching(region);
      lo := it;
      TurnStarts(onNode, onGap, region, ns, lo);
      var lastEnd: nat;
      events, it, lastEnd, hi, finished := TraverseFrom(region, onNode, onGap, goOn, it, ns);
      reached := lastEnd;
      if finished {
        events, finished, reached := ReportRest(region, onNode, onGap, goOn, events, it, lastEnd, ns, lo, hi);
      }
    }

    /** The gap after the last node, if there is one. */
    method ReportRest(region: Region, onNode: Node<T> -> seq<Node<T>>, onGap: Region -> seq<Node<T>>, goOn: Event<T> -> bool,
                      events: seq<Event<T>>, it: nat, lastEnd: nat, ghost ns: seq<Node<T>>, ghost lo: nat, ghost hi: nat)
      returns (events': seq<Event<T>>, finished: bool, ghost reached: nat)
      requires Ordered(ns) && StayInside(onNode, onGap) && region.length > 0 && StopsWhenAsked(events, goOn, true) == true
      requires InTurn(onNode, onGap, region, ns, nodes, events, lo, hi, it, lastEnd) == true
      requires it < |nodes| ==> region.End() <= nodes[it].region.start
      modifies this
      ensures StopsWhenAsked(events', goOn, finished) == true && reached == region.End()
      ensures Outcome(onNode, onGap, region, ns, nodes, events', lo, hi, reached) == true
      ensures forall i :: hi <= i < |ns| ==> !Overlap(ns[i].region, region)
    {
      TurnAt(onNode, onGap, region, ns, nodes, events, lo, hi, it, lastEnd);
      ApartFrom(ns, hi, region);
      events', finished, reached := events, true, region.End();
      if lastEnd < region.End() {
        var missing := Between(lastEnd, region.End());
        ghost var it';
        events', it' := ReportMissing(missing, onNode, onGap, events, it, ns, lo, hi);
        finished := goOn(Gap(missing));
        StopLast(events, Gap(missing), goOn);
        GapOutcome(onNode, onGap, region, ns, nodes, events, lo, hi, it', lastEnd, reached);
      } else {
        TurnOutcome(onNode, onGap, region, ns, nodes, events, lo, hi, it, lastEnd);
      }
    }
  }
}
