/** The accesses a task declares, gathered into one map of disjoint regions. */
module AccessRegistration {
  import opened Options
  import opened DataAccesses
  import opened Regions
  import opened RegionMaps

  datatype Declared = Declared(ty: AccessType, weak: bool)

  datatype Declaration = Declaration(region: Region, access: Declared)

  /** Two accesses of one task to the same data. */
  function Upgrade(a: Declared, b: Declared): Declared {
    Declared(if a.ty == b.ty then a.ty else ReadWrite, a.weak && b.weak)
  }

  function Merge(a: Option<Declared>, b: Declared): Declared {
    if a.None? then b else Upgrade(a.value, b)
  }

  function UpgradeNode(b: Declared): Node<Declared> -> seq<Node<Declared>> {
    (n: Node<Declared>) => [Node(n.region, Upgrade(n.content, b))]
  }

  function FillGap(b: Declared): Region -> seq<Node<Declared>> {
    (g: Region) => [Node(g, b)]
  }

  /** Neither callback ever stops the traversal. */
  function Always(): Event<Declared> -> bool {
    (e: Event<Declared>) => true
  }

  lemma SingletonsStayInside(b: Declared)
    ensures StayInside(UpgradeNode(b), FillGap(b))
  {
    forall n: Node<Declared> | n.region.length > 0 ensures Ordered(UpgradeNode(b)(n)) { }
  }

  predicate AllContained(events: seq<Event<Declared>>, r: Region) {
    forall i :: 0 <= i < |events| ==> events[i].Visit? ==> FullyContainedIn(events[i].node.region, r) && events[i].node.region.length > 0
  }

  /** Address by address, a traversal that upgrades the nodes and fills the gaps merges the new access in. */
  lemma {:induction false} BuiltMeaning(events: seq<Event<Declared>>, r: Region, from: nat, to: nat, b: Declared, p: nat)
    requires Tiles(events, r, from, to) && AllContained(events, r)
    ensures from <= to
    ensures At(Built(events, UpgradeNode(b), FillGap(b)), p)
         == if from <= p < to then Some(Merge(At(Visits(events), p), b)) else None
    ensures !(from <= p < to) ==> At(Visits(events), p) == None
  {
    if events != [] {
      var n := |events| - 1;
      var c := Clip(events[n], r);
      BuiltMeaning(events[..n], r, from, c.start, b, p);
      AtAppend(Built(events[..n], UpgradeNode(b), FillGap(b)), Replaced(events[n], UpgradeNode(b), FillGap(b)), p);
      AtAppend(Visits(events[..n]), if events[n].Visit? then [events[n].node] else [], p);
    }
  }

  lemma {:induction false} VisitsContained(events: seq<Event<Declared>>, i: nat)
    requires i < |events| && events[i].Visit?
    ensures events[i].node in Visits(events)
  {
    if i < |events| - 1 {
      VisitsContained(events[..|events| - 1], i);
    }
  }

  lemma VisitedAreContained(ns: seq<Node<Declared>>, events: seq<Event<Declared>>, lo: nat, hi: nat, r: Region)
    requires CutAt(ns, r) && lo <= hi <= |ns| && Visits(events) == ns[lo..hi]
    requires forall i :: lo <= i < hi ==> Overlap(ns[i].region, r)
    ensures AllContained(events, r)
  {
    forall i | 0 <= i < |events| && events[i].Visit? ensures FullyContainedIn(events[i].node.region, r) && events[i].node.region.length > 0 {
      VisitsContained(events, i);
      var j :| 0 <= j < |ns[lo..hi]| && ns[lo..hi][j] == events[i].node;
      assert events[i].node == ns[lo + j];
    }
  }

  /** What the addresses outside the region and inside it hold after the traversal. */
  lemma TraversalMeaning(ns: seq<Node<Declared>>, events: seq<Event<Declared>>, lo: nat, hi: nat, r: Region, b: Declared, p: nat)
    requires Ordered(ns) && CutAt(ns, r) && lo <= hi <= |ns| && Visits(events) == ns[lo..hi]
    requires forall i :: 0 <= i < |ns| ==> (lo <= i < hi <==> Overlap(ns[i].region, r))
    requires r.length > 0 && Tiles(events, r, r.start, r.End())
    ensures At(ns[..lo] + Built(events, UpgradeNode(b), FillGap(b)) + ns[hi..], p)
         == if r.Contains(p) then Some(Merge(At(ns, p), b)) else At(ns, p)
  {
    VisitedAreContained(ns, events, lo, hi, r);
    BuiltMeaning(events, r, r.start, r.End(), b, p);
    AtBetween(ns[..lo], Built(events, UpgradeNode(b), FillGap(b)), ns[hi..], p);
    InThreeParts(ns, lo, hi, p);
    if r.Contains(p) {
      OthersOutside(ns, lo, hi, r, p);
    }
  }

  lemma AtBetween(a: seq<Node<Declared>>, b: seq<Node<Declared>>, c: seq<Node<Declared>>, p: nat)
    ensures At(a + b + c, p) == Or(Or(At(a, p), At(b, p)), At(c, p))
  {
    AtAppend(a, b, p);
    AtAppend(a + b, c, p);
  }

  lemma InThreeParts(ns: seq<Node<Declared>>, lo: nat, hi: nat, p: nat)
    requires lo <= hi <= |ns|
    ensures At(ns, p) == Or(Or(At(ns[..lo], p), At(ns[lo..hi], p)), At(ns[hi..], p))
  {
    assert ns == ns[..lo] + ns[lo..hi] + ns[hi..];
    AtBetween(ns[..lo], ns[lo..hi], ns[hi..], p);
  }

  lemma OthersOutside(ns: seq<Node<Declared>>, lo: nat, hi: nat, r: Region, p: nat)
    requires Ordered(ns) && lo <= hi <= |ns| && r.Contains(p)
    requires forall i :: 0 <= i < |ns| ==> (lo <= i < hi <==> Overlap(ns[i].region, r))
    ensures At(ns[..lo], p) == None && At(ns[hi..], p) == None
  {
    forall i | 0 <= i < |ns| && !(lo <= i < hi) ensures !ns[i].region.Contains(p) {
      assert InOrder(ns, i);
    }
    AtOutside(ns[..lo], p);
    AtOutside(ns[hi..], p);
  }

  /** Adds one access to those of the task. */
  method RegisterAccess(accesses: IntrusiveLinearRegionMap<Declared>, d: Declaration)
    requires accesses.Valid()
    modifies accesses
    ensures accesses.Valid()
    ensures forall p: nat :: At(accesses.nodes, p) == Register(old(At(accesses.nodes, p)), d, p)
  {
    if d.region.start == 0 {
      return;
    }
    if d.region.length == 0 {
      return;
    }
    ghost var original := accesses.nodes;
    accesses.FragmentIntersecting(d.region);
    ghost var ns := accesses.nodes;
    ghost var end := if original == [] then 0 else original[|original| - 1].region.End();
    EndsLast(original);
    FragmentAllOrdered(original, d.region, end);
    assert StayInside(UpgradeNode(d.access), FillGap(d.access)) by { SingletonsStayInside(d.access); }
    var events, finished, lo, hi, reached :=
      accesses.ProcessIntersectingAndMissing(d.region, UpgradeNode(d.access), FillGap(d.access), Always());
    assert finished;
    forall p: nat ensures At(accesses.nodes, p) == Register(At(original, p), d, p) {
      FragmentAllInvisible(original, d.region, p);
      TraversalMeaning(ns, events, lo, hi, d.region, d.access, p);
    }
  }

  lemma EndsLast(ns: seq<Node<Declared>>)
    requires Ordered(ns)
    ensures AllWithin(ns, 0, if ns == [] then 0 else ns[|ns| - 1].region.End())
  {
    forall i | 0 <= i < |ns| - 1 ensures ns[i].region.End() <= ns[|ns| - 1].region.End() {
      OrderedPair(ns, i, |ns| - 1);
    }
  }

  function Register(a: Option<Declared>, d: Declaration, p: nat): Option<Declared> {
    if d.region.start != 0 && d.region.Contains(p) then Some(Merge(a, d.access)) else a
  }

  /** What address `p` holds once the declarations have been registered in turn. */
  function Fold(ds: seq<Declaration>, p: nat): Option<Declared> {
    if ds == [] then None else Register(Fold(ds[..|ds| - 1], p), ds[|ds| - 1], p)
  }

  /** Registers all the accesses of a task. */
  method RegisterAccesses(ds: seq<Declaration>) returns (accesses: IntrusiveLinearRegionMap<Declared>)
    ensures accesses.Valid() && fresh(accesses)
    ensures forall p: nat :: At(accesses.nodes, p) == Fold(ds, p)
  {
    accesses := new IntrusiveLinearRegionMap();
    for i := 0 to |ds|
      invariant fresh(accesses) && accesses.Valid()
      invariant forall p: nat :: At(accesses.nodes, p) == Fold(ds[..i], p)
    {
      assert ds[..i + 1][..i] == ds[..i];
      RegisterAccess(accesses, ds[i]);
    }
    assert ds[..|ds|] == ds;
  }

  predicate Covers(d: Declaration, p: nat) {
    d.region.start != 0 && d.region.Contains(p)
  }

  /** The common type of the accesses to `p` if they agree, `ReadWrite` otherwise; weak if all are. */
  ghost predicate Summarizes(a: Option<Declared>, ds: seq<Declaration>, p: nat) {
    if a.None? then forall d :: d in ds ==> !Covers(d, p)
    else
      && (exists d :: d in ds && Covers(d, p))
      && (a.value.weak <==> forall d :: d in ds && Covers(d, p) ==> d.access.weak)
      && ((forall d :: d in ds && Covers(d, p) ==> d.access.ty == a.value.ty)
          || (a.value.ty == ReadWrite
              && exists d, d' :: d in ds && d' in ds && Covers(d, p) && Covers(d', p) && d.access.ty != d'.access.ty))
  }

  lemma {:induction false} FoldSummarizes(ds: seq<Declaration>, p: nat)
    ensures Summarizes(Fold(ds, p), ds, p)
  {
    if ds != [] {
      var n := |ds| - 1;
      var before, d := ds[..n], ds[n];
      FoldSummarizes(before, p);
      assert forall e :: e in ds <==> e in before || e == d;
      if Covers(d, p) && Fold(before, p).Some? {
        var a := Fold(before, p).value;
        if a.ty != d.access.ty && forall e :: e in before && Covers(e, p) ==> e.access.ty == a.ty {
          var e :| e in before && Covers(e, p);
          assert e in ds && d in ds && e.access.ty != d.access.ty;
        }
      }
    }
  }

  /** The order in which a task declares its accesses, and declaring one twice, makes no difference. */
  lemma OrderDoesNotMatter(ds: seq<Declaration>, es: seq<Declaration>, p: nat)
    requires forall d :: d in ds <==> d in es
    ensures Fold(ds, p) == Fold(es, p)
  {
    FoldSummarizes(ds, p);
    FoldSummarizes(es, p);
  }
}
