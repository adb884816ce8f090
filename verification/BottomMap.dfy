/** What is done with the bottom map of a task: looking up the last objects under a region, and putting a new one there. */
module BottomMaps {
  import opened Options
  import opened Regions
  import opened RegionMaps
  import opened RegionPropagation
  import opened BytewiseRefinement

  /** The part of the entries that lies in r. */
  function Restricted<T>(ns: seq<Node<T>>, r: Region): seq<Node<T>> {
    if ns == [] then []
    else
      var m := |ns| - 1;
      Restricted(ns[..m], r) + if Overlap(ns[m].region, r) then [Node(Shared(ns[m].region, r), ns[m].content)] else []
  }

  function EndOf<T>(ns: seq<Node<T>>): nat {
    if ns == [] then 0 else ns[|ns| - 1].region.End()
  }

  lemma AppendWithin<T>(a: seq<Node<T>>, b: seq<Node<T>>, start: nat, end: nat)
    requires AllWithin(a, start, end) && AllWithin(b, start, end)
    ensures AllWithin(a + b, start, end)
  {
  }

  lemma {:induction false} RestrictedWithin<T>(ns: seq<Node<T>>, r: Region, end: nat)
    requires AllWithin(ns, 0, end)
    ensures AllWithin(Restricted(ns, r), r.start, Min(r.End(), end))
  {
    if ns != [] {
      var m := |ns| - 1;
      RestrictedWithin(ns[..m], r, end);
      AppendWithin(Restricted(ns[..m], r), if Overlap(ns[m].region, r) then [Node(Shared(ns[m].region, r), ns[m].content)] else [],
                   r.start, Min(r.End(), end));
    }
  }

  lemma AllBeforeEnd<T>(ns: seq<Node<T>>)
    requires Ordered(ns)
    ensures AllWithin(ns, 0, EndOf(ns))
  {
    forall i | 0 <= i < |ns| - 1 ensures ns[i].region.End() <= EndOf(ns) {
      OrderedPair(ns, i, |ns| - 1);
    }
  }

  lemma AllBeforeLast<T>(ns: seq<Node<T>>)
    requires Ordered(ns) && ns != []
    ensures AllWithin(ns[..|ns| - 1], 0, ns[|ns| - 1].region.start)
  {
    forall i | 0 <= i < |ns| - 1 ensures ns[i].region.End() <= ns[|ns| - 1].region.start {
      OrderedPair(ns, i, |ns| - 1);
    }
  }

  lemma {:induction false} RestrictedOrdered<T>(ns: seq<Node<T>>, r: Region)
    requires Ordered(ns)
    ensures Ordered(Restricted(ns, r))
  {
    if ns != [] {
      var m := |ns| - 1;
      Around(ns, m);
      RestrictedOrdered(ns[..m], r);
      if Overlap(ns[m].region, r) {
        AllBeforeLast(ns);
        RestrictedWithin(ns[..m], r, ns[m].region.start);
        AppendOrdered(Restricted(ns[..m], r), [Node(Shared(ns[m].region, r), ns[m].content)]);
      } else {
        assert Restricted(ns, r) == Restricted(ns[..m], r);
      }
    }
  }

  lemma {:induction false} RestrictedMeaning<T>(ns: seq<Node<T>>, r: Region, p: nat)
    ensures At(Restricted(ns, r), p) == if r.Contains(p) then At(ns, p) else None
  {
    if ns != [] {
      var m := |ns| - 1;
      var last := if Overlap(ns[m].region, r) then [Node(Shared(ns[m].region, r), ns[m].content)] else [];
      RestrictedMeaning(ns[..m], r, p);
      AtAppend(Restricted(ns[..m], r), last, p);
      assert ns == ns[..m] + [ns[m]];
      AtAppend(ns[..m], [ns[m]], p);
    }
  }

  lemma BeyondTheEnd<T>(ns: seq<Node<T>>, p: nat)
    requires Ordered(ns) && EndOf(ns) <= p
    ensures At(ns, p).None?
  {
    AllBeforeEnd(ns);
    AtOutside(ns, p);
  }

  // ----- A new entry -----

  /** The entries under r give way to one for the whole of r. */
  function Overwritten<T>(ns: seq<Node<T>>, r: Region, v: T): seq<Node<T>> {
    Restricted(ns, Between(0, r.start)) + [Node(r, v)] + Restricted(ns, Region(r.End(), EndOf(ns)))
  }

  lemma OverwrittenOrdered<T>(ns: seq<Node<T>>, r: Region, v: T)
    requires Ordered(ns) && r.length > 0
    ensures Ordered(Overwritten(ns, r, v))
  {
    var before, middle, after := Restricted(ns, Between(0, r.start)), [Node(r, v)], Restricted(ns, Region(r.End(), EndOf(ns)));
    RestrictedOrdered(ns, Between(0, r.start));
    RestrictedOrdered(ns, Region(r.End(), EndOf(ns)));
    AllBeforeEnd(ns);
    RestrictedWithin(ns, Between(0, r.start), EndOf(ns));
    RestrictedWithin(ns, Region(r.End(), EndOf(ns)), EndOf(ns));
    AppendOrdered(before, middle);
    AppendOrdered(before + middle, after);
  }

  lemma OverwrittenMeaning<T>(ns: seq<Node<T>>, r: Region, v: T, p: nat)
    requires Ordered(ns)
    ensures At(Overwritten(ns, r, v), p) == if r.Contains(p) then Some(v) else At(ns, p)
  {
    var before, middle, after := Restricted(ns, Between(0, r.start)), [Node(r, v)], Restricted(ns, Region(r.End(), EndOf(ns)));
    RestrictedMeaning(ns, Between(0, r.start), p);
    RestrictedMeaning(ns, Region(r.End(), EndOf(ns)), p);
    AtAppend(before, middle, p);
    AtAppend(before + middle, after, p);
    if EndOf(ns) <= p {
      BeyondTheEnd(ns, p);
    }
  }

  /** The same for each of the regions of `over`. */
  function OverwrittenAll<T, U>(ns: seq<Node<T>>, over: seq<Node<U>>, v: T): seq<Node<T>> {
    if over == [] then ns
    else
      var m := |over| - 1;
      Overwritten(OverwrittenAll(ns, over[..m], v), over[m].region, v)
  }

  lemma {:induction false} OverwrittenAllOrdered<T, U>(ns: seq<Node<T>>, over: seq<Node<U>>, v: T)
    requires Ordered(ns) && Ordered(over)
    ensures Ordered(OverwrittenAll(ns, over, v))
  {
    if over != [] {
      var m := |over| - 1;
      Around(over, m);
      OverwrittenAllOrdered(ns, over[..m], v);
      OverwrittenOrdered(OverwrittenAll(ns, over[..m], v), over[m].region, v);
    }
  }

  /** Afterwards v is the entry at every address of `over`, and the others have kept theirs. */
  lemma {:induction false} OverwrittenAllMeaning<T, U>(ns: seq<Node<T>>, over: seq<Node<U>>, v: T, p: nat)
    requires Ordered(ns) && Ordered(over)
    ensures At(OverwrittenAll(ns, over, v), p) == if At(over, p).Some? then Some(v) else At(ns, p)
  {
    if over != [] {
      var m := |over| - 1;
      Around(over, m);
      OverwrittenAllOrdered(ns, over[..m], v);
      OverwrittenAllMeaning(ns, over[..m], v, p);
      OverwrittenMeaning(OverwrittenAll(ns, over[..m], v), over[m].region, v, p);
      AtLast(over, |over|, p);
      assert over[..|over|] == over;
    }
  }

  // ----- The last objects under a region -----

  /** The last objects, each with the region where it is the last. */
  function Links(ns: seq<Node<nat>>): seq<Link> {
    seq(|ns|, i requires 0 <= i < |ns| => Link(ns[i].content, ns[i].region))
  }

  lemma {:induction false} LinksMeaning(ns: seq<Node<nat>>, p: nat)
    requires Ordered(ns)
    ensures PreviousAt(Links(ns), p) == if At(ns, p).Some? then [At(ns, p).value] else []
  {
    if ns != [] {
      var m := |ns| - 1;
      Around(ns, m);
      LinksMeaning(ns[..m], p);
      assert Links(ns)[..m] == Links(ns[..m]);
      AtLast(ns, |ns|, p);
      assert ns[..|ns|] == ns;
    }
  }

  lemma {:induction false} PreviousAppend(a: seq<Link>, b: seq<Link>, p: nat)
    ensures PreviousAt(a + b, p) == PreviousAt(a, p) + PreviousAt(b, p)
    decreases |b|
  {
    if b == [] {
      assert a + b == a;
    } else {
      assert (a + b)[..|a + b| - 1] == a + b[..|b| - 1];
      PreviousAppend(a, b[..|b| - 1], p);
    }
  }

  /** The last objects under the regions of `over`. */
  function LinksUnder<U>(ns: seq<Node<nat>>, over: seq<Node<U>>): seq<Link> {
    if over == [] then []
    else
      var m := |over| - 1;
      LinksUnder(ns, over[..m]) + Links(Restricted(ns, over[m].region))
  }

  /** Every address of `over` where the map has an entry is in exactly one link, which is to that entry. */
  lemma {:induction false} LinksUnderMeaning<U>(ns: seq<Node<nat>>, over: seq<Node<U>>, p: nat)
    requires Ordered(ns) && Ordered(over)
    ensures PreviousAt(LinksUnder(ns, over), p) == if At(over, p).Some? && At(ns, p).Some? then [At(ns, p).value] else []
  {
    if over != [] {
      var m := |over| - 1;
      var here := Restricted(ns, over[m].region);
      Around(over, m);
      LinksUnderMeaning(ns, over[..m], p);
      RestrictedOrdered(ns, over[m].region);
      RestrictedMeaning(ns, over[m].region, p);
      LinksMeaning(here, p);
      PreviousAppend(LinksUnder(ns, over[..m]), Links(here), p);
      AtLast(over, |over|, p);
      assert over[..|over|] == over;
    }
  }

  // ----- Entries are objects that exist -----

  predicate AllBelow(ns: seq<Node<nat>>, n: nat) {
    forall i :: 0 <= i < |ns| ==> ns[i].content < n
  }

  lemma {:induction false} RestrictedBelow(ns: seq<Node<nat>>, r: Region, n: nat)
    requires AllBelow(ns, n)
    ensures AllBelow(Restricted(ns, r), n)
  {
    if ns != [] {
      RestrictedBelow(ns[..|ns| - 1], r, n);
    }
  }

  lemma {:induction false} LinksUnderExist<U>(ns: seq<Node<nat>>, over: seq<Node<U>>, n: nat)
    requires AllBelow(ns, n)
    ensures LinksExist(LinksUnder(ns, over), n)
  {
    if over != [] {
      var m := |over| - 1;
      LinksUnderExist(ns, over[..m], n);
      RestrictedBelow(ns, over[m].region, n);
    }
  }

  lemma {:induction false} OverwrittenBelow<U>(ns: seq<Node<nat>>, over: seq<Node<U>>, v: nat, n: nat)
    requires AllBelow(ns, n) && v < n
    ensures AllBelow(OverwrittenAll(ns, over, v), n)
  {
    if over != [] {
      var m := |over| - 1;
      var before, r := OverwrittenAll(ns, over[..m], v), over[m].region;
      OverwrittenBelow(ns, over[..m], v, n);
      RestrictedBelow(before, Between(0, r.start), n);
      RestrictedBelow(before, Region(r.End(), EndOf(before)), n);
    }
  }
}
