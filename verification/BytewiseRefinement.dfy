/** From regions to bytes: a system of accesses over regions, seen from any one address, makes the steps of the one-byte
    protocol. Different addresses have different histories, so each has its own numbering of the objects. */
module BytewiseRefinement {
  import opened Options
  import opened DataAccesses
  import opened Regions
  import opened RegionMaps
  import opened RegionPropagation
  import Byte = Satisfiability

  /** The accesses of a task are one object, and so are the initial fragments made for it at one time: a map from regions to
      the status there. The bottom map of a task, which is known by the number of its accesses, tells the last object nested
      in it. Links and the targets of queued updates are the numbers of objects. */
  datatype World = World(objects: seq<seq<Node<DataAccess>>>, queue: seq<RegionUpdate>, bottoms: map<nat, seq<Node<nat>>>)

  /** The number that an object of the world has at one address. */
  type Numbering = nat -> nat

  function RenameLink(rho: Numbering, link: Option<nat>): Option<nat> {
    if link.Some? then Some(rho(link.value)) else None
  }

  function RenameDomain(rho: Numbering, d: Domain): Domain {
    if d.Inside? then Inside(rho(d.owner)) else d
  }

  function Rename(rho: Numbering, a: DataAccess): DataAccess {
    a.(dom := RenameDomain(rho, a.dom), fragment := RenameLink(rho, a.fragment), next := RenameLink(rho, a.next))
  }

  function RenameAll(rho: Numbering, ops: seq<UpdateOperation>): (r: seq<UpdateOperation>)
    ensures |r| == |ops|
  {
    seq(|ops|, i requires 0 <= i < |ops| => UpdateOperation(rho(ops[i].target), ops[i].bits))
  }

  lemma RenameAppend(rho: Numbering, p: seq<UpdateOperation>, q: seq<UpdateOperation>)
    ensures RenameAll(rho, p + q) == RenameAll(rho, p) + RenameAll(rho, q)
  {
  }

  /** The updates that a change of status gives rise to do not depend on the numbering. */
  lemma StatusChangesRenamed(rho: Numbering, a: DataAccess, a': DataAccess)
    ensures HandleStatusChanges(Rename(rho, a), Rename(rho, a')) == RenameAll(rho, HandleStatusChanges(a, a'))
  {
    var b, b' := Rename(rho, a), Rename(rho, a');
    assert ToNext(b) == ToNext(a) && ToNext(b') == ToNext(a');
    assert ToFragment(b) == ToFragment(a) && ToFragment(b') == ToFragment(a');
    var toNext := ToNext(a') - ToNext(a);
    var toFragment := ToFragment(a') - ToFragment(a);
    var p := if a'.next.Some? && toNext != {} then [UpdateOperation(a'.next.value, toNext)] else [];
    var q := if a'.fragment.Some? && toFragment != {} then [UpdateOperation(a'.fragment.value, toFragment)] else [];
    RenameAppend(rho, p, q);
  }

  // ----- What one address shows of a world -----

  predicate Present(w: World, x: nat, p: nat) {
    x < |w.objects| && At(w.objects[x], p).Some?
  }

  function Content(w: World, x: nat, p: nat): DataAccess
    requires Present(w, x, p)
  {
    At(w.objects[x], p).value
  }

  predicate ShowsObject(w: World, p: nat, rho: Numbering, s: Byte.State, x: nat) {
    Present(w, x, p) ==> rho(x) < |s.nodes| && s.nodes[rho(x)] == Rename(rho, Content(w, x, p))
  }

  predicate Apart(w: World, p: nat, rho: Numbering, x: nat, y: nat) {
    Present(w, x, p) && Present(w, y, p) && x != y ==> rho(x) != rho(y)
  }

  predicate AllOrdered(w: World) {
    forall x :: 0 <= x < |w.objects| ==> Ordered(w.objects[x])
  }

  /** At address p, under its numbering, the world is the state s of the one-byte protocol. */
  ghost predicate Shows(w: World, p: nat, rho: Numbering, s: Byte.State) {
    && AllOrdered(w)
    && (forall x: nat :: ShowsObject(w, p, rho, s, x))
    && (forall x: nat, y: nat :: Apart(w, p, rho, x, y))
    && s.ops == RenameAll(rho, QueuedAt(w.queue, p))
  }

  // ----- Changing the status of an object over a region -----

  /** Object x is changed where it lies in r, and what it lets through is queued, as TaskDataAccesses.ApplyToRegion does. */
  function Changed(w: World, x: nat, r: Region, change: Change): World
    requires x < |w.objects|
  {
    var ns := w.objects[x];
    w.(objects := w.objects[x := UpdatedAll(ns, |ns|, r, change)], queue := w.queue + SentAll(ns, |ns|, r, change))
  }

  lemma UpdatedOrdered(n: Node<DataAccess>, r: Region, change: Change)
    requires n.region.length > 0
    ensures Ordered(Updated(n, r, change)) && AllWithin(Updated(n, r, change), n.region.start, n.region.End())
    ensures Updated(n, r, change) != []
  {
    var u, c := Updated(n, r, change), Cut(n, r);
    CutOrdered(n, r);
    assert |u| == |c| && forall i :: 0 <= i < |u| ==> u[i].region == c[i].region;
    forall i | 0 <= i < |u| ensures InOrder(u, i) {
      assert InOrder(c, i);
    }
  }

  lemma {:induction false} UpdatedAllOrdered(ns: seq<Node<DataAccess>>, k: nat, r: Region, change: Change)
    requires Ordered(ns) && k <= |ns|
    ensures Ordered(UpdatedAll(ns, k, r, change))
    ensures AllWithin(UpdatedAll(ns, k, r, change), 0, if k == 0 then 0 else ns[k - 1].region.End())
  {
    if k > 0 {
      assert InOrder(ns, k - 1) && (k > 1 ==> InOrder(ns, k - 2));
      UpdatedAllOrdered(ns, k - 1, r, change);
      UpdatedOrdered(ns[k - 1], r, change);
      AppendOrdered(UpdatedAll(ns, k - 1, r, change), Updated(ns[k - 1], r, change));
    }
  }

  lemma PresentKept(w: World, x: nat, r: Region, change: Change, y: nat, p: nat)
    requires x < |w.objects| && Ordered(w.objects[x])
    ensures Present(Changed(w, x, r, change), y, p) <==> Present(w, y, p)
    ensures Present(w, y, p) ==>
              Content(Changed(w, x, r, change), y, p) == if x == y && r.Contains(p) then change(Content(w, y, p)) else Content(w, y, p)
  {
    RegionChangeIsBytewise(w.objects[x], r, change, p);
  }

  /** What is queued for p by the change. */
  lemma QueuedByChange(w: World, x: nat, r: Region, change: Change, p: nat, rho: Numbering)
    requires x < |w.objects| && Ordered(w.objects[x])
    ensures RenameAll(rho, QueuedAt(Changed(w, x, r, change).queue, p))
         == RenameAll(rho, QueuedAt(w.queue, p))
            + if Present(w, x, p) && r.Contains(p)
              then HandleStatusChanges(Rename(rho, Content(w, x, p)), Rename(rho, change(Content(w, x, p)))) else []
  {
    var ns := w.objects[x];
    RegionChangeIsBytewise(ns, r, change, p);
    QueuedAppend(w.queue, SentAll(ns, |ns|, r, change), p);
    RenameAppend(rho, QueuedAt(w.queue, p), QueuedAt(SentAll(ns, |ns|, r, change), p));
    if Present(w, x, p) && r.Contains(p) {
      StatusChangesRenamed(rho, Content(w, x, p), change(Content(w, x, p)));
    }
  }

  lemma OrderKept(w: World, x: nat, r: Region, change: Change)
    requires x < |w.objects| && AllOrdered(w)
    ensures AllOrdered(Changed(w, x, r, change))
  {
    UpdatedAllOrdered(w.objects[x], |w.objects[x]|, r, change);
  }

  /** Where the object lies in the region, the change is one update of the one-byte protocol; elsewhere nothing happens. */
  lemma ChangeRefinesUpdate(w: World, x: nat, r: Region, change: Change, p: nat, rho: Numbering, s: Byte.State)
    requires Shows(w, p, rho, s) && x < |w.objects|
    ensures Present(w, x, p) && r.Contains(p) ==>
              rho(x) < |s.nodes| && Shows(Changed(w, x, r, change), p, rho, Byte.Update(s, rho(x), Rename(rho, change(Content(w, x, p)))))
    ensures !(Present(w, x, p) && r.Contains(p)) ==> Shows(Changed(w, x, r, change), p, rho, s)
  {
    var w' := Changed(w, x, r, change);
    assert ShowsObject(w, p, rho, s, x);
    var concerned := Present(w, x, p) && r.Contains(p);
    var s' := if concerned then Byte.Update(s, rho(x), Rename(rho, change(Content(w, x, p)))) else s;
    OrderKept(w, x, r, change);
    QueuedByChange(w, x, r, change, p, rho);
    forall y: nat ensures ShowsObject(w', p, rho, s', y) {
      PresentKept(w, x, r, change, y, p);
      assert ShowsObject(w, p, rho, s, y) && Apart(w, p, rho, x, y);
    }
    forall y: nat, z: nat ensures Apart(w', p, rho, y, z) {
      PresentKept(w, x, r, change, y, p);
      PresentKept(w, x, r, change, z, p);
      assert Apart(w, p, rho, y, z);
    }
  }

  // ----- Changing several objects, each over its own region -----

  /** The object to change, and where. */
  datatype Link = Link(previous: nat, region: Region)

  predicate LinksExist(links: seq<Link>, n: nat) {
    forall i :: 0 <= i < |links| ==> links[i].previous < n
  }

  /** The objects to change at p. */
  function PreviousAt(links: seq<Link>, p: nat): seq<nat> {
    if links == [] then []
    else
      var m := |links| - 1;
      PreviousAt(links[..m], p) + if links[m].region.Contains(p) then [links[m].previous] else []
  }

  function ChangedAll(w: World, links: seq<Link>, change: Change): (w': World)
    requires LinksExist(links, |w.objects|)
    ensures |w'.objects| == |w.objects|
  {
    if links == [] then w
    else
      var m := |links| - 1;
      Changed(ChangedAll(w, links[..m], change), links[m].previous, links[m].region, change)
  }

  lemma {:induction false} ContentOfOthers(w: World, links: seq<Link>, change: Change, y: nat, p: nat)
    requires LinksExist(links, |w.objects|) && AllOrdered(w) && y !in PreviousAt(links, p)
    ensures AllOrdered(ChangedAll(w, links, change))
    ensures Present(ChangedAll(w, links, change), y, p) <==> Present(w, y, p)
    ensures Present(w, y, p) ==> Content(ChangedAll(w, links, change), y, p) == Content(w, y, p)
  {
    if links != [] {
      var m := |links| - 1;
      var before := ChangedAll(w, links[..m], change);
      ContentOfOthers(w, links[..m], change, y, p);
      OrderKept(before, links[m].previous, links[m].region, change);
      PresentKept(before, links[m].previous, links[m].region, change, y, p);
    }
  }

  /** An address that no link concerns sees nothing. */
  lemma {:induction false} ChangesElsewhere(w: World, links: seq<Link>, change: Change, p: nat, rho: Numbering, s: Byte.State)
    requires Shows(w, p, rho, s) && LinksExist(links, |w.objects|) && PreviousAt(links, p) == []
    ensures Shows(ChangedAll(w, links, change), p, rho, s)
  {
    if links != [] {
      var m := |links| - 1;
      ChangesElsewhere(w, links[..m], change, p, rho, s);
      ChangeRefinesUpdate(ChangedAll(w, links[..m], change), links[m].previous, links[m].region, change, p, rho, s);
    }
  }

  lemma OneConcerned(links: seq<Link>, x: nat, p: nat)
    requires PreviousAt(links, p) == [x]
    ensures var m := |links| - 1;
            && m >= 0
            && if links[m].region.Contains(p) then links[m].previous == x && PreviousAt(links[..m], p) == [] else PreviousAt(links[..m], p) == [x]
  {
    var m := |links| - 1;
    var before := PreviousAt(links[..m], p);
    if links[m].region.Contains(p) {
      assert (before + [links[m].previous])[|before|] == links[m].previous;
    }
  }

  /** One that one of the links concerns sees one update of the one-byte protocol. */
  lemma {:induction false} ChangesRefineUpdate(w: World, links: seq<Link>, change: Change, x: nat, p: nat, rho: Numbering, s: Byte.State)
    requires Shows(w, p, rho, s) && LinksExist(links, |w.objects|) && PreviousAt(links, p) == [x] && Present(w, x, p)
    ensures rho(x) < |s.nodes|
    ensures Shows(ChangedAll(w, links, change), p, rho, Byte.Update(s, rho(x), Rename(rho, change(Content(w, x, p))))) == true
  {
    var m := |links| - 1;
    var last, before := links[m], ChangedAll(w, links[..m], change);
    OneConcerned(links, x, p);
    if last.region.Contains(p) {
      ContentOfOthers(w, links[..m], change, x, p);
      ChangesElsewhere(w, links[..m], change, p, rho, s);
      ChangeRefinesUpdate(before, x, last.region, change, p, rho, s);
    } else {
      ChangesRefineUpdate(w, links[..m], change, x, p, rho, s);
      ChangeRefinesUpdate(before, last.previous, last.region, change, p, rho, Byte.Update(s, rho(x), Rename(rho, change(Content(w, x, p)))));
    }
  }

  // ----- The five actions -----

  /** Delivers the k-th queued update to its target. */
  function Delivered(w: World, k: nat): World
    requires k < |w.queue| && w.queue[k].target < |w.objects|
  {
    var op := w.queue[k];
    Changed(w.(queue := w.queue[..k] + w.queue[k + 1..]), op.target, op.region, Receiving(op.bits))
  }

  /** The position of the k-th queued update among those for p. */
  function PositionAt(w: World, k: nat, p: nat): nat
    requires k <= |w.queue|
  {
    |QueuedAt(w.queue[..k], p)|
  }

  lemma QueueWithout(w: World, k: nat, p: nat)
    requires k < |w.queue|
    ensures var q, i, op := QueuedAt(w.queue, p), PositionAt(w, k, p), w.queue[k];
            var rest := QueuedAt(w.queue[..k] + w.queue[k + 1..], p);
            if op.region.Contains(p)
            then i < |q| && q[i] == UpdateOperation(op.target, op.bits) && rest == q[..i] + q[i + 1..]
            else rest == q
  {
    var before, op, after := w.queue[..k], w.queue[k], w.queue[k + 1..];
    assert w.queue == before + [op] + after;
    QueuedAppend(before + [op], after, p);
    QueuedAppend(before, [op], p);
    QueuedAppend(before, after, p);
    assert [op][..0] == [];
  }

  /** Delivering an update of a region is, at every address of it, a delivery of the one-byte protocol. */
  lemma DeliveryRefines(w: World, k: nat, p: nat, rho: Numbering, s: Byte.State)
    requires Shows(w, p, rho, s) && k < |w.queue| && w.queue[k].target < |w.objects|
    requires w.queue[k].region.Contains(p) ==> Present(w, w.queue[k].target, p)
    ensures var i := PositionAt(w, k, p);
            if w.queue[k].region.Contains(p)
            then Byte.Possible(s, Byte.Deliver(i)) && Shows(Delivered(w, k), p, rho, Byte.Step(s, Byte.Deliver(i)))
            else Shows(Delivered(w, k), p, rho, s)
  {
    var op, i := w.queue[k], PositionAt(w, k, p);
    var rest := w.queue[..k] + w.queue[k + 1..];
    QueueWithout(w, k, p);
    var s1 := if op.region.Contains(p) then s.(ops := s.ops[..i] + s.ops[i + 1..]) else s;
    assert s1.ops == RenameAll(rho, QueuedAt(rest, p));
    RequeuedShows(w, rest, p, rho, s, s1);
    assert ShowsObject(w, p, rho, s, op.target);
    ChangeRefinesUpdate(w.(queue := rest), op.target, op.region, Receiving(op.bits), p, rho, s1);
  }

  lemma RequeuedShows(w: World, queue: seq<RegionUpdate>, p: nat, rho: Numbering, s: Byte.State, s': Byte.State)
    requires Shows(w, p, rho, s) && s'.nodes == s.nodes && s'.ops == RenameAll(rho, QueuedAt(queue, p))
    ensures Shows(w.(queue := queue), p, rho, s')
  {
    var w' := w.(queue := queue);
    forall x: nat ensures ShowsObject(w', p, rho, s', x) {
      assert ShowsObject(w, p, rho, s, x);
    }
    forall x: nat, y: nat ensures Apart(w', p, rho, x, y) {
      assert Apart(w, p, rho, x, y);
    }
  }

  /** So is completing an access over a region. */
  lemma CompletionRefines(w: World, x: nat, r: Region, p: nat, rho: Numbering, s: Byte.State)
    requires Shows(w, p, rho, s) && x < |w.objects|
    requires Present(w, x, p) && r.Contains(p) ==> Byte.Possible(s, Byte.Complete(rho(x)))
    ensures var w' := Changed(w, x, r, Completing());
            if Present(w, x, p) && r.Contains(p) then Shows(w', p, rho, Byte.Step(s, Byte.Complete(rho(x)))) else Shows(w', p, rho, s)
  {
    assert ShowsObject(w, p, rho, s, x);
    ChangeRefinesUpdate(w, x, r, Completing(), p, rho, s);
  }

  /** Linking the last objects nested in `owner`, each over its part of a region where the owner has one type and one link. */
  lemma BottomLinkRefines(w: World, owner: nat, links: seq<Link>, next: nat, ty: AccessType, p: nat, rho: Numbering, s: Byte.State, last: nat)
    requires Shows(w, p, rho, s) && LinksExist(links, |w.objects|)
    requires PreviousAt(links, p) == [] || PreviousAt(links, p) == [last]
    requires PreviousAt(links, p) == [last] ==>
               && Present(w, last, p) && Present(w, owner, p) && Content(w, owner, p).next == Some(next) && Content(w, owner, p).ty == ty
               && Byte.Possible(s, Byte.LinkBottom(rho(owner))) && s.bottom[Inside(rho(owner))] == rho(last)
    ensures var w' := ChangedAll(w, links, Linking(next, TransparentBits(ty)));
            if PreviousAt(links, p) == [] then Shows(w', p, rho, s) else Shows(w', p, rho, Byte.Step(s, Byte.LinkBottom(rho(owner))))
  {
    assert ShowsObject(w, p, rho, s, last) && ShowsObject(w, p, rho, s, owner);
    if PreviousAt(links, p) == [] {
      ChangesElsewhere(w, links, Linking(next, TransparentBits(ty)), p, rho, s);
    } else {
      ChangesRefineUpdate(w, links, Linking(next, TransparentBits(ty)), last, p, rho, s);
    }
  }

  // ----- New objects -----

  /** Links only go to objects that exist. */
  predicate WellLinked(a: DataAccess, n: nat) {
    && (a.dom.Inside? ==> a.dom.owner < n)
    && (a.fragment.Some? ==> a.fragment.value < n)
    && (a.next.Some? ==> a.next.value < n)
  }

  ghost predicate Closed(w: World, p: nat) {
    && (forall x: nat :: Present(w, x, p) ==> WellLinked(Content(w, x, p), |w.objects|))
    && (forall i :: 0 <= i < |QueuedAt(w.queue, p)| ==> QueuedAt(w.queue, p)[i].target < |w.objects|)
  }

  /** A numbering that also knows a new object, which at p is the next to be created. */
  ghost predicate Extends(rho: Numbering, wider: Numbering, n: nat, s: Byte.State) {
    (forall x: nat :: x < n ==> wider(x) == rho(x)) && wider(n) == |s.nodes|
  }

  function Created(w: World, arrival: seq<Node<DataAccess>>): World {
    w.(objects := w.objects + [arrival])
  }

  /** A state in which `arrival` can be created. */
  ghost predicate Ready(w: World, arrival: seq<Node<DataAccess>>, p: nat, rho: Numbering, wider: Numbering, s: Byte.State) {
    Shows(w, p, rho, s) && Closed(w, p) && Ordered(arrival) && Extends(rho, wider, |w.objects|, s)
  }

  lemma RenameSame(rho: Numbering, wider: Numbering, n: nat, s: Byte.State, a: DataAccess)
    requires Extends(rho, wider, n, s) && WellLinked(a, n)
    ensures Rename(wider, a) == Rename(rho, a)
  {
  }

  /** Where the new object is present, the one-byte protocol creates one; elsewhere it does nothing. */
  lemma CreationRefines(w: World, arrival: seq<Node<DataAccess>>, p: nat, rho: Numbering, wider: Numbering, s: Byte.State, d: Domain)
    requires Ready(w, arrival, p, rho, wider, s)
    requires At(arrival, p).Some? ==> WellLinked(At(arrival, p).value, |w.objects|)
    ensures At(arrival, p).Some? ==> Shows(Created(w, arrival), p, wider, Byte.Append(s, d, Rename(rho, At(arrival, p).value)))
    ensures At(arrival, p).None? ==> Shows(Created(w, arrival), p, wider, s)
  {
    var w', n := Created(w, arrival), |w.objects|;
    var s' := if At(arrival, p).Some? then Byte.Append(s, d, Rename(rho, At(arrival, p).value)) else s;
    forall x: nat ensures ShowsObject(w', p, wider, s', x) {
      assert ShowsObject(w, p, rho, s, x);
      if x < n {
        assert w'.objects[x] == w.objects[x];
        if Present(w, x, p) {
          RenameSame(rho, wider, n, s, Content(w, x, p));
        }
      } else if Present(w', x, p) {
        RenameSame(rho, wider, n, s, At(arrival, p).value);
      }
    }
    forall x: nat, y: nat ensures Apart(w', p, wider, x, y) {
      assert Apart(w, p, rho, x, y) && ShowsObject(w, p, rho, s, x) && ShowsObject(w, p, rho, s, y);
      assert x < n ==> w'.objects[x] == w.objects[x];
      assert y < n ==> w'.objects[y] == w.objects[y];
    }
    assert RenameAll(wider, QueuedAt(w.queue, p)) == RenameAll(rho, QueuedAt(w.queue, p));
  }

  /** At p, `previous` is the last object of domain d, and nothing that it lets through is inhibited. */
  predicate LastInDomain(w: World, previous: nat, d: Domain, p: nat, rho: Numbering, s: Byte.State) {
    && Present(w, previous, p) && Content(w, previous, p).inhibited == {}
    && (d.Inside? ==> d.owner < |w.objects|)
    && RenameDomain(rho, d) in s.bottom && s.bottom[RenameDomain(rho, d)] == rho(previous)
  }

  /** The new object is created, and its predecessors, which may be different ones on different parts of it, are linked to it. */
  function Registered(w: World, arrival: seq<Node<DataAccess>>, links: seq<Link>): World
    requires LinksExist(links, |w.objects|)
  {
    ChangedAll(Created(w, arrival), links, Linking(|w.objects|, {}))
  }

  /** At an address that one of the links concerns, this is a registration after the object that is last there. */
  lemma RegistrationRefines(w: World, previous: nat, arrival: seq<Node<DataAccess>>, links: seq<Link>, d: Domain, ty: AccessType, weak: bool,
                            p: nat, rho: Numbering, wider: Numbering, s: Byte.State)
    requires Ready(w, arrival, p, rho, wider, s) && LinksExist(links, |w.objects|)
    requires PreviousAt(links, p) == [previous] && At(arrival, p) == Some(Byte.NewAccess(d, ty, weak, {}))
    requires LastInDomain(w, previous, d, p, rho, s) && Byte.Possible(s, Byte.Register(RenameDomain(rho, d), ty, weak))
    ensures Shows(Registered(w, arrival, links), p, wider, Byte.Step(s, Byte.Register(RenameDomain(rho, d), ty, weak)))
  {
    var w1, dp, n := Created(w, arrival), RenameDomain(rho, d), |w.objects|;
    assert ShowsObject(w, p, rho, s, previous);
    CreationRefines(w, arrival, p, rho, wider, s, dp);
    var s1 := Byte.Append(s, dp, Byte.NewAccess(dp, ty, weak, {}));
    assert Rename(rho, Byte.NewAccess(d, ty, weak, {})) == Byte.NewAccess(dp, ty, weak, {});
    assert w1.objects[previous] == w.objects[previous];
    ChangesRefineUpdate(w1, links, Linking(n, {}), previous, p, wider, s1);
    RenameSame(rho, wider, n, s, Content(w, previous, p));
  }

  /** At one where the domain is still empty, the new access is created satisfied. */
  lemma FirstRegistrationRefines(w: World, arrival: seq<Node<DataAccess>>, links: seq<Link>, d: Domain, ty: AccessType, weak: bool,
                                 p: nat, rho: Numbering, wider: Numbering, s: Byte.State)
    requires Ready(w, arrival, p, rho, wider, s) && LinksExist(links, |w.objects|)
    requires PreviousAt(links, p) == [] && At(arrival, p) == Some(Byte.NewAccess(d, ty, weak, ALL_BITS))
    requires d.Outside? && d !in s.bottom
    ensures Shows(Registered(w, arrival, links), p, wider, Byte.Step(s, Byte.Register(d, ty, weak)))
  {
    CreationRefines(w, arrival, p, rho, wider, s, d);
    ChangesElsewhere(Created(w, arrival), links, Linking(|w.objects|, {}), p, wider, Byte.Step(s, Byte.Register(d, ty, weak)));
  }

  /** At the other addresses, nothing is seen of it. */
  lemma ElsewhereNothing(w: World, arrival: seq<Node<DataAccess>>, links: seq<Link>, p: nat, rho: Numbering, wider: Numbering, s: Byte.State)
    requires Ready(w, arrival, p, rho, wider, s) && LinksExist(links, |w.objects|)
    requires PreviousAt(links, p) == [] && At(arrival, p).None?
    ensures Shows(Registered(w, arrival, links), p, wider, s)
  {
    CreationRefines(w, arrival, p, rho, wider, s, Outside(0));
    ChangesElsewhere(Created(w, arrival), links, Linking(|w.objects|, {}), p, wider, s);
  }

  function Opening(fragment: nat): Change {
    (a: DataAccess) => a.(fragment := Some(fragment))
  }

  /** The owner gets its initial fragment over a region, with its status; nothing is queued for that. */
  function Opened(w: World, owner: nat, r: Region, arrival: seq<Node<DataAccess>>): World
    requires owner < |w.objects|
  {
    Changed(Created(w, arrival), owner, r, Opening(|w.objects|)).(queue := w.queue)
  }

  lemma OpeningRefines(w: World, owner: nat, arrival: seq<Node<DataAccess>>, r: Region, p: nat, rho: Numbering, wider: Numbering, s: Byte.State)
    requires Ready(w, arrival, p, rho, wider, s)
    requires Present(w, owner, p) && r.Contains(p) && At(arrival, p) == Some(Byte.NewFragment(owner, Content(w, owner, p)))
    requires Byte.Possible(s, Byte.OpenDomain(rho(owner)))
    ensures Shows(Opened(w, owner, r, arrival), p, wider, Byte.Step(s, Byte.OpenDomain(rho(owner))))
  {
    var w1, n, q := Created(w, arrival), |w.objects|, rho(owner);
    var a := Content(w, owner, p);
    assert ShowsObject(w, p, rho, s, owner);
    CreationRefines(w, arrival, p, rho, wider, s, Inside(q));
    assert Rename(rho, Byte.NewFragment(owner, a)) == Byte.NewFragment(q, s.nodes[q]);
    var s1 := Byte.Append(s, Inside(q), Byte.NewFragment(q, s.nodes[q]));
    assert w1.objects[owner] == w.objects[owner];
    RenameSame(rho, wider, n, s, a);
    OpenedNodes(s, q);
    OpenedShows(w1, owner, r, p, wider, s1, n, w.queue, Byte.Step(s, Byte.OpenDomain(q)));
  }

  /** The other addresses see nothing of it. */
  lemma OpeningElsewhere(w: World, owner: nat, arrival: seq<Node<DataAccess>>, r: Region, p: nat, rho: Numbering, wider: Numbering, s: Byte.State)
    requires Ready(w, arrival, p, rho, wider, s) && owner < |w.objects|
    requires !(Present(w, owner, p) && r.Contains(p)) && At(arrival, p).None?
    ensures Shows(Opened(w, owner, r, arrival), p, wider, s)
  {
    var w1 := Created(w, arrival);
    CreationRefines(w, arrival, p, rho, wider, s, Outside(0));
    assert w1.objects[owner] == w.objects[owner];
    ChangeRefinesUpdate(w1, owner, r, Opening(|w.objects|), p, wider, s);
    RequeuedShows(Changed(w1, owner, r, Opening(|w.objects|)), w.queue, p, wider, s, s);
  }

  /** Opening a domain is creating the fragment and linking its owner to it. */
  lemma OpenedNodes(s: Byte.State, q: nat)
    requires Byte.Possible(s, Byte.OpenDomain(q))
    ensures var s1, s2 := Byte.Append(s, Inside(q), Byte.NewFragment(q, s.nodes[q])), Byte.Step(s, Byte.OpenDomain(q));
            s2.nodes == s1.nodes[q := s.nodes[q].(fragment := Some(|s.nodes|))] && s2.ops == s.ops
  {
  }

  lemma OpenedShows(w: World, owner: nat, r: Region, p: nat, rho: Numbering, s: Byte.State, n: nat, queue: seq<RegionUpdate>, s': Byte.State)
    requires Shows(w, p, rho, s) && Present(w, owner, p) && r.Contains(p) && rho(owner) < |s.nodes|
    requires s'.nodes == s.nodes[rho(owner) := Rename(rho, Opening(n)(Content(w, owner, p)))]
    requires s'.ops == RenameAll(rho, QueuedAt(queue, p))
    ensures Shows(Changed(w, owner, r, Opening(n)).(queue := queue), p, rho, s')
  {
    ChangeRefinesUpdate(w, owner, r, Opening(n), p, rho, s);
    var s2 := Byte.Update(s, rho(owner), Rename(rho, Opening(n)(Content(w, owner, p))));
    RequeuedShows(Changed(w, owner, r, Opening(n)), queue, p, rho, s2, s');
  }

  // ----- Addresses with different histories -----

  function Satisfying(next: Option<nat>, complete: bool): DataAccess {
    DataAccess(AccessObject, Outside(0), Write, false, ALL_BITS, complete, {}, None, next)
  }

  /** A task has written byte 1 and ended; a second one writes bytes 0 and 1, and a third one waits for it. */
  function TwoBytes(): World {
    World([[Node(Region(1, 1), Satisfying(Some(1), true))],
           [Node(Region(0, 2), Satisfying(Some(2), false))],
           [Node(Region(0, 2), Byte.NewAccess(Outside(0), Write, false, {}))]], [], map[])
  }

  function FirstByte(): Byte.State {
    Byte.State([Satisfying(Some(1), false), Byte.NewAccess(Outside(0), Write, false, {})], map[Outside(0) := 1], [])
  }

  function SecondByte(): Byte.State {
    Byte.State([Satisfying(Some(1), true), Satisfying(Some(2), false), Byte.NewAccess(Outside(0), Write, false, {})], map[Outside(0) := 2], [])
  }

  /** One access, undivided, has one link, and yet its successor is object 1 of the first byte and object 2 of the second. */
  lemma DifferentHistories(first: Numbering, second: Numbering)
    requires first(1) == 0 && first(2) == 1 && second(0) == 0 && second(1) == 1 && second(2) == 2
    ensures Shows(TwoBytes(), 0, first, FirstByte()) && Shows(TwoBytes(), 1, second, SecondByte())
  {
    var w := TwoBytes();
    forall x: nat ensures ShowsObject(w, 0, first, FirstByte(), x) && ShowsObject(w, 1, second, SecondByte(), x) {
      if x < 3 {
        AtSingle(w.objects[x], 0);
        AtSingle(w.objects[x], 1);
      }
    }
    forall x: nat, y: nat ensures Apart(w, 0, first, x, y) && Apart(w, 1, second, x, y) {
      if x < 3 && y < 3 {
        AtSingle(w.objects[x], 0);
        AtSingle(w.objects[y], 0);
      }
    }
    forall x | 0 <= x < 3 ensures Ordered(w.objects[x]) {
      assert InOrder(w.objects[x], 0);
    }
  }

  lemma AtSingle(ns: seq<Node<DataAccess>>, p: nat)
    requires |ns| == 1
    ensures At(ns, p) == if ns[0].region.Contains(p) then Some(ns[0].content) else None
  {
    assert ns[1..] == [];
  }
}
