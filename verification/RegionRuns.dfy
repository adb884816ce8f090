/** Whole runs over regions: every address sees a run of the one-byte protocol, and so has all of its guarantees. */
module RegionRuns {
  import opened Options
  import opened DataAccesses
  import opened Regions
  import opened RegionMaps
  import opened RegionPropagation
  import opened BytewiseRefinement
  import opened BottomMaps
  import opened RegionSystem
  import Byte = Satisfiability
  import Dependencies
  import DependencyEngine

  // ----- Links at an address go to objects that are present there -----

  predicate LinksPresent(w: World, a: DataAccess, p: nat) {
    && (a.dom.Inside? ==> Present(w, a.dom.owner, p))
    && (a.fragment.Some? ==> Present(w, a.fragment.value, p))
    && (a.next.Some? ==> Present(w, a.next.value, p))
  }

  predicate ObjectGrounded(w: World, p: nat, x: nat) {
    Present(w, x, p) ==> LinksPresent(w, Content(w, x, p), p) && (Content(w, x, p).dom.Inside? ==> Content(w, x, p).dom.owner < x)
  }

  predicate UpdatesGrounded(w: World, p: nat, ops: seq<UpdateOperation>) {
    forall i :: 0 <= i < |ops| ==> Present(w, ops[i].target, p)
  }

  ghost predicate Grounded(w: World, p: nat) {
    (forall x: nat :: ObjectGrounded(w, p, x)) && UpdatesGrounded(w, p, QueuedAt(w.queue, p))
  }

  ghost predicate SamePresence(w: World, w': World, p: nat) {
    forall x: nat :: Present(w', x, p) <==> Present(w, x, p)
  }

  /** A change that keeps the domain and adds only links to what is present. */
  ghost predicate Grounds(w: World, change: Change, p: nat) {
    forall a: DataAccess :: LinksPresent(w, a, p) ==> LinksPresent(w, change(a), p) && change(a).dom == a.dom
  }

  lemma GroundedIsClosed(w: World, p: nat)
    requires Grounded(w, p)
    ensures Closed(w, p)
  {
    forall x: nat | Present(w, x, p) ensures WellLinked(Content(w, x, p), |w.objects|) {
      assert ObjectGrounded(w, p, x);
    }
  }

  lemma SentGrounded(w: World, a: DataAccess, a': DataAccess, p: nat)
    requires LinksPresent(w, a', p)
    ensures UpdatesGrounded(w, p, HandleStatusChanges(a, a'))
  {
  }

  lemma GroundedChanged(w: World, x: nat, r: Region, change: Change, p: nat)
    requires x < |w.objects| && AllOrdered(w) && Grounded(w, p) && (Present(w, x, p) && r.Contains(p) ==> Grounds(w, change, p))
    ensures Grounded(Changed(w, x, r, change), p) && SamePresence(w, Changed(w, x, r, change), p)
  {
    var w', ns := Changed(w, x, r, change), w.objects[x];
    forall y: nat ensures Present(w', y, p) <==> Present(w, y, p) {
      PresentKept(w, x, r, change, y, p);
    }
    forall y: nat ensures ObjectGrounded(w', p, y) {
      PresentKept(w, x, r, change, y, p);
      assert ObjectGrounded(w, p, y);
    }
    RegionChangeIsBytewise(ns, r, change, p);
    QueuedAppend(w.queue, SentAll(ns, |ns|, r, change), p);
    if Present(w, x, p) && r.Contains(p) {
      assert ObjectGrounded(w, p, x);
      SentGrounded(w, Content(w, x, p), change(Content(w, x, p)), p);
    }
  }

  lemma {:induction false} GroundedChangedAll(w: World, links: seq<Link>, change: Change, p: nat)
    requires LinksExist(links, |w.objects|) && AllOrdered(w) && Grounded(w, p) && (PreviousAt(links, p) != [] ==> Grounds(w, change, p))
    ensures Grounded(ChangedAll(w, links, change), p) && SamePresence(w, ChangedAll(w, links, change), p)
  {
    if links != [] {
      var m := |links| - 1;
      AllOrderKept(w, links[..m], change);
      GroundedChangedAll(w, links[..m], change, p);
      var before := ChangedAll(w, links[..m], change);
      if links[m].region.Contains(p) {
        GroundsSame(w, before, change, p);
      }
      GroundedChanged(before, links[m].previous, links[m].region, change, p);
    }
  }

  lemma GroundsSame(w: World, w': World, change: Change, p: nat)
    requires Grounds(w, change, p) && SamePresence(w, w', p)
    ensures Grounds(w', change, p)
  {
    forall a: DataAccess | LinksPresent(w', a, p) ensures LinksPresent(w', change(a), p) && change(a).dom == a.dom {
      assert LinksPresent(w, a, p);
    }
  }

  lemma GroundedCreated(w: World, arrival: seq<Node<DataAccess>>, p: nat)
    requires Grounded(w, p)
    requires At(arrival, p).Some? ==> LinksPresent(w, At(arrival, p).value, p)
    ensures Grounded(Created(w, arrival), p)
    ensures forall x: nat :: Present(Created(w, arrival), x, p) <==> Present(w, x, p) || (x == |w.objects| && At(arrival, p).Some?)
  {
    var w' := Created(w, arrival);
    forall x: nat ensures Present(w', x, p) <==> Present(w, x, p) || (x == |w.objects| && At(arrival, p).Some?) {
      assert x < |w.objects| ==> w'.objects[x] == w.objects[x];
    }
    forall x: nat ensures ObjectGrounded(w', p, x) {
      assert ObjectGrounded(w, p, x);
      assert x < |w.objects| ==> w'.objects[x] == w.objects[x];
    }
  }

  // ----- The bottom maps at an address -----

  predicate BottomSeen(w: World, p: nat, rho: Numbering, s: Byte.State, task: nat) {
    task < |w.objects| ==>
      var d, last := RenameDomain(rho, DomainAt(w, task, p)), At(Bottom(w, task), p);
      if last.None? then d !in s.bottom
      else Present(w, last.value, p) && d in s.bottom && s.bottom[d] == rho(last.value)
  }

  predicate RootsExist(w: World, s: Byte.State) {
    forall d :: d in s.bottom && d.Outside? ==> d.root < |w.objects|
  }

  ghost predicate BottomsSeen(w: World, p: nat, rho: Numbering, s: Byte.State) {
    (forall task: nat :: BottomSeen(w, p, rho, s, task)) && RootsExist(w, s)
  }

  /** The address p sees the state s of the one-byte protocol, including its bottom map. */
  ghost predicate Seen(w: World, p: nat, rho: Numbering, s: Byte.State) {
    Shows(w, p, rho, s) && Grounded(w, p) && BottomsSeen(w, p, rho, s)
  }

  lemma BottomsSame(w: World, w': World, p: nat, rho: Numbering, s: Byte.State, s': Byte.State)
    requires BottomsSeen(w, p, rho, s) && SamePresence(w, w', p) && |w'.objects| == |w.objects| && w'.bottoms == w.bottoms
    requires s'.bottom == s.bottom
    ensures BottomsSeen(w', p, rho, s')
  {
    forall task: nat ensures BottomSeen(w', p, rho, s', task) {
      assert BottomSeen(w, p, rho, s, task);
    }
  }

  /** A new object, which at the addresses where it is present is the last one nested in `task`. */
  ghost predicate JoinsDomain(w: World, w': World, task: nat, p: nat) {
    var n := |w.objects|;
    && |w'.objects| == n + 1 && task < n
    && (forall x: nat :: x < n ==> (Present(w', x, p) <==> Present(w, x, p)))
    && (forall t: nat :: t != task ==> Bottom(w', t) == Bottom(w, t))
    && At(Bottom(w', task), p) == if Present(w', n, p) then Some(n) else At(Bottom(w, task), p)
  }

  lemma OwnersExist(s: Byte.State, d: Domain)
    requires Byte.Shape(s) && d in s.bottom && d.Inside?
    ensures d.owner < |s.nodes|
  {
    assert Byte.BottomInDomain(s, d) && Byte.Placed(s, s.bottom[d]);
  }

  lemma NewDomainIsEmpty(w: World, s: Byte.State)
    requires RootsExist(w, s) && Byte.Shape(s)
    ensures Inside(|s.nodes|) !in s.bottom && Outside(|w.objects|) !in s.bottom
  {
    forall d | d in s.bottom && d.Inside? ensures d.owner < |s.nodes| {
      OwnersExist(s, d);
    }
  }

  lemma BottomsWithNew(w: World, w': World, task: nat, p: nat, rho: Numbering, wider: Numbering, s: Byte.State, s': Byte.State)
    requires Valid(w) && Shows(w, p, rho, s) && BottomsSeen(w, p, rho, s) && Byte.Shape(s) && Extends(rho, wider, |w.objects|, s)
    requires JoinsDomain(w, w', task, p)
    requires s'.bottom == if Present(w', |w.objects|, p) then s.bottom[RenameDomain(rho, DomainAt(w, task, p)) := |s.nodes|] else s.bottom
    ensures BottomsSeen(w', p, wider, s')
  {
    NewDomainIsEmpty(w, s);
    forall t: nat ensures BottomSeen(w', p, wider, s', t) {
      assert BottomSeen(w, p, rho, s, t) && BottomSeen(w, p, rho, s, task) && BottomValid(w, t);
      assert Apart(w, p, rho, t, task) && ShowsObject(w, p, rho, s, t) && ShowsObject(w, p, rho, s, task);
    }
  }

  // ----- One step -----

  /** What the one-byte protocol does at p when the system over regions makes a step: the same, where p is concerned. */
  function MoveAt(w: World, a: Action, p: nat, rho: Numbering): Option<Byte.Action> {
    match a
    case Register(parent, footprint) =>
      if At(footprint, p).None? then None
      else Some(Byte.Register(RenameDomain(rho, DomainAt(w, parent, p)), At(footprint, p).value.ty, At(footprint, p).value.weak))
    case Open(owner, r) => if Present(w, owner, p) && r.Contains(p) then Some(Byte.OpenDomain(rho(owner))) else None
    case Deliver(k) => if k < |w.queue| && w.queue[k].region.Contains(p) then Some(Byte.Deliver(PositionAt(w, k, p))) else None
    case Complete(x, r) => if Present(w, x, p) && r.Contains(p) then Some(Byte.Complete(rho(x))) else None
    case LinkBottom(owner, r, _, _) =>
      if r.Contains(p) && At(Bottom(w, owner), p).Some? then Some(Byte.LinkBottom(rho(owner))) else None
  }

  /** The one-byte protocol makes a step, or none. */
  predicate Moves(s: Byte.State, move: Option<Byte.Action>, s': Byte.State) {
    if move.None? then s' == s else Byte.Enabled(s, move.value) && s' == Byte.Step(s, move.value)
  }

  lemma {:induction false} AtMember<T>(ns: seq<Node<T>>, p: nat) returns (i: nat)
    requires At(ns, p).Some?
    ensures i < |ns| && ns[i].region.Contains(p) && ns[i].content == At(ns, p).value
  {
    if ns[0].region.Contains(p) {
      i := 0;
    } else {
      i := AtMember(ns[1..], p);
      i := i + 1;
    }
  }

  lemma TaskIsAccess(w: World, x: nat, p: nat, rho: Numbering, s: Byte.State)
    requires IsTask(w, x) && Present(w, x, p) && Shows(w, p, rho, s)
    ensures Byte.IsAccess(s, rho(x)) && s.nodes[rho(x)] == Rename(rho, Content(w, x, p))
  {
    assert ShowsObject(w, p, rho, s, x);
    var i := AtMember(w.objects[x], p);
  }

  lemma CompleteIsSeen(w: World, x: nat, r: Region, p: nat, rho: Numbering, s: Byte.State)
    returns (move: Option<Byte.Action>, s': Byte.State)
    requires Valid(w) && Enabled(w, Complete(x, r)) && Seen(w, p, rho, s)
    ensures move == MoveAt(w, Complete(x, r), p, rho)
    ensures Moves(s, move, s') && Seen(Step(w, Complete(x, r)), p, rho, s') == true
  {
    assert PossibleAt(w, Complete(x, r), p);
    var w' := Step(w, Complete(x, r));
    move, s' := None, s;
    if Present(w, x, p) && r.Contains(p) {
      TaskIsAccess(w, x, p, rho, s);
      move := Some(Byte.Complete(rho(x)));
      s' := Byte.Step(s, Byte.Complete(rho(x)));
    }
    CompletionRefines(w, x, r, p, rho, s);
    GroundedChanged(w, x, r, Completing(), p);
    BottomsSame(w, w', p, rho, s, s');
  }

  lemma DeliverGrounds(w: World, k: nat, p: nat)
    requires AllOrdered(w) && Grounded(w, p) && k < |w.queue| && w.queue[k].target < |w.objects|
    ensures w.queue[k].region.Contains(p) ==> Present(w, w.queue[k].target, p)
    ensures Grounded(Delivered(w, k), p) && SamePresence(w, Delivered(w, k), p)
  {
    var op, rest := w.queue[k], w.(queue := w.queue[..k] + w.queue[k + 1..]);
    QueueWithout(w, k, p);
    RestGrounded(w, rest, p);
    GroundedChanged(rest, op.target, op.region, Receiving(op.bits), p);
  }

  lemma DeliverIsSeen(w: World, k: nat, p: nat, rho: Numbering, s: Byte.State)
    returns (move: Option<Byte.Action>, s': Byte.State)
    requires Valid(w) && Enabled(w, Deliver(k)) && Seen(w, p, rho, s)
    ensures move == MoveAt(w, Deliver(k), p, rho)
    ensures Moves(s, move, s') && Seen(Step(w, Deliver(k)), p, rho, s') == true
  {
    var a := Byte.Deliver(PositionAt(w, k, p));
    DeliverGrounds(w, k, p);
    DeliveryRefines(w, k, p, rho, s);
    if w.queue[k].region.Contains(p) {
      move, s' := Some(a), Byte.Step(s, a);
    } else {
      move, s' := None, s;
    }
    BottomsSame(w, Delivered(w, k), p, rho, s, s');
  }

  /** Fewer updates. */
  lemma RestGrounded(w: World, rest: World, p: nat)
    requires Grounded(w, p) && rest.objects == w.objects && UpdatesGrounded(w, p, QueuedAt(rest.queue, p))
    ensures Grounded(rest, p) && SamePresence(w, rest, p)
  {
    forall x: nat ensures ObjectGrounded(rest, p, x) {
      assert ObjectGrounded(w, p, x);
    }
  }

  /** What the links to the last nested objects are at p. */
  lemma LastNestedAt(w: World, owner: nat, r: Region, p: nat)
    requires Valid(w) && owner < |w.objects|
    ensures var links := Links(Restricted(Bottom(w, owner), r)); var last := At(Bottom(w, owner), p);
            && LinksExist(links, |w.objects|)
            && PreviousAt(links, p) == if r.Contains(p) && last.Some? then [last.value] else []
  {
    var b := Bottom(w, owner);
    assert BottomValid(w, owner);
    RestrictedBelow(b, r, |w.objects|);
    RestrictedOrdered(b, r);
    RestrictedMeaning(b, r, p);
    LinksMeaning(Restricted(b, r), p);
  }

  lemma LinkBottomIsPossible(w: World, owner: nat, r: Region, next: nat, ty: AccessType, p: nat, rho: Numbering, s: Byte.State)
    requires Enabled(w, LinkBottom(owner, r, next, ty)) && Seen(w, p, rho, s)
    requires r.Contains(p) && At(Bottom(w, owner), p).Some?
    ensures var last := At(Bottom(w, owner), p).value;
            && Present(w, owner, p) && Passes(Content(w, owner, p), next, ty) && Present(w, last, p) && Present(w, next, p)
            && Byte.Possible(s, Byte.LinkBottom(rho(owner))) && s.bottom[Inside(rho(owner))] == rho(last)
  {
    assert PossibleAt(w, LinkBottom(owner, r, next, ty), p) && BottomSeen(w, p, rho, s, owner);
    TaskIsAccess(w, owner, p, rho, s);
    assert ShowsObject(w, p, rho, s, At(Bottom(w, owner), p).value) && ObjectGrounded(w, p, owner);
  }

  lemma LinkBottomIsSeen(w: World, owner: nat, r: Region, next: nat, ty: AccessType, p: nat, rho: Numbering, s: Byte.State)
    returns (move: Option<Byte.Action>, s': Byte.State)
    requires Valid(w) && Enabled(w, LinkBottom(owner, r, next, ty)) && Seen(w, p, rho, s)
    ensures move == MoveAt(w, LinkBottom(owner, r, next, ty), p, rho)
    ensures Moves(s, move, s') && Seen(Step(w, LinkBottom(owner, r, next, ty)), p, rho, s') == true
  {
    var links, change, a := Links(Restricted(Bottom(w, owner), r)), Linking(next, TransparentBits(ty)), Byte.LinkBottom(rho(owner));
    var last := 0;
    LastNestedAt(w, owner, r, p);
    AllOrderKept(w, links, change);
    if PreviousAt(links, p) == [] {
      move, s' := None, s;
    } else {
      last := At(Bottom(w, owner), p).value;
      LinkBottomIsPossible(w, owner, r, next, ty, p, rho, s);
      move, s' := Some(a), Byte.Step(s, a);
    }
    BottomLinkRefines(w, owner, links, next, ty, p, rho, s, last);
    GroundedChangedAll(w, links, change, p);
    BottomsSame(w, ChangedAll(w, links, change), p, rho, s, s');
  }

  // ----- New objects -----

  function Wider(rho: Numbering, n: nat, m: nat): Numbering {
    (x: nat) => if x == n then m else rho(x)
  }

  /** What the new access meets at p. */
  lemma RegisterAt(w: World, parent: nat, footprint: seq<Node<Declaration>>, p: nat)
    requires Valid(w) && parent < |w.objects| && Ordered(footprint)
    ensures var b := Bottom(w, parent); var links := LinksUnder(b, footprint); var arrival := Arrival(w, parent, footprint);
            && LinksExist(links, |w.objects|) && Ordered(arrival)
            && At(arrival, p) == ArrivalAt(w, parent, At(footprint, p), p)
            && PreviousAt(links, p) == if At(footprint, p).Some? && At(b, p).Some? then [At(b, p).value] else []
  {
    var b := Bottom(w, parent);
    assert BottomValid(w, parent);
    ArrivalMeaning(w, parent, footprint, p);
    LinksUnderExist(b, footprint, |w.objects|);
    LinksUnderMeaning(b, footprint, p);
  }

  /** Where something precedes it, or where it is nested, the last object of the domain is still free to be linked. */
  lemma LastIsFree(w: World, parent: nat, p: nat, rho: Numbering, s: Byte.State)
    requires Seen(w, p, rho, s) && Byte.Shape(s) && parent < |w.objects| && At(Bottom(w, parent), p).Some?
    requires Present(w, parent, p) ==> !Content(w, parent, p).complete
    ensures LastInDomain(w, At(Bottom(w, parent), p).value, DomainAt(w, parent, p), p, rho, s)
  {
    var last, d := At(Bottom(w, parent), p).value, RenameDomain(rho, DomainAt(w, parent, p));
    assert BottomSeen(w, p, rho, s, parent);
    assert Byte.BottomInDomain(s, d) && Byte.Placed(s, s.bottom[d]);
    assert ShowsObject(w, p, rho, s, last) && ShowsObject(w, p, rho, s, parent);
  }

  lemma RegisterIsPossible(w: World, parent: nat, footprint: seq<Node<Declaration>>, p: nat, rho: Numbering, s: Byte.State)
    requires IsTask(w, parent) && PossibleAt(w, Register(parent, footprint), p)
    requires Seen(w, p, rho, s) && Byte.Shape(s) && At(footprint, p).Some?
    ensures var d, a := At(footprint, p).value, DomainAt(w, parent, p);
            && Byte.Enabled(s, Byte.Register(RenameDomain(rho, a), d.ty, d.weak))
            && if At(Bottom(w, parent), p).Some? then LastInDomain(w, At(Bottom(w, parent), p).value, a, p, rho, s)
               else a.Outside? && a !in s.bottom
  {
    assert BottomSeen(w, p, rho, s, parent);
    if Present(w, parent, p) {
      TaskIsAccess(w, parent, p, rho, s);
    }
    if At(Bottom(w, parent), p).Some? {
      LastIsFree(w, parent, p, rho, s);
      assert ShowsObject(w, p, rho, s, At(Bottom(w, parent), p).value);
    }
  }

  /** Where p is one of the addresses of the new task. */
  lemma RegisterShowsHere(w: World, parent: nat, footprint: seq<Node<Declaration>>, p: nat, rho: Numbering, wider: Numbering, s: Byte.State)
    requires Valid(w) && IsTask(w, parent) && Ordered(footprint) && PossibleAt(w, Register(parent, footprint), p) && At(footprint, p).Some?
    requires Seen(w, p, rho, s) && Byte.Shape(s) && Extends(rho, wider, |w.objects|, s)
    ensures LinksExist(LinksUnder(Bottom(w, parent), footprint), |w.objects|)
    ensures var a := MoveAt(w, Register(parent, footprint), p, rho).value;
            && Byte.Enabled(s, a)
            && Shows(Registered(w, Arrival(w, parent, footprint), LinksUnder(Bottom(w, parent), footprint)), p, wider, Byte.Step(s, a)) == true
  {
    var arrival, links, d, declared := Arrival(w, parent, footprint), LinksUnder(Bottom(w, parent), footprint), DomainAt(w, parent, p), At(footprint, p).value;
    RegisterAt(w, parent, footprint, p);
    GroundedIsClosed(w, p);
    RegisterIsPossible(w, parent, footprint, p, rho, s);
    if At(Bottom(w, parent), p).Some? {
      RegistrationRefines(w, At(Bottom(w, parent), p).value, arrival, links, d, declared.ty, declared.weak, p, rho, wider, s);
    } else {
      FirstRegistrationRefines(w, arrival, links, d, declared.ty, declared.weak, p, rho, wider, s);
    }
  }

  lemma RegisterShows(w: World, parent: nat, footprint: seq<Node<Declaration>>, p: nat, rho: Numbering, s: Byte.State)
    returns (wider: Numbering, move: Option<Byte.Action>, s': Byte.State)
    requires Valid(w) && IsTask(w, parent) && Ordered(footprint) && PossibleAt(w, Register(parent, footprint), p)
    requires Seen(w, p, rho, s) && Byte.Shape(s)
    ensures LinksExist(LinksUnder(Bottom(w, parent), footprint), |w.objects|)
    ensures move == MoveAt(w, Register(parent, footprint), p, rho)
    ensures Extends(rho, wider, |w.objects|, s) && Moves(s, move, s')
    ensures Shows(Registered(w, Arrival(w, parent, footprint), LinksUnder(Bottom(w, parent), footprint)), p, wider, s') == true
    ensures s'.bottom == if At(footprint, p).Some? then s.bottom[RenameDomain(rho, DomainAt(w, parent, p)) := |s.nodes|] else s.bottom
  {
    wider := Wider(rho, |w.objects|, |s.nodes|);
    move := MoveAt(w, Register(parent, footprint), p, rho);
    if At(footprint, p).Some? {
      RegisterShowsHere(w, parent, footprint, p, rho, wider, s);
      s' := Byte.Step(s, move.value);
    } else {
      s' := s;
      RegisterAt(w, parent, footprint, p);
      GroundedIsClosed(w, p);
      ElsewhereNothing(w, Arrival(w, parent, footprint), LinksUnder(Bottom(w, parent), footprint), p, rho, wider, s);
    }
  }

  lemma LinkingGrounds(w: World, next: nat, p: nat)
    requires Present(w, next, p)
    ensures Grounds(w, Linking(next, {}), p) && Grounds(w, Opening(next), p)
  {
  }

  lemma RegisteredGrounds(w: World, arrival: seq<Node<DataAccess>>, links: seq<Link>, p: nat)
    requires AllOrdered(w) && Ordered(arrival) && Grounded(w, p) && LinksExist(links, |w.objects|)
    requires At(arrival, p).Some? ==> LinksPresent(w, At(arrival, p).value, p)
    requires At(arrival, p).None? ==> PreviousAt(links, p) == []
    ensures Grounded(Registered(w, arrival, links), p) && SamePresence(Created(w, arrival), Registered(w, arrival, links), p)
  {
    var w1 := Created(w, arrival);
    GroundedCreated(w, arrival, p);
    if At(arrival, p).Some? {
      LinkingGrounds(w1, |w.objects|, p);
    }
    GroundedChangedAll(w1, links, Linking(|w.objects|, {}), p);
  }

  lemma OpenedGrounds(w: World, owner: nat, r: Region, arrival: seq<Node<DataAccess>>, p: nat)
    requires AllOrdered(w) && Ordered(arrival) && Grounded(w, p) && owner < |w.objects|
    requires At(arrival, p).Some? ==> LinksPresent(w, At(arrival, p).value, p)
    requires At(arrival, p).None? ==> !(Present(w, owner, p) && r.Contains(p))
    ensures Grounded(Opened(w, owner, r, arrival), p) && SamePresence(Created(w, arrival), Opened(w, owner, r, arrival), p)
  {
    var w1, change := Created(w, arrival), Opening(|w.objects|);
    GroundedCreated(w, arrival, p);
    if At(arrival, p).Some? {
      LinkingGrounds(w1, |w.objects|, p);
    }
    assert w1.objects[owner] == w.objects[owner];
    GroundedChanged(w1, owner, r, change, p);
    RestGrounded(Changed(w1, owner, r, change), Opened(w, owner, r, arrival), p);
  }

  /** A world with one more object, and that one in the bottom map of `task`. */
  lemma Joins<U>(w: World, w': World, task: nat, arrival: seq<Node<DataAccess>>, over: seq<Node<U>>, p: nat)
    requires Valid(w) && task < |w.objects| && Ordered(over) && (At(arrival, p).Some? <==> At(over, p).Some?)
    requires |w'.objects| == |w.objects| + 1 && SamePresence(Created(w, arrival), w', p)
    requires w'.bottoms == w.bottoms[task := OverwrittenAll(Bottom(w, task), over, |w.objects|)]
    ensures JoinsDomain(w, w', task, p) && (Present(w', |w.objects|, p) <==> At(over, p).Some?)
  {
    var w1 := Created(w, arrival);
    assert BottomValid(w, task);
    OverwrittenAllMeaning(Bottom(w, task), over, |w.objects|, p);
    forall x: nat | x < |w.objects| ensures Present(w', x, p) <==> Present(w, x, p) {
      assert w1.objects[x] == w.objects[x];
    }
  }

  lemma GroundedWithBottoms(w: World, w': World, p: nat)
    requires Grounded(w, p) && w' == w.(bottoms := w'.bottoms)
    ensures Grounded(w', p) && SamePresence(w, w', p)
  {
    RestGrounded(w, w', p);
  }

  lemma RegisterGrounds(w: World, w': World, parent: nat, footprint: seq<Node<Declaration>>, p: nat)
    requires Valid(w) && parent < |w.objects| && Ordered(footprint) && Grounded(w, p)
    requires LinksExist(LinksUnder(Bottom(w, parent), footprint), |w.objects|)
    requires w' == Registered(w, Arrival(w, parent, footprint), LinksUnder(Bottom(w, parent), footprint)).(bottoms := w'.bottoms)
    requires w'.bottoms == w.bottoms[parent := OverwrittenAll(Bottom(w, parent), footprint, |w.objects|)]
    ensures Grounded(w', p) == true && JoinsDomain(w, w', parent, p) == true
    ensures Present(w', |w.objects|, p) <==> At(footprint, p).Some?
  {
    var arrival, links := Arrival(w, parent, footprint), LinksUnder(Bottom(w, parent), footprint);
    var w1 := Registered(w, arrival, links);
    RegisterAt(w, parent, footprint, p);
    RegisteredGrounds(w, arrival, links, p);
    GroundedWithBottoms(w1, w', p);
    PresenceThrough(Created(w, arrival), w1, w', p);
    Joins(w, w', parent, arrival, footprint, p);
  }

  lemma PresenceThrough(w: World, w1: World, w2: World, p: nat)
    requires SamePresence(w, w1, p) && SamePresence(w1, w2, p)
    ensures SamePresence(w, w2, p)
  {
  }

  lemma RegisterIsSeen(w: World, parent: nat, footprint: seq<Node<Declaration>>, p: nat, rho: Numbering, s: Byte.State)
    returns (wider: Numbering, move: Option<Byte.Action>, s': Byte.State)
    requires Valid(w) && Enabled(w, Register(parent, footprint)) && Seen(w, p, rho, s) && Byte.Shape(s)
    ensures move == MoveAt(w, Register(parent, footprint), p, rho)
    ensures Moves(s, move, s') && Seen(Step(w, Register(parent, footprint)), p, wider, s') == true
  {
    var w' := Step(w, Register(parent, footprint));
    assert PossibleAt(w, Register(parent, footprint), p);
    wider, move, s' := RegisterShows(w, parent, footprint, p, rho, s);
    RegisterGrounds(w, w', parent, footprint, p);
    ShowsWithBottoms(Registered(w, Arrival(w, parent, footprint), LinksUnder(Bottom(w, parent), footprint)), w', p, wider, s');
    BottomsWithNew(w, w', parent, p, rho, wider, s, s');
  }

  /** Bottom maps are not part of what is shown. */
  lemma ShowsWithBottoms(w: World, w': World, p: nat, rho: Numbering, s: Byte.State)
    requires Shows(w, p, rho, s) && w' == w.(bottoms := w'.bottoms)
    ensures Shows(w', p, rho, s)
  {
    forall x: nat ensures ShowsObject(w', p, rho, s, x) {
      assert ShowsObject(w, p, rho, s, x);
    }
    forall x: nat, y: nat ensures Apart(w', p, rho, x, y) {
      assert Apart(w, p, rho, x, y);
    }
  }

  lemma OpenShows(w: World, owner: nat, r: Region, p: nat, rho: Numbering, s: Byte.State)
    returns (wider: Numbering, move: Option<Byte.Action>, s': Byte.State)
    requires Valid(w) && Enabled(w, Open(owner, r)) && Seen(w, p, rho, s)
    ensures move == MoveAt(w, Open(owner, r), p, rho)
    ensures Extends(rho, wider, |w.objects|, s) && Moves(s, move, s')
    ensures Shows(Opened(w, owner, r, OpenedWith(w, owner, r)), p, wider, s') == true
    ensures s'.bottom == if Present(w, owner, p) && r.Contains(p) then s.bottom[Inside(rho(owner)) := |s.nodes|] else s.bottom
  {
    var arrival := OpenedWith(w, owner, r);
    OpenedWithMeaning(w, owner, r, p);
    wider := Wider(rho, |w.objects|, |s.nodes|);
    GroundedIsClosed(w, p);
    assert PossibleAt(w, Open(owner, r), p);
    if Present(w, owner, p) && r.Contains(p) {
      var a := Byte.OpenDomain(rho(owner));
      TaskIsAccess(w, owner, p, rho, s);
      OpeningRefines(w, owner, arrival, r, p, rho, wider, s);
      move, s' := Some(a), Byte.Step(s, a);
    } else {
      move, s' := None, s;
      OpeningElsewhere(w, owner, arrival, r, p, rho, wider, s);
    }
  }

  lemma OpenGrounds(w: World, w': World, owner: nat, r: Region, p: nat)
    requires Valid(w) && owner < |w.objects| && Grounded(w, p)
    requires w' == Opened(w, owner, r, OpenedWith(w, owner, r)).(bottoms := w'.bottoms)
    requires w'.bottoms == w.bottoms[owner := OverwrittenAll(Bottom(w, owner), OpenedWith(w, owner, r), |w.objects|)]
    ensures Grounded(w', p) == true && JoinsDomain(w, w', owner, p) == true
    ensures Present(w', |w.objects|, p) <==> Present(w, owner, p) && r.Contains(p)
  {
    var arrival := OpenedWith(w, owner, r);
    OpenedWithMeaning(w, owner, r, p);
    OpenedGrounds(w, owner, r, arrival, p);
    RestGrounded(Opened(w, owner, r, arrival), w', p);
    Joins(w, w', owner, arrival, arrival, p);
  }

  lemma OpenIsSeen(w: World, owner: nat, r: Region, p: nat, rho: Numbering, s: Byte.State)
    returns (wider: Numbering, move: Option<Byte.Action>, s': Byte.State)
    requires Valid(w) && Enabled(w, Open(owner, r)) && Seen(w, p, rho, s) && Byte.Shape(s)
    ensures move == MoveAt(w, Open(owner, r), p, rho)
    ensures Moves(s, move, s') && Seen(Step(w, Open(owner, r)), p, wider, s') == true
  {
    var w' := Step(w, Open(owner, r));
    wider, move, s' := OpenShows(w, owner, r, p, rho, s);
    OpenGrounds(w, w', owner, r, p);
    ShowsWithBottoms(Opened(w, owner, r, OpenedWith(w, owner, r)), w', p, wider, s');
    BottomsWithNew(w, w', owner, p, rho, wider, s, s');
  }

  // ----- When a step is possible -----

  /** At p, the action is linked to the access of its owner there. */
  predicate Fitting(w: World, a: Action, p: nat) {
    match a
    case LinkBottom(owner, r, next, ty) =>
      r.Contains(p) && At(Bottom(w, owner), p).Some? ==>
        Present(w, owner, p) && Content(w, owner, p).next == Some(next) && Content(w, owner, p).ty == ty
    case _ => true
  }

  /** A step over regions is possible exactly if, at every address that it concerns, the step of the one-byte protocol is
      enabled. */
  lemma PossibleExactly(w: World, a: Action, p: nat, rho: Numbering, s: Byte.State)
    requires Valid(w) && Concerns(w, a) && Fitting(w, a, p) && Seen(w, p, rho, s) && Byte.Shape(s)
    ensures var move := MoveAt(w, a, p, rho); PossibleAt(w, a, p) <==> (move.Some? ==> Byte.Enabled(s, move.value))
  {
    match a
    case Register(parent, footprint) =>
      assert BottomSeen(w, p, rho, s, parent);
      if Present(w, parent, p) {
        TaskIsAccess(w, parent, p, rho, s);
      }
      if At(Bottom(w, parent), p).Some? {
        assert ShowsObject(w, p, rho, s, At(Bottom(w, parent), p).value);
      }
    case Open(owner, r) =>
      if Present(w, owner, p) {
        TaskIsAccess(w, owner, p, rho, s);
      }
    case Deliver(k) =>
      if w.queue[k].region.Contains(p) {
        DeliverGrounds(w, k, p);
        DeliveryRefines(w, k, p, rho, s);
      }
    case Complete(x, r) =>
      if Present(w, x, p) {
        TaskIsAccess(w, x, p, rho, s);
      }
    case LinkBottom(owner, r, next, ty) =>
      assert BottomSeen(w, p, rho, s, owner);
      if Present(w, owner, p) {
        TaskIsAccess(w, owner, p, rho, s);
      }
      if At(Bottom(w, owner), p).Some? {
        assert ShowsObject(w, p, rho, s, At(Bottom(w, owner), p).value);
      }
  }

  // ----- Whole runs -----

  lemma StepIsSeen(w: World, a: Action, p: nat, rho: Numbering, s: Byte.State)
    returns (wider: Numbering, move: Option<Byte.Action>, s': Byte.State)
    requires Valid(w) && Enabled(w, a) && Seen(w, p, rho, s) && Byte.Shape(s)
    ensures move == MoveAt(w, a, p, rho)
    ensures Moves(s, move, s') && Seen(Step(w, a), p, wider, s') == true
  {
    wider := rho;
    match a
    case Register(parent, footprint) => wider, move, s' := RegisterIsSeen(w, parent, footprint, p, rho, s);
    case Open(owner, r) => wider, move, s' := OpenIsSeen(w, owner, r, p, rho, s);
    case Deliver(k) => move, s' := DeliverIsSeen(w, k, p, rho, s);
    case Complete(x, r) => move, s' := CompleteIsSeen(w, x, r, p, rho, s);
    case LinkBottom(owner, r, next, ty) => move, s' := LinkBottomIsSeen(w, owner, r, next, ty, p, rho, s);
  }

  /** What p sees of one more step. */
  lemma StepContinuesRun(w: World, a: Action, p: nat, rho: Numbering, bytes: seq<Byte.Action>)
    returns (wider: Numbering, bytes': seq<Byte.Action>)
    requires Valid(w) && Enabled(w, a)
    requires Dependencies.Legal(Byte.INITIAL, bytes) && Seen(w, p, rho, Dependencies.After(Byte.INITIAL, bytes))
    ensures Dependencies.Legal(Byte.INITIAL, bytes')
    ensures Seen(Step(w, a), p, wider, Dependencies.After(Byte.INITIAL, bytes')) == true
  {
    Dependencies.ReachableInvariant(bytes);
    var move, s';
    wider, move, s' := StepIsSeen(w, a, p, rho, Dependencies.After(Byte.INITIAL, bytes));
    bytes' := bytes;
    if move.Some? {
      DependencyEngine.RunOneMore(Byte.INITIAL, bytes, move.value);
      bytes' := bytes + [move.value];
    }
  }

  /** Every run over regions is, at every address, a run of the one-byte protocol. */
  lemma {:induction false} EveryByteSeesARun(run: seq<Action>, p: nat) returns (rho: Numbering, bytes: seq<Byte.Action>)
    requires Legal(run)
    ensures Dependencies.Legal(Byte.INITIAL, bytes)
    ensures Seen(After(run), p, rho, Dependencies.After(Byte.INITIAL, bytes)) == true
    decreases |run|
  {
    if run == [] {
      rho, bytes := (x: nat) => x, [];
      assert Seen(START, p, rho, Byte.INITIAL);
    } else {
      var m := |run| - 1;
      rho, bytes := EveryByteSeesARun(run[..m], p);
      rho, bytes := StepContinuesRun(After(run[..m]), run[m], p, rho, bytes);
    }
  }
}
