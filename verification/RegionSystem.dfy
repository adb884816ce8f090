/** The dependency system over regions as a state machine: tasks register accesses over any regions, open domains over part of
    them, complete them piece by piece, and updates are delivered in any order. */
module RegionSystem {
  import opened Options
  import opened DataAccesses
  import opened Regions
  import opened RegionMaps
  import opened RegionPropagation
  import opened BytewiseRefinement
  import opened BottomMaps
  import Byte = Satisfiability

  datatype Declaration = Declaration(ty: AccessType, weak: bool)

  datatype Action =
    | Register(parent: nat, footprint: seq<Node<Declaration>>)
    | Open(owner: nat, region: Region)
    | Deliver(k: nat)
    | Complete(x: nat, region: Region)
    | LinkBottom(owner: nat, region: Region, next: nat, ty: AccessType)

  /** The main task, which has no accesses. */
  const START := World([[]], [], map[])

  function Bottom(w: World, task: nat): seq<Node<nat>> {
    if task in w.bottoms then w.bottoms[task] else []
  }

  predicate IsTask(w: World, x: nat) {
    x < |w.objects| && forall i :: 0 <= i < |w.objects[x]| ==> w.objects[x][i].content.kind.AccessObject?
  }

  // ----- A new task -----

  /** The changes of a status over the regions of a map. */
  function ChangedOver<T>(ns: seq<Node<DataAccess>>, over: seq<Node<T>>, change: Change): seq<Node<DataAccess>> {
    if over == [] then ns
    else
      var m := |over| - 1;
      var before := ChangedOver(ns, over[..m], change);
      UpdatedAll(before, |before|, over[m].region, change)
  }

  lemma {:induction false} ChangedOverMeaning<T>(ns: seq<Node<DataAccess>>, over: seq<Node<T>>, change: Change, p: nat)
    requires Ordered(ns) && Ordered(over)
    ensures Ordered(ChangedOver(ns, over, change))
    ensures At(ChangedOver(ns, over, change), p)
         == if At(over, p).Some? && At(ns, p).Some? then Some(change(At(ns, p).value)) else At(ns, p)
  {
    if over != [] {
      var m := |over| - 1;
      var before := ChangedOver(ns, over[..m], change);
      Around(over, m);
      ChangedOverMeaning(ns, over[..m], change, p);
      UpdatedAllOrdered(before, |before|, over[m].region, change);
      RegionChangeIsBytewise(before, over[m].region, change, p);
      AtLast(over, |over|, p);
      assert over[..|over|] == over;
    }
  }

  /** The accesses as they would be if neither the parent nor any sibling had accessed their addresses. */
  function Unrelated(parent: nat, footprint: seq<Node<Declaration>>): seq<Node<DataAccess>> {
    seq(|footprint|, i requires 0 <= i < |footprint| =>
      Node(footprint[i].region, Byte.NewAccess(Outside(parent), footprint[i].content.ty, footprint[i].content.weak, ALL_BITS)))
  }

  function Nesting(parent: nat): Change {
    (a: DataAccess) => a.(dom := Inside(parent))
  }

  function Preceding(): Change {
    (a: DataAccess) => a.(received := {})
  }

  /** The accesses of the new task: nested where the parent has an access, and satisfied only where nothing precedes them. */
  function Arrival(w: World, parent: nat, footprint: seq<Node<Declaration>>): seq<Node<DataAccess>>
    requires parent < |w.objects|
  {
    ChangedOver(ChangedOver(Unrelated(parent, footprint), w.objects[parent], Nesting(parent)), Bottom(w, parent), Preceding())
  }

  /** The domain in which the children of a task access p. */
  function DomainAt(w: World, task: nat, p: nat): Domain {
    if Present(w, task, p) then Inside(task) else Outside(task)
  }

  function ArrivalAt(w: World, parent: nat, d: Option<Declaration>, p: nat): Option<DataAccess> {
    if d.None? then None
    else Some(Byte.NewAccess(DomainAt(w, parent, p), d.value.ty, d.value.weak, if At(Bottom(w, parent), p).Some? then {} else ALL_BITS))
  }

  lemma {:induction false} UnrelatedMeaning(parent: nat, footprint: seq<Node<Declaration>>, p: nat)
    ensures At(Unrelated(parent, footprint), p)
         == match At(footprint, p) case None => None case Some(d) => Some(Byte.NewAccess(Outside(parent), d.ty, d.weak, ALL_BITS))
  {
    if footprint != [] {
      UnrelatedMeaning(parent, footprint[1..], p);
      assert Unrelated(parent, footprint)[1..] == Unrelated(parent, footprint[1..]);
    }
  }

  lemma ArrivalMeaning(w: World, parent: nat, footprint: seq<Node<Declaration>>, p: nat)
    requires Valid(w) && parent < |w.objects| && Ordered(footprint)
    ensures Ordered(Arrival(w, parent, footprint)) && At(Arrival(w, parent, footprint), p) == ArrivalAt(w, parent, At(footprint, p), p)
  {
    var unrelated := Unrelated(parent, footprint);
    forall i | 0 <= i < |unrelated| ensures InOrder(unrelated, i) {
      assert InOrder(footprint, i);
    }
    UnrelatedMeaning(parent, footprint, p);
    ChangedOverMeaning(unrelated, w.objects[parent], Nesting(parent), p);
    assert BottomValid(w, parent);
    ChangedOverMeaning(ChangedOver(unrelated, w.objects[parent], Nesting(parent)), Bottom(w, parent), Preceding(), p);
  }

  // ----- A new domain -----

  /** The initial fragments of the accesses of `owner`, with their status. */
  function Fragments(owner: nat, ns: seq<Node<DataAccess>>): seq<Node<DataAccess>> {
    seq(|ns|, i requires 0 <= i < |ns| => Node(ns[i].region, Byte.NewFragment(owner, ns[i].content)))
  }

  lemma {:induction false} FragmentsMeaning(owner: nat, ns: seq<Node<DataAccess>>, p: nat)
    ensures At(Fragments(owner, ns), p) == if At(ns, p).None? then None else Some(Byte.NewFragment(owner, At(ns, p).value))
  {
    if ns != [] {
      FragmentsMeaning(owner, ns[1..], p);
      assert Fragments(owner, ns)[1..] == Fragments(owner, ns[1..]);
    }
  }

  function OpenedWith(w: World, owner: nat, r: Region): seq<Node<DataAccess>>
    requires owner < |w.objects|
  {
    Fragments(owner, Restricted(w.objects[owner], r))
  }

  lemma OpenedWithMeaning(w: World, owner: nat, r: Region, p: nat)
    requires Valid(w) && owner < |w.objects|
    ensures Ordered(OpenedWith(w, owner, r))
    ensures At(OpenedWith(w, owner, r), p)
         == if Present(w, owner, p) && r.Contains(p) then Some(Byte.NewFragment(owner, Content(w, owner, p))) else None
  {
    var ns := Restricted(w.objects[owner], r);
    RestrictedOrdered(w.objects[owner], r);
    RestrictedMeaning(w.objects[owner], r, p);
    FragmentsMeaning(owner, ns, p);
    forall i | 0 <= i < |ns| ensures InOrder(Fragments(owner, ns), i) {
      assert InOrder(ns, i);
    }
  }

  // ----- The machine -----

  predicate BottomValid(w: World, task: nat) {
    Ordered(Bottom(w, task)) && AllBelow(Bottom(w, task), |w.objects|)
  }

  ghost predicate Valid(w: World) {
    AllOrdered(w) && (forall task: nat :: BottomValid(w, task)) && forall task :: task in w.bottoms ==> task < |w.objects|
  }

  /** A completed access with nested ones, the last of which takes over its link. */
  predicate Passes(a: DataAccess, next: nat, ty: AccessType) {
    a.complete && a.fragment.Some? && a.next == Some(next) && a.ty == ty
  }

  /** What the action demands at p: the accesses of a running task are nested properly, a domain is opened once, an access
      completes once, and the last object nested in a completed access is linked once. */
  predicate PossibleAt(w: World, a: Action, p: nat) {
    match a
    case Register(parent, footprint) =>
      At(footprint, p).Some? && Present(w, parent, p) ==>
        && At(Bottom(w, parent), p).Some? && !Content(w, parent, p).complete
        && Byte.ProperlyNested(Content(w, parent, p).ty, At(footprint, p).value.ty)
    case Open(owner, r) =>
      r.Contains(p) && Present(w, owner, p) ==> !Content(w, owner, p).complete && Content(w, owner, p).fragment.None?
    case Deliver(k) => true
    case Complete(x, r) => r.Contains(p) && Present(w, x, p) ==> !Content(w, x, p).complete
    case LinkBottom(owner, r, next, ty) =>
      r.Contains(p) && At(Bottom(w, owner), p).Some? ==>
        && Present(w, owner, p) && Passes(Content(w, owner, p), next, ty)
        && (Present(w, At(Bottom(w, owner), p).value, p) ==> Content(w, At(Bottom(w, owner), p).value, p).next.None?)
  }

  /** The action is about tasks, accesses and updates that there are. */
  predicate Concerns(w: World, a: Action) {
    match a
    case Register(parent, footprint) => IsTask(w, parent) && Ordered(footprint)
    case Open(owner, _) => IsTask(w, owner)
    case Deliver(k) => k < |w.queue| && w.queue[k].target < |w.objects|
    case Complete(x, _) => IsTask(w, x)
    case LinkBottom(owner, _, _, _) => IsTask(w, owner)
  }

  ghost predicate Enabled(w: World, a: Action) {
    Concerns(w, a) && forall p: nat :: PossibleAt(w, a, p)
  }

  ghost function Step(w: World, a: Action): World
    requires Valid(w) && Enabled(w, a)
  {
    match a
    case Register(parent, footprint) =>
      var n, b := |w.objects|, Bottom(w, parent);
      assert BottomValid(w, parent);
      LinksUnderExist(b, footprint, n);
      Registered(w, Arrival(w, parent, footprint), LinksUnder(b, footprint)).(bottoms := w.bottoms[parent := OverwrittenAll(b, footprint, n)])
    case Open(owner, r) =>
      var n, arrival := |w.objects|, OpenedWith(w, owner, r);
      Opened(w, owner, r, arrival).(bottoms := w.bottoms[owner := OverwrittenAll(Bottom(w, owner), arrival, n)])
    case Deliver(k) => Delivered(w, k)
    case Complete(x, r) => Changed(w, x, r, Completing())
    case LinkBottom(owner, r, next, ty) =>
      assert BottomValid(w, owner);
      RestrictedBelow(Bottom(w, owner), r, |w.objects|);
      ChangedAll(w, Links(Restricted(Bottom(w, owner), r)), Linking(next, TransparentBits(ty)))
  }

  // ----- Every step keeps the maps in order -----

  lemma {:induction false} AllOrderKept(w: World, links: seq<Link>, change: Change)
    requires LinksExist(links, |w.objects|) && AllOrdered(w)
    ensures AllOrdered(ChangedAll(w, links, change)) && ChangedAll(w, links, change).bottoms == w.bottoms
  {
    if links != [] {
      var m := |links| - 1;
      AllOrderKept(w, links[..m], change);
      OrderKept(ChangedAll(w, links[..m], change), links[m].previous, links[m].region, change);
    }
  }

  /** One more object, which is now the last one nested in `task`. */
  lemma ValidWithNew<U>(w: World, w': World, task: nat, over: seq<Node<U>>)
    requires Valid(w) && task < |w.objects| && Ordered(over)
    requires AllOrdered(w') && |w'.objects| == |w.objects| + 1
    requires w'.bottoms == w.bottoms[task := OverwrittenAll(Bottom(w, task), over, |w.objects|)]
    ensures Valid(w')
  {
    var n := |w.objects|;
    assert BottomValid(w, task);
    OverwrittenAllOrdered(Bottom(w, task), over, n);
    OverwrittenBelow(Bottom(w, task), over, n, n + 1);
    forall t: nat ensures BottomValid(w', t) {
      assert BottomValid(w, t);
    }
  }

  lemma ValidChanged(w: World, w': World)
    requires Valid(w) && AllOrdered(w') && |w'.objects| == |w.objects| && w'.bottoms == w.bottoms
    ensures Valid(w')
  {
    forall t: nat ensures BottomValid(w', t) {
      assert BottomValid(w, t);
    }
  }

  lemma RegisterKeepsValid(w: World, parent: nat, footprint: seq<Node<Declaration>>)
    requires Valid(w) && Enabled(w, Register(parent, footprint))
    ensures Valid(Step(w, Register(parent, footprint)))
  {
    var b, arrival := Bottom(w, parent), Arrival(w, parent, footprint);
    ArrivalMeaning(w, parent, footprint, 0);
    assert BottomValid(w, parent);
    LinksUnderExist(b, footprint, |w.objects|);
    AllOrderKept(Created(w, arrival), LinksUnder(b, footprint), Linking(|w.objects|, {}));
    ValidWithNew(w, Step(w, Register(parent, footprint)), parent, footprint);
  }

  lemma StepKeepsValid(w: World, a: Action)
    requires Valid(w) && Enabled(w, a)
    ensures Valid(Step(w, a))
  {
    var w' := Step(w, a);
    match a
    case Register(parent, footprint) => RegisterKeepsValid(w, parent, footprint);
    case Open(owner, r) =>
      var arrival := OpenedWith(w, owner, r);
      OpenedWithMeaning(w, owner, r, 0);
      OrderKept(Created(w, arrival), owner, r, Opening(|w.objects|));
      ValidWithNew(w, w', owner, arrival);
    case Deliver(k) =>
      var op, rest := w.queue[k], w.queue[..k] + w.queue[k + 1..];
      OrderKept(w.(queue := rest), op.target, op.region, Receiving(op.bits));
      ValidChanged(w, w');
    case Complete(x, r) =>
      OrderKept(w, x, r, Completing());
      ValidChanged(w, w');
    case LinkBottom(owner, r, next, ty) =>
      assert BottomValid(w, owner);
      RestrictedBelow(Bottom(w, owner), r, |w.objects|);
      AllOrderKept(w, Links(Restricted(Bottom(w, owner), r)), Linking(next, TransparentBits(ty)));
      ValidChanged(w, w');
  }

  ghost predicate Legal(run: seq<Action>)
    decreases |run|, 0
  {
    run == [] || (Legal(run[..|run| - 1]) && Enabled(After(run[..|run| - 1]), run[|run| - 1]))
  }

  /** The world after a run, one step at a time. */
  ghost function After(run: seq<Action>): (w: World)
    requires Legal(run)
    ensures Valid(w)
    decreases |run|, 1
  {
    if run == [] then START
    else
      var before, a := After(run[..|run| - 1]), run[|run| - 1];
      StepKeepsValid(before, a);
      Step(before, a)
  }
}
