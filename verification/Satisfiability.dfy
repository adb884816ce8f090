/** The satisfiability propagation protocol of the fragmented dependency system, seen from one byte, as
    a state machine: a forest of nested accesses, the bottom map of every domain, and the updates that
    are still to be delivered, in whatever order. */
module Satisfiability {
  import opened Options
  import opened DataAccesses

  /** Objects are numbered in order of creation, and a link is such a number. */
  datatype State = State(nodes: seq<DataAccess>, bottom: map<Domain, nat>, ops: seq<UpdateOperation>)

  datatype Action =
    | OpenDomain(owner: nat)
    | Register(dom: Domain, ty: AccessType, weak: bool)
    | Deliver(k: nat)
    | Complete(x: nat)
    | LinkBottom(owner: nat)

  const INITIAL := State([], map[], [])

  predicate IsAccess(s: State, x: nat) {
    x < |s.nodes| && s.nodes[x].kind.AccessObject?
  }

  /** A nested access may let through whatever its parent access lets through. */
  predicate ProperlyNested(outer: AccessType, inner: AccessType) {
    forall b: Bit :: Transparent(outer, b) ==> Transparent(inner, b)
  }

  predicate Possible(s: State, a: Action) {
    match a
    case OpenDomain(q) => IsAccess(s, q) && !s.nodes[q].complete && s.nodes[q].fragment.None?
    case Register(d, _, _) =>
      d.Inside? ==> d in s.bottom && IsAccess(s, d.owner) && !s.nodes[d.owner].complete
    case Deliver(k) => k < |s.ops| && s.ops[k].target < |s.nodes|
    case Complete(x) => IsAccess(s, x) && !s.nodes[x].complete
    case LinkBottom(q) =>
      && IsAccess(s, q) && s.nodes[q].complete && s.nodes[q].fragment.Some? && s.nodes[q].next.Some?
      && Inside(q) in s.bottom && s.bottom[Inside(q)] < |s.nodes|
      && s.nodes[s.bottom[Inside(q)]].next.None?
  }

  /** What the machine can do when the program nests its accesses properly. */
  predicate Enabled(s: State, a: Action) {
    Possible(s, a) && (a.Register? && a.dom.Inside? ==> ProperlyNested(s.nodes[a.dom.owner].ty, a.ty))
  }

  /** Replace one object and queue the updates the change gives rise to. */
  function Update(s: State, x: nat, a: DataAccess): State
    requires x < |s.nodes|
  {
    s.(nodes := s.nodes[x := a], ops := s.ops + HandleStatusChanges(s.nodes[x], a))
  }

  function NewFragment(q: nat, a: DataAccess): DataAccess {
    DataAccess(FragmentObject, Inside(q), a.ty, a.weak, a.received, a.complete, {}, None, None)
  }

  function NewAccess(d: Domain, ty: AccessType, weak: bool, received: set<Bit>): DataAccess {
    DataAccess(AccessObject, d, ty, weak, received, false, {}, None, None)
  }

  function Append(s: State, d: Domain, a: DataAccess): State {
    s.(nodes := s.nodes + [a], bottom := s.bottom[d := |s.nodes|])
  }

  function Step(s: State, a: Action): State
    requires Possible(s, a)
  {
    match a
    case OpenDomain(q) =>
      var owner := s.nodes[q];
      Append(s.(nodes := s.nodes[q := owner.(fragment := Some(|s.nodes|))]), Inside(q), NewFragment(q, owner))
    case Register(d, ty, weak) =>
      if d in s.bottom && s.bottom[d] < |s.nodes| then
        var previous := s.bottom[d];
        Update(Append(s, d, NewAccess(d, ty, weak, {})), previous, s.nodes[previous].(next := Some(|s.nodes|)))
      else
        Append(s, d, NewAccess(d, ty, weak, ALL_BITS))
    case Deliver(k) =>
      var op := s.ops[k];
      var target := s.nodes[op.target];
      Update(s.(ops := s.ops[..k] + s.ops[k + 1..]), op.target, target.(received := target.received + op.bits))
    case Complete(x) =>
      Update(s, x, s.nodes[x].(complete := true))
    case LinkBottom(q) =>
      var last := s.bottom[Inside(q)];
      Update(s, last, s.nodes[last].(next := s.nodes[q].next, inhibited := TransparentBits(s.nodes[q].ty)))
  }

  // ----- Shape of the forest -----

  /** Every object belongs to a domain that starts with the owner's initial fragment; parents come first. */
  predicate Nested(s: State, i: nat)
    requires i < |s.nodes|
  {
    var a := s.nodes[i];
    && (a.dom.Inside? ==>
          var q := a.dom.owner;
          && q < i && s.nodes[q].kind.AccessObject? && s.nodes[q].fragment.Some? && s.nodes[q].fragment.value <= i
          && (a.kind.FragmentObject? <==> s.nodes[q].fragment.value == i)
          && ProperlyNested(s.nodes[q].ty, a.ty))
    && (a.kind.FragmentObject? ==> a.fragment.None? && a.dom.Inside?)
    && (a.fragment.Some? ==>
          var f := a.fragment.value;
          i < f < |s.nodes| && s.nodes[f].kind.FragmentObject? && s.nodes[f].dom == Inside(i))
  }

  predicate Successor(s: State, y: nat, x: nat)
    requires y < |s.nodes|
  {
    && y < x < |s.nodes| && s.nodes[x].dom == s.nodes[y].dom
    && forall i {:trigger s.nodes[i].dom} :: y < i < x ==> s.nodes[i].dom != s.nodes[y].dom
  }

  /** An object that is not the last of its domain is linked to its successor there; the last one has no
      link, or the link of the completed access that owns the domain. */
  predicate Linked(s: State, y: nat)
    requires y < |s.nodes|
  {
    var a := s.nodes[y];
    && a.dom in s.bottom && y <= s.bottom[a.dom]
    && (a.next.Some? ==> IsAccess(s, a.next.value))
    && if y != s.bottom[a.dom] then
         a.next.Some? && Successor(s, y, a.next.value) && a.inhibited == {}
       else if a.next.None? then a.inhibited == {}
       else
         && a.dom.Inside? && a.dom.owner < y
         && s.nodes[a.dom.owner].complete && s.nodes[a.dom.owner].next == a.next
         && a.inhibited == TransparentBits(s.nodes[a.dom.owner].ty)
  }

  predicate Placed(s: State, i: nat) {
    i < |s.nodes| && Nested(s, i) && Linked(s, i)
  }

  predicate BottomInDomain(s: State, d: Domain)
    requires d in s.bottom
  {
    s.bottom[d] < |s.nodes| && s.nodes[s.bottom[d]].dom == d
  }

  predicate Shape(s: State) {
    && (forall i :: 0 <= i < |s.nodes| ==> Placed(s, i))
    && (forall d :: d in s.bottom ==> BottomInDomain(s, d))
  }

  lemma ShapeOfUpdate(s: State, x: nat, a: DataAccess)
    requires Shape(s) && x < |s.nodes| && Advances(s.nodes[x], a)
    requires a.next == s.nodes[x].next && a.inhibited == s.nodes[x].inhibited
    ensures Shape(Update(s, x, a))
  {
    var s' := Update(s, x, a);
    forall i | 0 <= i < |s'.nodes| ensures Placed(s', i) {
      assert Placed(s, i);
    }
    forall d | d in s'.bottom ensures BottomInDomain(s', d) {
      assert BottomInDomain(s, d);
    }
  }

  lemma ShapeOfOpenDomain(s: State, q: nat)
    requires Shape(s) && Enabled(s, OpenDomain(q))
    ensures Shape(Step(s, OpenDomain(q)))
  {
    var s' := Step(s, OpenDomain(q));
    forall i | 0 <= i < |s'.nodes| ensures Placed(s', i) {
      if i < |s.nodes| {
        assert Placed(s, i);
      } 
    }
    forall d | d in s'.bottom ensures BottomInDomain(s', d) {
      if d in s.bottom { assert BottomInDomain(s, d); }
    }
  }

  /** The objects that were there, seen from the state with one more. */
  lemma PlacedAfterRegister(s: State, d: Domain, ty: AccessType, weak: bool, i: nat)
    requires Shape(s) && Enabled(s, Register(d, ty, weak)) && i < |s.nodes|
    ensures Placed(Step(s, Register(d, ty, weak)), i)
  {
    var s' := Step(s, Register(d, ty, weak));
    assert d in s.bottom ==> BottomInDomain(s, d) && Placed(s, s.bottom[d]);
    assert Placed(s, i);
    NestedAfterRegister(s, d, ty, weak, i);
    if d in s.bottom && i == s.bottom[d] {
      LastBeforeNew(s, d);
    }
  }

  lemma NestedAfterRegister(s: State, d: Domain, ty: AccessType, weak: bool, i: nat)
    requires Shape(s) && Enabled(s, Register(d, ty, weak)) && i < |s.nodes|
    ensures Nested(Step(s, Register(d, ty, weak)), i)
  {
    assert d in s.bottom ==> BottomInDomain(s, d);
    assert Placed(s, i);
  }

  lemma LastBeforeNew(s: State, d: Domain)
    requires Shape(s) && d in s.bottom
    ensures forall j {:trigger s.nodes[j].dom} :: s.bottom[d] < j < |s.nodes| ==> s.nodes[j].dom != d
  {
    forall j | s.bottom[d] < j < |s.nodes| ensures s.nodes[j].dom != d {
      assert Placed(s, j);
    }
  }

  lemma ShapeOfRegister(s: State, d: Domain, ty: AccessType, weak: bool)
    requires Shape(s) && Enabled(s, Register(d, ty, weak))
    ensures Shape(Step(s, Register(d, ty, weak)))
  {
    var s' := Step(s, Register(d, ty, weak));
    assert d in s.bottom ==> BottomInDomain(s, d) && Placed(s, s.bottom[d]);
    assert Placed(s', |s.nodes|);
    forall i | 0 <= i < |s'.nodes| ensures Placed(s', i) {
      if i < |s.nodes| {
        PlacedAfterRegister(s, d, ty, weak, i);
      }
    }
    forall d | d in s'.bottom ensures BottomInDomain(s', d) {
      if d in s.bottom { assert BottomInDomain(s, d); }
    }
  }

  lemma ShapeOfLinkBottom(s: State, q: nat)
    requires Shape(s) && Enabled(s, LinkBottom(q))
    ensures Shape(Step(s, LinkBottom(q)))
  {
    var s' := Step(s, LinkBottom(q));
    assert Placed(s, q);
    forall i | 0 <= i < |s'.nodes| ensures Placed(s', i) {
      assert Placed(s, i);
    }
    forall d | d in s'.bottom ensures BottomInDomain(s', d) {
      assert BottomInDomain(s, d);
    }
  }

  // ----- Every bit reaches every object at most once -----

  function Depth(s: State, i: nat): nat {
    if i < |s.nodes| && s.nodes[i].dom.Inside? && s.nodes[i].dom.owner < i then 1 + Depth(s, s.nodes[i].dom.owner) else 0
  }

  predicate NextIs(s: State, y: nat, x: nat) {
    y < |s.nodes| && s.nodes[y].next == Some(x)
  }

  /** An object linked to `x` from a nested domain is nested in an access linked to `x`. */
  lemma {:induction false} SourceDepth(s: State, y: nat, x: nat)
    requires Shape(s) && NextIs(s, y, x)
    ensures x < |s.nodes| && Depth(s, y) >= Depth(s, x)
    ensures exists p :: 0 <= p < x && s.nodes[p].dom == s.nodes[x].dom
    ensures Depth(s, y) == Depth(s, x) ==> Successor(s, y, x)
    decreases y
  {
    assert Placed(s, y);
    if y == s.bottom[s.nodes[y].dom] {
      SourceDepth(s, s.nodes[y].dom.owner, x);
    }
  }

  lemma {:induction false} SourcesAtOneDepth(s: State, y: nat, z: nat, x: nat)
    requires Shape(s) && NextIs(s, y, x) && NextIs(s, z, x) && Depth(s, y) == Depth(s, z)
    ensures y == z
    decreases y
  {
    assert Placed(s, y) && Placed(s, z);
    SourceDepth(s, y, x);
    SourceDepth(s, z, x);
    if Depth(s, y) != Depth(s, x) {
      SourcesAtOneDepth(s, s.nodes[y].dom.owner, s.nodes[z].dom.owner, x);
    }
  }

  lemma {:induction false} DeeperSourceIsInhibited(s: State, y: nat, z: nat, x: nat, b: Bit)
    requires Shape(s) && NextIs(s, y, x) && NextIs(s, z, x) && Depth(s, y) < Depth(s, z)
    ensures s.nodes[y].fragment.Some?
    ensures Transparent(s.nodes[y].ty, b) ==> Transparent(s.nodes[z].ty, b) && b in s.nodes[z].inhibited
    decreases z
  {
    assert Placed(s, z);
    SourceDepth(s, y, x);
    SourceDepth(s, z, x);
    var q := s.nodes[z].dom.owner;
    if Depth(s, q) == Depth(s, y) {
      SourcesAtOneDepth(s, q, y, x);
    } else {
      DeeperSourceIsInhibited(s, y, q, x, b);
    }
  }

  predicate Feeds(s: State, y: nat, x: nat, b: Bit) {
    y < |s.nodes| && Emits(s.nodes[y], x, b)
  }

  /** Although an access can be the link of a completed access and of every last descendant of it, at most
      one of them ever sends it a given bit. */
  lemma ExclusiveSource(s: State, y: nat, z: nat, x: nat, b: Bit)
    requires Shape(s) && Feeds(s, y, x, b) && Feeds(s, z, x, b)
    ensures y == z
  {
    assert Placed(s, y) && Placed(s, z);
    if NextIs(s, y, x) && NextIs(s, z, x) {
      if Depth(s, y) < Depth(s, z) {
        DeeperSourceIsInhibited(s, y, z, x, b);
      } else if Depth(s, z) < Depth(s, y) {
        DeeperSourceIsInhibited(s, z, y, x, b);
      } else {
        SourcesAtOneDepth(s, y, z, x);
      }
    }
  }

  /** The first access of a domain that no access covers: it starts fully satisfied. */
  predicate Born(s: State, x: nat) {
    x < |s.nodes| && s.nodes[x].dom.Outside? && forall i :: 0 <= i < x ==> s.nodes[i].dom != s.nodes[x].dom
  }

  ghost predicate Fed(s: State, x: nat, b: Bit) {
    Born(s, x) || exists y: nat :: Feeds(s, y, x, b)
  }

  function Number(p: bool): nat { if p then 1 else 0 }

  /** What `x` has received of `b`, plus what is on its way, is exactly what has been sent to it. */
  ghost predicate Conserved(s: State, x: nat, b: Bit)
    requires x < |s.nodes|
  {
    Number(b in s.nodes[x].received) + Count(s.ops, x, b) == Number(Fed(s, x, b))
  }

  predicate OperationsValid(s: State) {
    forall k :: 0 <= k < |s.ops| ==> s.ops[k].target < |s.nodes| && s.ops[k].bits != {}
  }

  ghost predicate Accounted(s: State) {
    && OperationsValid(s)
    && forall x, b :: 0 <= x < |s.nodes| ==> Conserved(s, x, b)
  }

  lemma BornHasNoSource(s: State, y: nat, x: nat, b: Bit)
    requires Shape(s) && Born(s, x)
    ensures !Feeds(s, y, x, b)
  {
    if Feeds(s, y, x, b) {
      assert Placed(s, y);
      if NextIs(s, y, x) {
        SourceDepth(s, y, x);
      }
    }
  }

  lemma UpdateConserves(s: State, x: nat, a: DataAccess, t: nat, b: Bit)
    requires x < |s.nodes| && t < |s.nodes| && Advances(s.nodes[x], a) && Shape(Update(s, x, a))
    requires Number(b in s.nodes[x := a][t].received) + Count(s.ops, t, b) == Number(Fed(s, t, b))
    ensures Conserved(Update(s, x, a), t, b)
  {
    var s' := Update(s, x, a);
    HandleStatusChangesSendsTheDifference(s.nodes[x], a, t, b);
    CountAppend(s.ops, HandleStatusChanges(s.nodes[x], a), t, b);
    assert forall i :: 0 <= i < |s.nodes| ==> s'.nodes[i].dom == s.nodes[i].dom;
    assert Born(s, t) <==> Born(s', t);
    assert forall y: nat :: y != x ==> (Feeds(s, y, t, b) <==> Feeds(s', y, t, b));
    assert Feeds(s, x, t, b) ==> Feeds(s', x, t, b);
    if Feeds(s', x, t, b) && !Feeds(s, x, t, b) {
      if Born(s, t) { BornHasNoSource(s', x, t, b); }
      if y: nat :| Feeds(s, y, t, b) { ExclusiveSource(s', x, y, t, b); }
    }
  }

  lemma {:induction false} NothingOnItsWay(ops: seq<UpdateOperation>, x: nat, b: Bit)
    requires forall k :: 0 <= k < |ops| ==> ops[k].target != x
    ensures Count(ops, x, b) == 0
  {
    if ops != [] {
      NothingOnItsWay(ops[1..], x, b);
    }
  }

  lemma OperationsDoNotMatter(s: State, ops: seq<UpdateOperation>)
    requires Shape(s)
    ensures Shape(s.(ops := ops))
    ensures forall x: nat, b :: Fed(s.(ops := ops), x, b) <==> Fed(s, x, b)
  {
    var s1 := s.(ops := ops);
    forall i | 0 <= i < |s.nodes| ensures Placed(s1, i) { assert Placed(s, i); }
    forall d | d in s.bottom ensures BottomInDomain(s1, d) { assert BottomInDomain(s, d); }
    assert forall x: nat, y: nat, b :: Feeds(s1, y, x, b) <==> Feeds(s, y, x, b);
    assert forall x: nat :: Born(s1, x) <==> Born(s, x);
  }

  lemma UpdateOperationsValid(s: State, x: nat, a: DataAccess)
    requires x < |s.nodes| && OperationsValid(s) && Shape(Update(s, x, a))
    ensures OperationsValid(Update(s, x, a))
  {
    assert Placed(Update(s, x, a), x);
  }

  /** Appending an access sends nothing; it starts satisfied exactly when it opens an uncovered domain. */
  lemma AppendConserves(s: State, d: Domain, a: DataAccess, t: nat, b: Bit)
    requires Shape(s) && Accounted(s) && t <= |s.nodes|
    requires a == NewAccess(d, a.ty, a.weak, if d in s.bottom then {} else ALL_BITS)
    requires d !in s.bottom ==> d.Outside?
    ensures Conserved(Append(s, d, a), t, b)
  {
    var s1 := Append(s, d, a);
    var n := |s.nodes|;
    if t < n {
      assert Conserved(s, t, b);
      assert forall i :: 0 <= i < n ==> s1.nodes[i] == s.nodes[i];
      assert Born(s, t) <==> Born(s1, t);
      assert forall y: nat :: Feeds(s, y, t, b) <==> Feeds(s1, y, t, b);
    } else {
      NothingOnItsWay(s.ops, n, b);
      forall y: nat ensures !Feeds(s1, y, n, b) {
        if y < n { assert Placed(s, y); }
      }
      if d in s.bottom {
        assert BottomInDomain(s, d) && s1.nodes[s.bottom[d]].dom == d;
      } else {
        forall i | 0 <= i < n ensures s1.nodes[i].dom != d {
          assert Placed(s, i);
        }
        assert Born(s1, n);
      }
    }
  }

  lemma AccountedRegister(s: State, d: Domain, ty: AccessType, weak: bool)
    requires Shape(s) && Accounted(s) && Enabled(s, Register(d, ty, weak))
    ensures Accounted(Step(s, Register(d, ty, weak)))
  {
    var s' := Step(s, Register(d, ty, weak));
    ShapeOfRegister(s, d, ty, weak);
    assert d in s.bottom ==> BottomInDomain(s, d) && Placed(s, s.bottom[d]);
    var a := NewAccess(d, ty, weak, if d in s.bottom then {} else ALL_BITS);
    var s1 := Append(s, d, a);
    if d in s.bottom {
      UpdateOperationsValid(s1, s.bottom[d], s.nodes[s.bottom[d]].(next := Some(|s.nodes|)));
    }
    forall t, b | 0 <= t < |s'.nodes| ensures Conserved(s', t, b) {
      AppendConserves(s, d, a, t, b);
      if d in s.bottom {
        UpdateConserves(s1, s.bottom[d], s.nodes[s.bottom[d]].(next := Some(|s.nodes|)), t, b);
      }
    }
  }

  lemma AccountedOpenDomain(s: State, q: nat)
    requires Shape(s) && Accounted(s) && Enabled(s, OpenDomain(q))
    ensures Accounted(Step(s, OpenDomain(q)))
  {
    var s' := Step(s, OpenDomain(q));
    var n := |s.nodes|;
    forall t, b | 0 <= t < |s'.nodes| ensures Conserved(s', t, b) {
      if t < n {
        assert Conserved(s, t, b);
        assert forall i :: 0 <= i < n ==> s'.nodes[i].dom == s.nodes[i].dom;
        assert Born(s, t) <==> Born(s', t);
        assert forall y: nat :: y != q ==> (Feeds(s, y, t, b) <==> Feeds(s', y, t, b));
        assert PropagatesToNext(s.nodes[q], b) <==> PropagatesToNext(s'.nodes[q], b);
        assert Feeds(s, q, t, b) <==> Feeds(s', q, t, b);
      } else {
        NothingOnItsWay(s.ops, n, b);
        forall y: nat | y != q ensures !Feeds(s', y, n, b) {
          if y < n { assert Placed(s, y); }
        }
        assert Feeds(s', q, n, b) <==> b in s.nodes[q].received;
      }
    }
  }

  lemma AccountedDeliver(s: State, k: nat)
    requires Shape(s) && Accounted(s) && Enabled(s, Deliver(k))
    ensures s.ops[k].bits !! s.nodes[s.ops[k].target].received
    ensures Accounted(Step(s, Deliver(k)))
  {
    var s' := Step(s, Deliver(k));
    var op := s.ops[k];
    var a := s.nodes[op.target];
    var s1 := s.(ops := s.ops[..k] + s.ops[k + 1..]);
    OperationsDoNotMatter(s, s1.ops);
    assert Placed(s, op.target);
    ShapeOfUpdate(s1, op.target, a.(received := a.received + op.bits));
    UpdateOperationsValid(s1, op.target, a.(received := a.received + op.bits));
    forall b | b in op.bits ensures b !in a.received {
      assert Conserved(s, op.target, b);
      CountWithout(s.ops, k, op.target, b);
    }
    forall t, b | 0 <= t < |s'.nodes| ensures Conserved(s', t, b) {
      assert Conserved(s, t, b);
      CountWithout(s.ops, k, t, b);
      UpdateConserves(s1, op.target, a.(received := a.received + op.bits), t, b);
    }
  }

  lemma AccountedUpdate(s: State, x: nat, a: DataAccess)
    requires Shape(s) && Accounted(s) && x < |s.nodes| && Advances(s.nodes[x], a) && Shape(Update(s, x, a))
    requires a.received == s.nodes[x].received
    ensures Accounted(Update(s, x, a))
  {
    UpdateOperationsValid(s, x, a);
    forall t, b | 0 <= t < |s.nodes| ensures Conserved(Update(s, x, a), t, b) {
      assert Conserved(s, t, b);
      UpdateConserves(s, x, a, t, b);
    }
  }
}
