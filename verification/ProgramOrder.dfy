/** What a received bit means: every access that comes earlier in program order is out of the way. */
module ProgramOrder {
  import opened Options
  import opened DataAccesses
  import opened Satisfiability

  /** `z` is `a` or is nested in it. */
  ghost predicate Within(s: State, a: nat, z: nat) {
    || a == z
    || (z < |s.nodes| && s.nodes[z].dom.Inside? && s.nodes[z].dom.owner < z && Within(s, a, s.nodes[z].dom.owner))
  }

  predicate EarlierSibling(s: State, a: nat, x: nat) {
    a < x < |s.nodes| && s.nodes[a].dom == s.nodes[x].dom
  }

  /** `z` comes earlier than `x` in program order and is not one of the accesses `x` is nested in. */
  ghost predicate Before(s: State, z: nat, x: nat) {
    || (exists a: nat :: EarlierSibling(s, a, x) && Within(s, a, z))
    || (x < |s.nodes| && s.nodes[x].dom.Inside? && s.nodes[x].dom.owner < x && Before(s, z, s.nodes[x].dom.owner))
  }

  predicate OutOfTheWay(a: DataAccess, b: Bit) {
    a.complete || Transparent(a.ty, b)
  }

  ghost predicate Clear(s: State, x: nat, b: Bit) {
    forall z: nat :: IsAccess(s, z) && Before(s, z, x) ==> OutOfTheWay(s.nodes[z], b)
  }

  ghost predicate ClearWithin(s: State, y: nat, b: Bit) {
    forall z: nat :: IsAccess(s, z) && Within(s, y, z) ==> OutOfTheWay(s.nodes[z], b)
  }

  /** A received bit is never premature. */
  ghost predicate Truthful(s: State) {
    forall x: nat, b :: x < |s.nodes| && b in s.nodes[x].received ==> Clear(s, x, b)
  }

  // ----- The order -----

  lemma {:induction false} TransparentWithin(s: State, y: nat, z: nat, b: Bit)
    requires Shape(s) && y < |s.nodes| && z < |s.nodes| && Within(s, y, z) && Transparent(s.nodes[y].ty, b)
    ensures Transparent(s.nodes[z].ty, b)
    decreases z
  {
    if y != z {
      assert Placed(s, z);
      TransparentWithin(s, y, s.nodes[z].dom.owner, b);
    }
  }

  lemma {:induction false} NothingWithinLeaf(s: State, y: nat, z: nat)
    requires Shape(s) && y < |s.nodes| && z < |s.nodes| && Within(s, y, z) && s.nodes[y].fragment.None?
    ensures y == z
    decreases z
  {
    if y != z {
      assert Placed(s, z);
      NothingWithinLeaf(s, y, s.nodes[z].dom.owner);
    }
  }

  lemma {:induction false} ChildTowards(s: State, q: nat, z: nat) returns (c: nat)
    requires z < |s.nodes| && Within(s, q, z) && q != z
    ensures q < c <= z && s.nodes[c].dom == Inside(q) && Within(s, c, z)
    decreases z
  {
    if s.nodes[z].dom.owner == q {
      c := z;
    } else {
      c := ChildTowards(s, q, s.nodes[z].dom.owner);
    }
  }

  lemma {:induction false} WithinTransitive(s: State, a: nat, y: nat, z: nat)
    requires Within(s, a, y) && Within(s, y, z)
    ensures Within(s, a, z)
    decreases z
  {
    if y != z {
      WithinTransitive(s, a, y, s.nodes[z].dom.owner);
    }
  }

  lemma {:induction false} BeforeDescends(s: State, y: nat, z: nat, x: nat)
    requires Before(s, y, x) && Within(s, y, z)
    ensures Before(s, z, x)
    decreases x
  {
    if a: nat :| EarlierSibling(s, a, x) && Within(s, a, y) {
      WithinTransitive(s, a, y, z);
    } else {
      BeforeDescends(s, y, z, s.nodes[x].dom.owner);
    }
  }

  /** What comes before the next object of a domain: the previous one, what is nested in it, and what
      comes before it. */
  lemma BeforeSuccessor(s: State, y: nat, x: nat, z: nat)
    requires Shape(s) && y < |s.nodes| && Successor(s, y, x)
    ensures Before(s, z, x) <==> Before(s, z, y) || Within(s, y, z)
  {
    assert Placed(s, y);
    assert EarlierSibling(s, y, x);
    if a: nat :| EarlierSibling(s, a, x) && Within(s, a, z) {
      assert a == y || EarlierSibling(s, a, y);
    }
    if a: nat :| EarlierSibling(s, a, y) && Within(s, a, z) {
      assert EarlierSibling(s, a, x);
    }
  }

  /** What is nested in a completed access: the access, its last nested object, and what comes between. */
  lemma ClearOwner(s: State, y: nat, b: Bit)
    requires Shape(s) && Placed(s, y) && s.nodes[y].dom.Inside? && y == s.bottom[s.nodes[y].dom]
    requires s.nodes[s.nodes[y].dom.owner].complete
    requires Clear(s, y, b) && ClearWithin(s, y, b)
    ensures Clear(s, s.nodes[y].dom.owner, b) && ClearWithin(s, s.nodes[y].dom.owner, b)
  {
    var q := s.nodes[y].dom.owner;
    assert Placed(s, y);
    forall z: nat | IsAccess(s, z) && Within(s, q, z) ensures OutOfTheWay(s.nodes[z], b) {
      if z != q {
        var c := ChildTowards(s, q, z);
        assert Placed(s, c);
        assert c == y || EarlierSibling(s, c, y);
      }
    }
  }

  lemma {:induction false} ClearTarget(s: State, y: nat, x: nat, b: Bit)
    requires Shape(s) && NextIs(s, y, x) && Clear(s, y, b) && ClearWithin(s, y, b)
    ensures Clear(s, x, b)
    decreases y
  {
    assert Placed(s, y);
    if y == s.bottom[s.nodes[y].dom] {
      ClearOwner(s, y, b);
      ClearTarget(s, s.nodes[y].dom.owner, x, b);
    } else {
      forall z: nat | IsAccess(s, z) && Before(s, z, x) ensures OutOfTheWay(s.nodes[z], b) {
        BeforeSuccessor(s, y, x, z);
      }
    }
  }

  lemma SenderIsClear(s: State, y: nat, b: Bit)
    requires Shape(s) && y < |s.nodes| && Clear(s, y, b) && PropagatesToNext(s.nodes[y], b)
    ensures ClearWithin(s, y, b)
  {
    assert Placed(s, y);
    forall z: nat | IsAccess(s, z) && Within(s, y, z) ensures OutOfTheWay(s.nodes[z], b) {
      if s.nodes[y].fragment.Some? {
        TransparentWithin(s, y, z, b);
      } else {
        NothingWithinLeaf(s, y, z);
      }
    }
  }

  lemma FragmentClear(s: State, q: nat, f: nat, z: nat)
    requires Shape(s) && q < |s.nodes| && s.nodes[q].fragment == Some(f)
    ensures f < |s.nodes| && (Before(s, z, f) <==> Before(s, z, q))
  {
    assert Placed(s, q) && Placed(s, f);
    forall a: nat ensures !EarlierSibling(s, a, f) {
      if a < |s.nodes| { assert Placed(s, a); }
    }
  }

  lemma FedIsClear(s: State, x: nat, b: Bit)
    requires Shape(s) && Truthful(s) && x < |s.nodes| && Fed(s, x, b)
    ensures Clear(s, x, b)
  {
    if y: nat :| Feeds(s, y, x, b) {
      assert Placed(s, y) && Clear(s, y, b);
      if NextIs(s, y, x) && PropagatesToNext(s.nodes[y], b) {
        SenderIsClear(s, y, b);
        ClearTarget(s, y, x, b);
      } else {
        forall z: nat | IsAccess(s, z) && Before(s, z, x) ensures OutOfTheWay(s.nodes[z], b) {
          FragmentClear(s, y, x, z);
        }
      }
    }
  }

  // ----- Received bits stay truthful -----

  /** A step keeps what is there: completed stays completed, and a new access is nested in one that has
      not completed. */
  predicate Extends(s: State, s': State) {
    && |s.nodes| <= |s'.nodes| <= |s.nodes| + 1
    && (forall i :: 0 <= i < |s.nodes| ==>
          && s'.nodes[i].dom == s.nodes[i].dom && s'.nodes[i].ty == s.nodes[i].ty && s'.nodes[i].kind == s.nodes[i].kind
          && (s.nodes[i].complete ==> s'.nodes[i].complete))
    && (|s'.nodes| > |s.nodes| && s'.nodes[|s.nodes|].dom.Inside? ==>
          s'.nodes[|s.nodes|].dom.owner < |s.nodes| && !s.nodes[s'.nodes[|s.nodes|].dom.owner].complete)
  }

  lemma {:induction false} WithinKept(s: State, s': State, a: nat, z: nat)
    requires Extends(s, s') && z < |s.nodes|
    ensures Within(s', a, z) <==> Within(s, a, z)
    decreases z
  {
    if s.nodes[z].dom.Inside? && s.nodes[z].dom.owner < z {
      WithinKept(s, s', a, s.nodes[z].dom.owner);
    }
  }

  lemma {:induction false} BeforeKept(s: State, s': State, z: nat, x: nat)
    requires Extends(s, s') && z < |s.nodes| && x < |s.nodes|
    ensures Before(s', z, x) <==> Before(s, z, x)
    decreases x
  {
    if s.nodes[x].dom.Inside? && s.nodes[x].dom.owner < x {
      BeforeKept(s, s', z, s.nodes[x].dom.owner);
    }
    forall a: nat ensures EarlierSibling(s', a, x) && Within(s', a, z) <==> EarlierSibling(s, a, x) && Within(s, a, z) {
      WithinKept(s, s', a, z);
    }
  }

  lemma {:induction false} NewcomerFollowsOwner(s: State, s': State, x: nat)
    requires Extends(s, s') && |s'.nodes| > |s.nodes| && x < |s.nodes| && Before(s', |s.nodes|, x)
    ensures s'.nodes[|s.nodes|].dom.Inside? && Before(s', s'.nodes[|s.nodes|].dom.owner, x)
    decreases x
  {
    if a: nat :| EarlierSibling(s', a, x) && Within(s', a, |s.nodes|) {
      assert a != |s.nodes|;
    } else {
      NewcomerFollowsOwner(s, s', s'.nodes[x].dom.owner);
    }
  }

  lemma ClearKept(s: State, s': State, x: nat, b: Bit)
    requires Extends(s, s') && Shape(s') && x < |s.nodes| && Clear(s, x, b)
    ensures Clear(s', x, b)
  {
    forall z: nat | IsAccess(s', z) && Before(s', z, x) ensures OutOfTheWay(s'.nodes[z], b) {
      if z < |s.nodes| {
        BeforeKept(s, s', z, x);
        assert IsAccess(s, z) && OutOfTheWay(s.nodes[z], b);
      } else {
        NewcomerFollowsOwner(s, s', x);
        assert Placed(s', z);
        var p := s'.nodes[z].dom.owner;
        BeforeKept(s, s', p, x);
        assert IsAccess(s, p) && OutOfTheWay(s.nodes[p], b);
      }
    }
  }

  ghost predicate Invariant(s: State) {
    Shape(s) && Accounted(s) && Truthful(s)
  }

  lemma ShapeOfStep(s: State, a: Action)
    requires Shape(s) && Accounted(s) && Enabled(s, a)
    ensures Shape(Step(s, a)) && Accounted(Step(s, a))
  {
    match a
    case OpenDomain(q) => ShapeOfOpenDomain(s, q); AccountedOpenDomain(s, q);
    case Register(d, ty, weak) => ShapeOfRegister(s, d, ty, weak); AccountedRegister(s, d, ty, weak);
    case Deliver(k) =>
      AccountedDeliver(s, k);
      var t := s.ops[k].target;
      var s1 := s.(ops := s.ops[..k] + s.ops[k + 1..]);
      OperationsDoNotMatter(s, s1.ops);
      assert Placed(s, t);
      ShapeOfUpdate(s1, t, s.nodes[t].(received := s.nodes[t].received + s.ops[k].bits));
    case Complete(x) =>
      assert Placed(s, x);
      ShapeOfUpdate(s, x, s.nodes[x].(complete := true));
      AccountedUpdate(s, x, s.nodes[x].(complete := true));
    case LinkBottom(q) =>
      var y := s.bottom[Inside(q)];
      assert Placed(s, q) && Placed(s, y);
      ShapeOfLinkBottom(s, q);
      AccountedUpdate(s, y, s.nodes[y].(next := s.nodes[q].next, inhibited := TransparentBits(s.nodes[q].ty)));
  }

  lemma StepExtends(s: State, a: Action)
    requires Enabled(s, a)
    ensures Extends(s, Step(s, a))
  {
  }

  /** Every step keeps the invariant. */
  lemma StepKeepsInvariant(s: State, a: Action)
    requires Invariant(s) && Enabled(s, a)
    ensures Invariant(Step(s, a))
  {
    var s' := Step(s, a);
    ShapeOfStep(s, a);
    StepExtends(s, a);
    forall x: nat, b | x < |s'.nodes| && b in s'.nodes[x].received ensures Clear(s', x, b) {
      if x < |s.nodes| {
        if b !in s.nodes[x].received {
          assert Conserved(s, x, b);
          CountWithout(s.ops, a.k, x, b);
          FedIsClear(s, x, b);
        }
        ClearKept(s, s', x, b);
      } else if s'.nodes[x].kind.FragmentObject? {
        assert Clear(s, a.owner, b);
        ClearKept(s, s', a.owner, b);
        forall z: nat | IsAccess(s', z) && Before(s', z, x) ensures OutOfTheWay(s'.nodes[z], b) {
          FragmentClear(s', a.owner, x, z);
        }
      } else {
        assert Born(s', x) by { assert Conserved(s', x, b); BornIfReceived(s, a, x, b); }
      }
    }
  }

  lemma BornIfReceived(s: State, a: Action, x: nat, b: Bit)
    requires Invariant(s) && Enabled(s, a) && x == |s.nodes| && x < |Step(s, a).nodes|
    requires IsAccess(Step(s, a), x) && b in Step(s, a).nodes[x].received
    ensures Born(Step(s, a), x)
  {
    forall i: nat | i < x ensures s.nodes[i].dom != a.dom { assert Placed(s, i); }
  }
}
