/** The promises of the satisfiability protocol, over every run. */
module Dependencies {
  import opened Options
  import opened DataAccesses
  import opened Satisfiability
  import opened ProgramOrder

  // ----- Runs -----

  predicate Legal(s: State, run: seq<Action>)
    decreases |run|
  {
    run == [] || (Enabled(s, run[0]) && Legal(Step(s, run[0]), run[1..]))
  }

  function After(s: State, run: seq<Action>): State
    requires Legal(s, run)
    decreases |run|
  {
    if run == [] then s else After(Step(s, run[0]), run[1..])
  }

  lemma {:induction false} RunsKeepInvariant(s: State, run: seq<Action>)
    requires Invariant(s) && Legal(s, run)
    ensures Invariant(After(s, run))
    decreases |run|
  {
    if run != [] {
      StepKeepsInvariant(s, run[0]);
      RunsKeepInvariant(Step(s, run[0]), run[1..]);
    }
  }

  lemma ReachableInvariant(run: seq<Action>)
    requires Legal(INITIAL, run)
    ensures Invariant(After(INITIAL, run))
  {
    assert Invariant(INITIAL);
    RunsKeepInvariant(INITIAL, run);
  }

  // ----- Mutual exclusion -----

  /** The domain, not covered by any access, in which `x` is ultimately nested. */
  function Root(s: State, x: nat): Domain
    requires x < |s.nodes|
  {
    var d := s.nodes[x].dom;
    if d.Inside? && d.owner < x then Root(s, d.owner) else d
  }

  lemma {:induction false} DepthWithin(s: State, q: nat, x: nat)
    requires Shape(s) && x < |s.nodes| && Within(s, q, x) && q != x
    ensures Depth(s, q) < Depth(s, x)
    ensures Depth(s, x) == Depth(s, q) + 1 ==> s.nodes[x].dom == Inside(q)
    decreases x
  {
    if s.nodes[x].dom.owner != q {
      DepthWithin(s, q, s.nodes[x].dom.owner);
    }
  }

  /** Two accesses under one root of which none is nested in the other are ordered. */
  lemma {:induction false} UnrelatedAreOrdered(s: State, z: nat, x: nat)
    requires Shape(s) && z < |s.nodes| && x < |s.nodes| && Root(s, z) == Root(s, x)
    requires !Within(s, z, x) && !Within(s, x, z)
    ensures Before(s, z, x) || Before(s, x, z)
    decreases z + x, Depth(s, z) < Depth(s, x)
  {
    assert Placed(s, z) && Placed(s, x);
    if s.nodes[z].dom == s.nodes[x].dom {
      assert EarlierSibling(s, z, x) || EarlierSibling(s, x, z);
    } else if Depth(s, z) >= Depth(s, x) {
      var q := s.nodes[z].dom.owner;
      if Within(s, q, x) {
        DepthWithin(s, q, x);
      }
      UnrelatedAreOrdered(s, q, x);
      if Before(s, q, x) { BeforeDescends(s, q, z, x); }
    } else {
      UnrelatedAreOrdered(s, x, z);
    }
  }

  predicate Running(s: State, x: nat) {
    IsAccess(s, x) && Satisfied(s.nodes[x]) && !s.nodes[x].complete
  }

  predicate MayShare(a: AccessType, b: AccessType) {
    a == b && (a == Read || a == Concurrent)
  }

  lemma EarlierRunningShares(s: State, z: nat, x: nat)
    requires Invariant(s) && Running(s, z) && Running(s, x) && Before(s, z, x)
    ensures MayShare(s.nodes[z].ty, s.nodes[x].ty)
  {
    var b := match s.nodes[x].ty case Read => ReadBit case Concurrent => ConcurrentBit case _ => WriteBit;
    assert Clear(s, x, b);
  }

  /** Two accesses under one root that are both satisfied and not complete are nested one in the other, or can share. */
  ghost predicate Excluded(s: State, z: nat, x: nat)
    requires Running(s, z) && Running(s, x)
  {
    Root(s, z) == Root(s, x) ==> Within(s, z, x) || Within(s, x, z) || MayShare(s.nodes[z].ty, s.nodes[x].ty)
  }

  lemma InvariantExcludes(s: State, z: nat, x: nat)
    requires Invariant(s) && Running(s, z) && Running(s, x)
    ensures Excluded(s, z, x)
  {
    if Root(s, z) == Root(s, x) && !Within(s, z, x) && !Within(s, x, z) {
      UnrelatedAreOrdered(s, z, x);
      if Before(s, z, x) {
        EarlierRunningShares(s, z, x);
      } else {
        EarlierRunningShares(s, x, z);
      }
    }
  }

  /** In every run, two accesses under one root that are both satisfied and not complete are nested one in
      the other, or both read, or both are concurrent. */
  lemma MutualExclusion(run: seq<Action>, z: nat, x: nat)
    requires Legal(INITIAL, run)
    requires Running(After(INITIAL, run), z) && Running(After(INITIAL, run), x)
    requires Root(After(INITIAL, run), z) == Root(After(INITIAL, run), x)
    ensures var s := After(INITIAL, run);
            Within(s, z, x) || Within(s, x, z) || MayShare(s.nodes[z].ty, s.nodes[x].ty)
  {
    ReachableInvariant(run);
    InvariantExcludes(After(INITIAL, run), z, x);
  }

  // ----- One-shot setters -----

  /** Update k carries no bit that its target has already, or that another update carries. */
  predicate SentOnce(s: State, k: nat)
    requires k < |s.ops|
  {
    var x := s.ops[k].target;
    x < |s.nodes| && forall b | b in s.ops[k].bits :: b !in s.nodes[x].received && Count(s.ops, x, b) == 1
  }

  lemma InvariantSendsOnce(s: State, k: nat)
    requires Invariant(s) && k < |s.ops|
    ensures SentOnce(s, k)
  {
    var x := s.ops[k].target;
    forall b | b in s.ops[k].bits ensures b !in s.nodes[x].received && Count(s.ops, x, b) == 1 {
      assert Conserved(s, x, b);
      CountWithout(s.ops, k, x, b);
    }
  }

  /** In every run, no update carries a bit that its target has already, or that another update carries. */
  lemma BitsArriveOnce(run: seq<Action>, k: nat)
    requires Legal(INITIAL, run) && k < |After(INITIAL, run).ops|
    ensures SentOnce(After(INITIAL, run), k)
  {
    ReachableInvariant(run);
    InvariantSendsOnce(After(INITIAL, run), k);
  }

  /** In every run, the bottom object that is about to be linked and inhibited is not inhibited yet. */
  lemma InhibitedOnce(run: seq<Action>, q: nat)
    requires Legal(INITIAL, run) && Enabled(After(INITIAL, run), LinkBottom(q))
    ensures var s := After(INITIAL, run); s.nodes[s.bottom[Inside(q)]].inhibited == {}
  {
    ReachableInvariant(run);
    assert Placed(After(INITIAL, run), After(INITIAL, run).bottom[Inside(q)]);
  }

  // ----- Exactness once propagation has settled -----

  ghost predicate NoLinkPending(s: State) {
    forall q: nat :: !Enabled(s, LinkBottom(q))
  }

  ghost predicate Settled(s: State) {
    s.ops == [] && NoLinkPending(s)
  }

  lemma ReceivedIfFed(s: State, x: nat, b: Bit)
    requires Invariant(s) && s.ops == [] && x < |s.nodes| && Fed(s, x, b)
    ensures b in s.nodes[x].received
  {
    assert Conserved(s, x, b);
  }

  lemma {:induction false} Predecessor(s: State, x: nat, a: nat) returns (y: nat)
    requires Shape(s) && EarlierSibling(s, a, x)
    ensures NextIs(s, y, x) && Successor(s, y, x) && s.nodes[y].inhibited == {}
    decreases x - a
  {
    assert Placed(s, a) && Placed(s, x);
    if s.nodes[a].next == Some(x) {
      y := a;
    } else {
      y := Predecessor(s, x, s.nodes[a].next.value);
    }
  }

  /** In a settled state, if the owner of its domain has received a bit and nothing stands in the way, so
      has `x`. */
  lemma {:induction false} ServedInDomain(s: State, x: nat, b: Bit)
    requires Invariant(s) && Settled(s) && x < |s.nodes| && Clear(s, x, b)
    requires s.nodes[x].dom.Inside? ==> s.nodes[x].dom.owner < x && b in s.nodes[s.nodes[x].dom.owner].received
    ensures b in s.nodes[x].received
    decreases if s.nodes[x].dom.Inside? then |s.nodes| - s.nodes[x].dom.owner else |s.nodes| + 1, x
  {
    assert Placed(s, x);
    if s.nodes[x].kind.FragmentObject? {
      assert Feeds(s, s.nodes[x].dom.owner, x, b);
    } else if !Born(s, x) {
      var first: nat;
      if s.nodes[x].dom.Inside? {
        assert Placed(s, s.nodes[x].dom.owner);
        first := s.nodes[s.nodes[x].dom.owner].fragment.value;
      } else {
        first :| first < x && s.nodes[first].dom == s.nodes[x].dom;
      }
      var y := Predecessor(s, x, first);
      assert Placed(s, y);
      forall z: nat | IsAccess(s, z) ensures Before(s, z, x) <==> Before(s, z, y) || Within(s, y, z) {
        BeforeSuccessor(s, y, x, z);
      }
      assert Clear(s, y, b) && ClearWithin(s, y, b);
      ServedInDomain(s, y, b);
      var w := SenderWithin(s, y, x, b);
      assert Feeds(s, w, x, b);
    }
    ReceivedIfFed(s, x, b);
  }

  /** The object, among `y` and the last objects nested in it, that has sent `b` on. */
  lemma {:induction false} SenderWithin(s: State, y: nat, x: nat, b: Bit) returns (w: nat)
    requires Invariant(s) && Settled(s) && NextIs(s, y, x)
    requires b in s.nodes[y].received && b !in s.nodes[y].inhibited && Clear(s, y, b) && ClearWithin(s, y, b)
    ensures NextIs(s, w, x) && PropagatesToNext(s.nodes[w], b)
    decreases |s.nodes| - y, |s.nodes| + 1
  {
    assert Placed(s, y);
    if PropagatesToNext(s.nodes[y], b) {
      w := y;
    } else {
      assert IsAccess(s, y) && Within(s, y, y) && s.nodes[y].complete;
      assert Placed(s, s.nodes[y].fragment.value) && BottomInDomain(s, Inside(y));
      var last := s.bottom[Inside(y)];
      assert Placed(s, last) && !Enabled(s, LinkBottom(y));
      forall z: nat | IsAccess(s, z) ensures Within(s, last, z) ==> Within(s, y, z) {
        if Within(s, last, z) { WithinTransitive(s, y, last, z); }
      }
      forall z: nat | IsAccess(s, z) && Before(s, z, last) ensures OutOfTheWay(s.nodes[z], b) {
        if a: nat :| EarlierSibling(s, a, last) && Within(s, a, z) {
          assert Placed(s, a);
          WithinTransitive(s, y, a, z);
        }
      }
      ServedInDomain(s, last, b);
      w := SenderWithin(s, last, x, b);
    }
  }

  lemma {:induction false} SettledIsClear(s: State, x: nat, b: Bit)
    requires Invariant(s) && Settled(s) && x < |s.nodes|
    ensures b in s.nodes[x].received <==> Clear(s, x, b)
    decreases x
  {
    assert Placed(s, x);
    if Clear(s, x, b) {
      if s.nodes[x].dom.Inside? {
        SettledIsClear(s, s.nodes[x].dom.owner, b);
      }
      ServedInDomain(s, x, b);
    }
  }

  /** An incomplete access that reads lets others read, a concurrent one lets others be concurrent, and both of them, but none
      that writes, let the reduction descriptor pass. Nobody lets another one write. */
  predicate Lenient(ty: AccessType, b: Bit) {
    || (b == ReadBit && ty == Read)
    || (b == ConcurrentBit && ty == Concurrent)
    || (b == ReductionInfoBit && (ty == Read || ty == Concurrent))
  }

  /** Once propagation has settled, an object has received a bit exactly if every access that comes before
      it in program order has completed or is lenient about that bit. */
  lemma SettledExactly(s: State, x: nat, b: Bit)
    requires Invariant(s) && Settled(s) && x < |s.nodes|
    ensures b in s.nodes[x].received
            <==> forall z: nat :: IsAccess(s, z) && Before(s, z, x) ==> s.nodes[z].complete || Lenient(s.nodes[z].ty, b)
  {
    SettledIsClear(s, x, b);
    assert forall ty :: Transparent(ty, b) == Lenient(ty, b);
  }

  /** The same for a run. */
  lemma SettledRunExactly(run: seq<Action>, x: nat, b: Bit)
    requires Legal(INITIAL, run) && Settled(After(INITIAL, run)) && x < |After(INITIAL, run).nodes|
    ensures var s := After(INITIAL, run);
            b in s.nodes[x].received
            <==> forall z: nat :: IsAccess(s, z) && Before(s, z, x) ==> s.nodes[z].complete || Lenient(s.nodes[z].ty, b)
  {
    ReachableInvariant(run);
    SettledExactly(After(INITIAL, run), x, b);
  }

  ghost predicate Flat(s: State, x: nat) {
    x < |s.nodes| && s.nodes[x].dom.Outside? && forall y: nat :: EarlierSibling(s, y, x) ==> s.nodes[y].fragment.None?
  }

  lemma BeforeInFlat(s: State, x: nat, b: Bit)
    requires Invariant(s) && Settled(s) && Flat(s, x)
    ensures b in s.nodes[x].received
            <==> forall y: nat :: EarlierSibling(s, y, x) ==> s.nodes[y].complete || Lenient(s.nodes[y].ty, b)
  {
    SettledExactly(s, x, b);
    forall z: nat | z < |s.nodes| ensures Before(s, z, x) <==> EarlierSibling(s, z, x) {
      if a: nat :| EarlierSibling(s, a, x) && Within(s, a, z) {
        NothingWithinLeaf(s, a, z);
      }
    }
    forall y: nat | EarlierSibling(s, y, x) ensures IsAccess(s, y) {
      assert Placed(s, y);
    }
  }

  /** In a domain without nested accesses: may write once all predecessors are complete, may read or be concurrent once each
      of them is complete or of that same type, and has the reduction descriptor once each is complete or of either type. */
  lemma FlatChainExactly(s: State, x: nat)
    requires Invariant(s) && Settled(s) && Flat(s, x)
    ensures WriteBit in s.nodes[x].received <==> forall y: nat :: EarlierSibling(s, y, x) ==> s.nodes[y].complete
    ensures ReadBit in s.nodes[x].received <==> forall y: nat :: EarlierSibling(s, y, x) ==> s.nodes[y].complete || s.nodes[y].ty == Read
    ensures ConcurrentBit in s.nodes[x].received
            <==> forall y: nat :: EarlierSibling(s, y, x) ==> s.nodes[y].complete || s.nodes[y].ty == Concurrent
    ensures ReductionInfoBit in s.nodes[x].received
            <==> forall y: nat :: EarlierSibling(s, y, x) ==> s.nodes[y].complete || s.nodes[y].ty == Read || s.nodes[y].ty == Concurrent
  {
    forall b ensures b in s.nodes[x].received
                     <==> forall y: nat :: EarlierSibling(s, y, x) ==> s.nodes[y].complete || Lenient(s.nodes[y].ty, b)
    {
      BeforeInFlat(s, x, b);
    }
    assert forall ty :: !Lenient(ty, WriteBit) && (Lenient(ty, ReadBit) <==> ty == Read) && (Lenient(ty, ConcurrentBit) <==> ty == Concurrent);
  }

  // ----- Propagation comes to an end, and never leaves everybody waiting -----

  function Lacks(a: DataAccess): nat {
    |ALL_BITS - a.received| + (if a.next.None? then 1 else 0)
  }

  /** What is left to receive and to link. */
  function Budget(nodes: seq<DataAccess>): nat {
    if nodes == [] then 0 else Lacks(nodes[0]) + Budget(nodes[1..])
  }

  lemma {:induction false} BudgetOfChange(nodes: seq<DataAccess>, i: nat, a: DataAccess)
    requires i < |nodes|
    ensures Budget(nodes[i := a]) == Budget(nodes) - Lacks(nodes[i]) + Lacks(a)
  {
    if i == 0 {
      assert nodes[0 := a][1..] == nodes[1..];
    } else {
      assert nodes[i := a][1..] == nodes[1..][i - 1 := a];
      BudgetOfChange(nodes[1..], i - 1, a);
    }
  }

  predicate Propagation(a: Action) {
    a.Deliver? || a.LinkBottom?
  }

  lemma PropagationSpendsBudget(s: State, a: Action)
    requires Invariant(s) && Enabled(s, a) && Propagation(a)
    ensures Budget(Step(s, a).nodes) < Budget(s.nodes)
  {
    if a.Deliver? {
      AccountedDeliver(s, a.k);
      var op := s.ops[a.k];
      var target := s.nodes[op.target];
      var b :| b in op.bits;
      assert ALL_BITS - (target.received + op.bits) < ALL_BITS - target.received by {
        assert b in ALL_BITS - target.received;
      }
      Smaller(ALL_BITS - (target.received + op.bits), ALL_BITS - target.received);
      BudgetOfChange(s.nodes, op.target, target.(received := target.received + op.bits));
    } else {
      var last := s.bottom[Inside(a.owner)];
      BudgetOfChange(s.nodes, last, Step(s, a).nodes[last]);
    }
  }

  lemma Smaller(p: set<Bit>, q: set<Bit>)
    requires p < q
    ensures |p| < |q|
  {
    assert q == p + (q - p);
    assert q - p != {};
  }

  /** Delivering and linking, in any order, ends after at most `Budget` steps. */
  lemma {:induction false} PropagationIsBounded(s: State, run: seq<Action>)
    requires Invariant(s) && Legal(s, run) && forall i :: 0 <= i < |run| ==> Propagation(run[i])
    ensures |run| + Budget(After(s, run).nodes) <= Budget(s.nodes)
    decreases |run|
  {
    if run != [] {
      PropagationSpendsBudget(s, run[0]);
      StepKeepsInvariant(s, run[0]);
      PropagationIsBounded(Step(s, run[0]), run[1..]);
    }
  }

  ghost predicate Pending(s: State, x: nat) {
    exists z: nat :: IsAccess(s, z) && !s.nodes[z].complete && Within(s, x, z)
  }

  ghost predicate AllCompleteBefore(s: State, x: nat) {
    forall z: nat :: IsAccess(s, z) && Before(s, z, x) ==> s.nodes[z].complete
  }

  /** The incomplete access that comes first in program order. */
  lemma {:induction false} FirstIncomplete(s: State, x: nat) returns (w: nat)
    requires Shape(s) && x < |s.nodes| && Pending(s, x)
    requires s.nodes[x].dom.Inside? ==> AllCompleteBefore(s, s.nodes[x].dom.owner)
    ensures IsAccess(s, w) && !s.nodes[w].complete && AllCompleteBefore(s, w)
    decreases if s.nodes[x].dom.Inside? then |s.nodes| - s.nodes[x].dom.owner else |s.nodes| + 1, x
  {
    assert Placed(s, x);
    if a: nat :| EarlierSibling(s, a, x) && Pending(s, a) {
      w := FirstIncomplete(s, a);
    } else {
      forall z: nat | IsAccess(s, z) && Before(s, z, x) ensures s.nodes[z].complete {
        if a: nat :| EarlierSibling(s, a, x) && Within(s, a, z) {
          assert !Pending(s, a);
        }
      }
      var z: nat :| IsAccess(s, z) && !s.nodes[z].complete && Within(s, x, z);
      if z == x {
        w := x;
      } else {
        var c := ChildTowards(s, x, z);
        w := FirstIncomplete(s, c);
      }
    }
  }

  lemma {:induction false} Outermost(s: State, z: nat) returns (x: nat)
    requires Shape(s) && z < |s.nodes|
    ensures x < |s.nodes| && s.nodes[x].dom.Outside? && Within(s, x, z)
    decreases z
  {
    assert Placed(s, z);
    if s.nodes[z].dom.Inside? {
      x := Outermost(s, s.nodes[z].dom.owner);
      WithinTransitive(s, x, s.nodes[z].dom.owner, z);
    } else {
      x := z;
    }
  }

  /** In every run, once propagation has settled and some access is not complete, some such access is
      satisfied: the accesses never wait for one another in a circle. */
  lemma NobodyWaitsForever(run: seq<Action>, z: nat) returns (w: nat)
    requires Legal(INITIAL, run) && Settled(After(INITIAL, run))
    requires IsAccess(After(INITIAL, run), z) && !After(INITIAL, run).nodes[z].complete
    ensures Running(After(INITIAL, run), w)
  {
    var s := After(INITIAL, run);
    ReachableInvariant(run);
    var x := Outermost(s, z);
    assert Pending(s, x);
    w := FirstIncomplete(s, x);
    forall b: Bit ensures b in s.nodes[w].received {
      assert Clear(s, w, b);
      SettledIsClear(s, w, b);
    }
  }
}
