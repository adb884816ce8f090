/** The operations on one piece of data as they are carried out, each one to its end. */
module DependencyEngine {
  import opened Options
  import opened DataAccesses
  import opened Satisfiability
  import opened ProgramOrder
  import opened Dependencies

  ghost predicate NoLinkPendingBut(s: State, x: nat) {
    forall q: nat :: q != x ==> !Enabled(s, LinkBottom(q))
  }

  ghost predicate Propagations(run: seq<Action>) {
    forall i :: 0 <= i < |run| ==> Propagation(run[i])
  }

  lemma {:induction false} RunOneMore(s: State, run: seq<Action>, a: Action)
    requires Legal(s, run) && Enabled(After(s, run), a)
    ensures Legal(s, run + [a]) && After(s, run + [a]) == Step(After(s, run), a)
    decreases |run|
  {
    if run == [] {
      assert [] + [a] == [a] && [a][1..] == [];
    } else {
      assert (run + [a])[1..] == run[1..] + [a];
      RunOneMore(Step(s, run[0]), run[1..], a);
    }
  }

  lemma LinkingMovesCandidate(s: State, q: nat)
    requires Shape(s) && NoLinkPendingBut(s, q) && Enabled(s, LinkBottom(q))
    ensures q < s.bottom[Inside(q)] < |s.nodes|
    ensures NoLinkPendingBut(Step(s, LinkBottom(q)), s.bottom[Inside(q)])
  {
    var last := s.bottom[Inside(q)];
    var s' := Step(s, LinkBottom(q));
    assert BottomInDomain(s, Inside(q)) && Placed(s, last);
    forall r: nat | r != last ensures !Enabled(s', LinkBottom(r)) {
      if r != q && Enabled(s', LinkBottom(r)) {
        assert BottomInDomain(s, Inside(r));
        assert Enabled(s, LinkBottom(r));
      }
    }
  }

  lemma DeliveringEnablesNoLink(s: State, k: nat)
    requires NoLinkPending(s) && Enabled(s, Deliver(k))
    ensures NoLinkPending(Step(s, Deliver(k)))
  {
    forall q: nat ensures !Enabled(Step(s, Deliver(k)), LinkBottom(q)) {
      assert !Enabled(s, LinkBottom(q));
    }
  }

  lemma CompletingMakesCandidate(s: State, x: nat)
    requires NoLinkPending(s) && Enabled(s, Complete(x))
    ensures NoLinkPendingBut(Step(s, Complete(x)), x)
  {
    forall q: nat | q != x ensures !Enabled(Step(s, Complete(x)), LinkBottom(q)) {
      assert !Enabled(s, LinkBottom(q));
    }
  }

  lemma OpeningIsPossible(s: State, q: nat)
    requires Invariant(s) && NoLinkPending(s) && IsAccess(s, q) && !s.nodes[q].complete && Inside(q) !in s.bottom
    ensures Enabled(s, OpenDomain(q)) && NoLinkPending(Step(s, OpenDomain(q)))
  {
    assert Placed(s, q);
    forall f: nat | f < |s.nodes| ensures s.nodes[f].dom != Inside(q) { assert Placed(s, f); }
    forall r: nat ensures !Enabled(Step(s, OpenDomain(q)), LinkBottom(r)) {
      assert !Enabled(s, LinkBottom(r));
      if r < |s.nodes| { assert Inside(r) in s.bottom ==> BottomInDomain(s, Inside(r)); }
    }
  }

  lemma RegisteringMakesCandidate(s: State, d: Domain, ty: AccessType, weak: bool)
    requires Invariant(s) && NoLinkPending(s) && Enabled(s, Register(d, ty, weak))
    ensures NoLinkPendingBut(Step(s, Register(d, ty, weak)), if d in s.bottom then s.bottom[d] else |s.nodes|)
  {
    var x := if d in s.bottom then s.bottom[d] else |s.nodes|;
    var s' := Step(s, Register(d, ty, weak));
    assert d in s.bottom ==> BottomInDomain(s, d);
    forall q: nat | q != x ensures !Enabled(s', LinkBottom(q)) {
      assert !Enabled(s, LinkBottom(q));
      if Inside(q) in s.bottom { assert BottomInDomain(s, Inside(q)); }
    }
  }

  lemma FirstDelivery(s: State)
    requires Invariant(s) && NoLinkPending(s) && s.ops != []
    ensures s.ops[0].target < |s.nodes| && Enabled(s, Deliver(0))
    ensures var s' := Step(s, Deliver(0)); Invariant(s') && NoLinkPending(s') && Budget(s'.nodes) < Budget(s.nodes)
  {
    assert s.ops[0].target < |s.nodes|;
    PropagationSpendsBudget(s, Deliver(0));
    StepKeepsInvariant(s, Deliver(0));
    DeliveringEnablesNoLink(s, 0);
  }

  lemma RunOfOne(s: State, a: Action)
    requires Enabled(s, a)
    ensures Legal(s, [a]) && After(s, [a]) == Step(s, a)
  {
    assert [a][1..] == [];
  }

  /** The access objects that concern one piece of data, with their links, their bottom map and the queue
      of delayed operations. */
  class DependencySystem {
    var nodes: seq<DataAccess>
    var bottom: map<Domain, nat>
    var delayedOperations: seq<UpdateOperation>

    ghost function Model(): State
      reads this
    {
      State(nodes, bottom, delayedOperations)
    }

    /** Between operations nothing is on its way, so that every object has received exactly the bits that
        no earlier access withholds. */
    ghost predicate Valid()
      reads this
    {
      Invariant(Model()) && Settled(Model())
    }

    constructor ()
      ensures Valid() && nodes == []
    {
      nodes := [];
      bottom := map[];
      delayedOperations := [];
    }

    method UpdateObject(x: nat, a: DataAccess)
      requires x < |nodes|
      modifies this
      ensures Model() == Update(old(Model()), x, a)
    {
      delayedOperations := delayedOperations + HandleStatusChanges(nodes[x], a);
      nodes := nodes[x := a];
    }

    /** Links the last object nested in a completed access to the access's own link, and so on inwards. */
    method LinkBottomMapAccessesToNext(x: nat, ghost start: State, ghost before: seq<Action>) returns (ghost run: seq<Action>)
      requires Legal(start, before) && Model() == After(start, before)
      requires Invariant(Model()) && NoLinkPendingBut(Model(), x)
      modifies this
      ensures Invariant(Model()) && NoLinkPending(Model())
      ensures Propagations(run) && Legal(start, before + run) && Model() == After(start, before + run)
    {
      run := [];
      assert before + [] == before;
      var q: nat := x;
      while q < |nodes| && nodes[q].kind.AccessObject? && nodes[q].complete && nodes[q].fragment.Some? && nodes[q].next.Some?
            && Inside(q) in bottom && bottom[Inside(q)] < |nodes| && nodes[bottom[Inside(q)]].next.None?
        invariant Invariant(Model()) && NoLinkPendingBut(Model(), q)
        invariant Propagations(run) && Legal(start, before + run) && Model() == After(start, before + run)
        decreases |nodes| - q
      {
        var last := bottom[Inside(q)];
        ghost var s := Model();
        LinkingMovesCandidate(s, q);
        StepKeepsInvariant(s, LinkBottom(q));
        RunOneMore(start, before + run, LinkBottom(q));
        UpdateObject(last, nodes[last].(next := nodes[q].next, inhibited := TransparentBits(nodes[q].ty)));
        run := run + [LinkBottom(q)];
        assert before + run == before + run[..|run| - 1] + [LinkBottom(q)];
        q := last;
      }
      assert !Enabled(Model(), LinkBottom(q));
    }

    /** Applies the first delayed operation. */
    method ProcessFirstOperation()
      requires Invariant(Model()) && NoLinkPending(Model()) && delayedOperations != []
      modifies this
      ensures Enabled(old(Model()), Deliver(0)) && Model() == Step(old(Model()), Deliver(0))
      ensures Invariant(Model()) && NoLinkPending(Model())
      ensures Budget(nodes) < Budget(old(nodes))
    {
      ghost var s := Model();
      FirstDelivery(s);
      var op := delayedOperations[0];
      delayedOperations := delayedOperations[1..];
      assert delayedOperations == s.ops[..0] + s.ops[1..];
      UpdateObject(op.target, nodes[op.target].(received := nodes[op.target].received + op.bits));
    }

    /** Drains the queue: it terminates because every operation brings a bit its target lacks. */
    method ProcessDelayedOperations(ghost start: State, ghost before: seq<Action>) returns (ghost run: seq<Action>)
      requires Legal(start, before) && Model() == After(start, before)
      requires Invariant(Model()) && NoLinkPending(Model())
      modifies this
      ensures Valid()
      ensures Propagations(run) && Legal(start, before + run) && Model() == After(start, before + run)
    {
      run := [];
      assert before + [] == before;
      while delayedOperations != []
        invariant Invariant(Model()) && NoLinkPending(Model())
        invariant Propagations(run) && Legal(start, before + run) && Model() == After(start, before + run)
        decreases Budget(nodes)
      {
        ProcessFirstOperation();
        RunOneMore(start, before + run, Deliver(0));
        assert before + (run + [Deliver(0)]) == before + run + [Deliver(0)];
        run := run + [Deliver(0)];
      }
    }

    /** Links what is to be linked because of a change to `x`, and delivers what is to be delivered. */
    method Propagate(x: nat, ghost start: State, ghost before: seq<Action>) returns (ghost run: seq<Action>)
      requires Legal(start, before) && Model() == After(start, before)
      requires Invariant(Model()) && NoLinkPendingBut(Model(), x)
      modifies this
      ensures Valid()
      ensures Propagations(run) && Legal(start, before + run) && Model() == After(start, before + run)
    {
      ghost var links := LinkBottomMapAccessesToNext(x, start, before);
      ghost var deliveries := ProcessDelayedOperations(start, before + links);
      run := links + deliveries;
      assert before + run == before + links + deliveries;
    }

    /** Ends an access. */
    method CompleteAccess(x: nat) returns (ghost run: seq<Action>)
      requires Valid() && x < |nodes| && nodes[x].kind.AccessObject? && !nodes[x].complete
      modifies this
      ensures Valid()
      ensures Propagations(run) && Legal(old(Model()), [Complete(x)] + run) && Model() == After(old(Model()), [Complete(x)] + run)
    {
      ghost var s := Model();
      UpdateObject(x, nodes[x].(complete := true));
      StepKeepsInvariant(s, Complete(x));
      CompletingMakesCandidate(s, x);
      RunOfOne(s, Complete(x));
      run := Propagate(x, s, [Complete(x)]);
    }

    /** Adds an access to a domain; the domain of an access is opened by its first nested access. */
    method RegisterAccess(d: Domain, ty: AccessType, weak: bool) returns (ghost run: seq<Action>)
      requires Valid()
      requires d.Inside? ==> d.owner < |nodes| && nodes[d.owner].kind.AccessObject? && !nodes[d.owner].complete
                             && ProperlyNested(nodes[d.owner].ty, ty)
      modifies this
      ensures Valid()
      ensures var opening := if d.Inside? && d !in old(bottom) then [OpenDomain(d.owner)] else [];
              && Propagations(run)
              && Legal(old(Model()), opening + [Register(d, ty, weak)] + run)
              && Model() == After(old(Model()), opening + [Register(d, ty, weak)] + run)
    {
      ghost var start := Model();
      ghost var opening := OpenDomainIfNeeded(d);
      ghost var s := Model();
      var candidate := AppendAccess(d, ty, weak);
      StepKeepsInvariant(s, Register(d, ty, weak));
      RegisteringMakesCandidate(s, d, ty, weak);
      RunOneMore(start, opening, Register(d, ty, weak));
      run := Propagate(candidate, start, opening + [Register(d, ty, weak)]);
    }

    /** The first access nested in another gives the latter an initial fragment. */
    method OpenDomainIfNeeded(d: Domain) returns (ghost opening: seq<Action>)
      requires Valid()
      requires d.Inside? ==> d.owner < |nodes| && nodes[d.owner].kind.AccessObject? && !nodes[d.owner].complete
      modifies this
      ensures Invariant(Model()) && NoLinkPending(Model())
      ensures opening == if d.Inside? && d !in old(bottom) then [OpenDomain(d.owner)] else []
      ensures Legal(old(Model()), opening) && Model() == After(old(Model()), opening)
      ensures d.Inside? ==> d in bottom && d.owner < |nodes| && nodes[d.owner].ty == old(nodes[d.owner].ty)
                            && nodes[d.owner].kind.AccessObject? && !nodes[d.owner].complete
    {
      opening := [];
      if d.Inside? && d !in bottom {
        ghost var s := Model();
        opening := [OpenDomain(d.owner)];
        OpeningIsPossible(s, d.owner);
        var owner := nodes[d.owner];
        bottom := bottom[d := |nodes|];
        nodes := nodes[d.owner := owner.(fragment := Some(|nodes|))] + [NewFragment(d.owner, owner)];
        StepKeepsInvariant(s, OpenDomain(d.owner));
        RunOfOne(s, OpenDomain(d.owner));
      }
    }

    /** Adds the object and links the last one of the domain to it. */
    method AppendAccess(d: Domain, ty: AccessType, weak: bool) returns (candidate: nat)
      requires Invariant(Model()) && Enabled(Model(), Register(d, ty, weak))
      modifies this
      ensures Model() == Step(old(Model()), Register(d, ty, weak))
      ensures candidate == if d in old(bottom) then old(bottom)[d] else |old(nodes)|
    {
      assert d in bottom ==> BottomInDomain(Model(), d);
      var n := |nodes|;
      candidate := n;
      if d in bottom {
        candidate := bottom[d];
        nodes := nodes + [NewAccess(d, ty, weak, {})];
        bottom := bottom[d := n];
        UpdateObject(candidate, nodes[candidate].(next := Some(n)));
      } else {
        nodes := nodes + [NewAccess(d, ty, weak, ALL_BITS)];
        bottom := bottom[d := n];
      }
    }
  }
}
