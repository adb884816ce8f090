/** Why accesses must be properly nested: which nestings of types a program may use for conflicting accesses to exclude
    each other, and for no bit to be sent twice. */
module ImproperNesting {
  import opened Options
  import opened DataAccesses
  import opened Satisfiability
  import opened ProgramOrder
  import opened Dependencies

  /** Which types a program nests in which. */
  type Policy = (AccessType, AccessType) -> bool

  predicate Permitted(policy: Policy, s: State, a: Action) {
    Possible(s, a) && (a.Register? && a.dom.Inside? ==> policy(s.nodes[a.dom.owner].ty, a.ty))
  }

  /** `run` is a run of the program that leads from s to t. */
  predicate Leads(policy: Policy, s: State, run: seq<Action>, t: State)
    decreases |run|
  {
    if run == [] then s == t else Permitted(policy, s, run[0]) && Leads(policy, Step(s, run[0]), run[1..], t)
  }

  predicate ProgramRun(policy: Policy, run: seq<Action>, t: State) {
    Leads(policy, INITIAL, run, t)
  }

  lemma LeadsBy(policy: Policy, s: State, a: Action, run: seq<Action>, t: State)
    requires Permitted(policy, s, a) && Leads(policy, Step(s, a), run, t)
    ensures Leads(policy, s, [a] + run, t)
  {
    assert ([a] + run)[1..] == run;
  }

  function Object(kind: ObjectKind, d: Domain, ty: AccessType, complete: bool, fragment: Option<nat>, next: Option<nat>): DataAccess {
    DataAccess(kind, d, ty, false, ALL_BITS, complete, {}, fragment, next)
  }

  /** A satisfied access with a nested one: the latter is not satisfied yet, or has a domain of its own. */
  function NestedPair(outer: AccessType, inner: DataAccess, complete: bool): State {
    State([Object(AccessObject, Outside(0), outer, complete, Some(1), None),
           Object(FragmentObject, Inside(0), outer, false, None, Some(2)),
           inner]
          + (if inner.fragment.None? then [] else [Object(FragmentObject, Inside(2), inner.ty, false, None, None)]),
          map[Outside(0) := 0, Inside(0) := 2] + (if inner.fragment.None? then map[] else map[Inside(2) := 3]),
          if inner.received == {} then [UpdateOperation(2, ALL_BITS)] else [])
  }

  /** An access with a domain of its own in which nothing is nested yet. */
  function Opened(outer: AccessType): State {
    State([Object(AccessObject, Outside(0), outer, false, Some(1), None), Object(FragmentObject, Inside(0), outer, false, None, None)],
          map[Outside(0) := 0, Inside(0) := 1], [])
  }

  lemma NestingStep(policy: Policy, outer: AccessType, inner: AccessType, run: seq<Action>, t: State)
    requires policy(outer, inner) && Leads(policy, NestedPair(outer, NewAccess(Inside(0), inner, false, {}), false), run, t)
    ensures Leads(policy, Opened(outer), [Register(Inside(0), inner, false)] + run, t)
  {
    var s2 := Opened(outer);
    var s3 := Step(s2, Register(Inside(0), inner, false));
    assert ReadBit in ALL_BITS && ToNext(s3.nodes[1]) - ToNext(s2.nodes[1]) == ALL_BITS;
    assert s3 == NestedPair(outer, NewAccess(Inside(0), inner, false, {}), false);
    LeadsBy(policy, s2, Register(Inside(0), inner, false), run, t);
  }

  lemma FirstSteps(policy: Policy, outer: AccessType, inner: AccessType, run: seq<Action>, t: State) returns (longer: seq<Action>)
    requires policy(outer, inner) && Leads(policy, NestedPair(outer, NewAccess(Inside(0), inner, false, {}), false), run, t)
    ensures Leads(policy, INITIAL, longer, t)
  {
    NestingStep(policy, outer, inner, run, t);
    longer := [Register(Inside(0), inner, false)] + run;
    var s1 := Step(INITIAL, Register(Outside(0), outer, false));
    assert Step(s1, OpenDomain(0)) == Opened(outer);
    LeadsBy(policy, s1, OpenDomain(0), longer, t);
    longer := [OpenDomain(0)] + longer;
    LeadsBy(policy, INITIAL, Register(Outside(0), outer, false), longer, t);
    longer := [Register(Outside(0), outer, false)] + longer;
  }

  lemma SatisfyingStep(policy: Policy, outer: AccessType, inner: AccessType, run: seq<Action>, t: State)
    requires Leads(policy, NestedPair(outer, Object(AccessObject, Inside(0), inner, false, None, None), false), run, t)
    ensures Leads(policy, NestedPair(outer, NewAccess(Inside(0), inner, false, {}), false), [Deliver(0)] + run, t)
  {
    var s3 := NestedPair(outer, NewAccess(Inside(0), inner, false, {}), false);
    var s4 := Step(s3, Deliver(0));
    assert ReadBit in ALL_BITS && s4.nodes[2].received == ALL_BITS;
    assert s4 == NestedPair(outer, Object(AccessObject, Inside(0), inner, false, None, None), false);
    LeadsBy(policy, s3, Deliver(0), run, t);
  }

  lemma OpeningStep(policy: Policy, outer: AccessType, inner: AccessType, run: seq<Action>, t: State)
    requires Leads(policy, NestedPair(outer, Object(AccessObject, Inside(0), inner, false, Some(3), None), false), run, t)
    ensures Leads(policy, NestedPair(outer, Object(AccessObject, Inside(0), inner, false, None, None), false), [OpenDomain(2)] + run, t)
  {
    var s4 := NestedPair(outer, Object(AccessObject, Inside(0), inner, false, None, None), false);
    assert ReadBit in ALL_BITS;
    var s5 := Step(s4, OpenDomain(2));
    assert s5 == NestedPair(outer, Object(AccessObject, Inside(0), inner, false, Some(3), None), false);
    LeadsBy(policy, s4, OpenDomain(2), run, t);
  }

  lemma CompletingInner(policy: Policy, outer: AccessType, inner: AccessType, run: seq<Action>, t: State)
    requires Leads(policy, NestedPair(outer, Object(AccessObject, Inside(0), inner, true, Some(3), None), false), run, t)
    ensures Leads(policy, NestedPair(outer, Object(AccessObject, Inside(0), inner, false, Some(3), None), false), [Complete(2)] + run, t)
  {
    assert ReadBit in ALL_BITS;
    var s5 := NestedPair(outer, Object(AccessObject, Inside(0), inner, false, Some(3), None), false);
    assert Step(s5, Complete(2)) == NestedPair(outer, Object(AccessObject, Inside(0), inner, true, Some(3), None), false);
    LeadsBy(policy, s5, Complete(2), run, t);
  }

  lemma CompletingOuter(policy: Policy, outer: AccessType, inner: AccessType, run: seq<Action>, t: State)
    requires Leads(policy, NestedPair(outer, Object(AccessObject, Inside(0), inner, true, Some(3), None), true), run, t)
    ensures Leads(policy, NestedPair(outer, Object(AccessObject, Inside(0), inner, true, Some(3), None), false), [Complete(0)] + run, t)
  {
    assert ReadBit in ALL_BITS;
    var s6 := NestedPair(outer, Object(AccessObject, Inside(0), inner, true, Some(3), None), false);
    assert Step(s6, Complete(0)) == NestedPair(outer, Object(AccessObject, Inside(0), inner, true, Some(3), None), true);
    LeadsBy(policy, s6, Complete(0), run, t);
  }

  /** Any state in which a completed outer access and its completed nested access are about to be linked. */
  lemma LinkingSteps(policy: Policy, s: State, inner: DataAccess, last: DataAccess, b: Bit) returns (run: seq<Action>, t: State)
    requires |s.nodes| == 5 && s.nodes[0].next == Some(4) && s.nodes[2] == inner && s.nodes[3] == last
    requires Possible(s, LinkBottom(0)) && s.bottom[Inside(0)] == 2
    requires inner.complete && inner.kind.AccessObject? && inner.fragment == Some(3)
    requires Inside(2) in s.bottom && s.bottom[Inside(2)] == 3
    requires last.next.None? && last.fragment.None? && last.kind.FragmentObject?
    requires b in last.received && !Transparent(inner.ty, b) && Count(s.ops, 4, b) == 1
    ensures Leads(policy, s, run, t) && Count(t.ops, 4, b) == 2
  {
    var v := inner.(next := Some(4), inhibited := TransparentBits(s.nodes[0].ty));
    var w := last.(next := Some(4), inhibited := TransparentBits(inner.ty));
    var s9 := Update(s, 2, v);
    t := Update(s9, 3, w);
    assert Step(s, LinkBottom(0)) == s9;
    assert Possible(s9, LinkBottom(2)) && Step(s9, LinkBottom(2)) == t;
    SentTwice(s, v, w, b);
    LeadsBy(policy, s9, LinkBottom(2), [], t);
    LeadsBy(policy, s, LinkBottom(0), [LinkBottom(2)] + [], t);
    run := [LinkBottom(0)] + ([LinkBottom(2)] + []);
  }

  lemma SentTwice(s8: State, v: DataAccess, w: DataAccess, b: Bit)
    requires |s8.nodes| == 5 && Count(s8.ops, 4, b) == 1
    requires Advances(s8.nodes[2], v) && Advances(s8.nodes[3], w)
    requires !Emits(v, 4, b) && !Emits(s8.nodes[3], 4, b) && Emits(w, 4, b)
    ensures Count(Update(Update(s8, 2, v), 3, w).ops, 4, b) == 2
  {
    var s9 := Update(s8, 2, v);
    HandleStatusChangesSendsTheDifference(s8.nodes[2], v, 4, b);
    CountAppend(s8.ops, HandleStatusChanges(s8.nodes[2], v), 4, b);
    HandleStatusChangesSendsTheDifference(s9.nodes[3], w, 4, b);
    CountAppend(s9.ops, HandleStatusChanges(s9.nodes[3], w), 4, b);
  }

  lemma RegisteringStep(outer: AccessType, inner: AccessType, b: Bit) returns (s8: State)
    requires Transparent(outer, b)
    ensures var s7 := NestedPair(outer, Object(AccessObject, Inside(0), inner, true, Some(3), None), true);
            && Possible(s7, Register(Outside(0), Write, false))
            && s8 == Step(s7, Register(Outside(0), Write, false))
            && |s8.nodes| == 5 && s8.nodes[0] == s7.nodes[0].(next := Some(4)) && s8.nodes[1..4] == s7.nodes[1..4]
            && s8.bottom[Inside(0) := 2][Inside(2) := 3] == s8.bottom
            && Count(s8.ops, 4, b) == 1
  {
    var s7 := NestedPair(outer, Object(AccessObject, Inside(0), inner, true, Some(3), None), true);
    assert s7.ops == [] by { assert ReadBit in ALL_BITS; }
    s8 := Step(s7, Register(Outside(0), Write, false));
    assert s8.ops == HandleStatusChanges(s7.nodes[0], s8.nodes[0]);
    OuterSendsToNew(s7.nodes[0], s8.nodes[0], b);
  }

  lemma OuterSendsToNew(x: DataAccess, y: DataAccess, b: Bit)
    requires y == x.(next := Some(4)) && x.next.None? && x.complete && x.kind.AccessObject? && x.received == ALL_BITS
    requires x.inhibited == {} && x.fragment == Some(1) && Transparent(x.ty, b)
    ensures Count(HandleStatusChanges(x, y), 4, b) == 1
  {
    HandleStatusChangesSendsTheDifference(x, y, 4, b);
  }

  /** Whenever `inner` does not let through a bit that `outer` does, nesting it in `outer` makes some run
      send that bit to one access twice. */
  lemma ImproperNestingSendsTwice(policy: Policy, outer: AccessType, inner: AccessType, b: Bit) returns (run: seq<Action>, t: State)
    requires policy(outer, inner) && Transparent(outer, b) && !Transparent(inner, b)
    ensures Leads(policy, INITIAL, run, t) && Count(t.ops, 4, b) == 2
  {
    var s7 := NestedPair(outer, Object(AccessObject, Inside(0), inner, true, Some(3), None), true);
    var s8 := RegisteringStep(outer, inner, b);
    run, t := LinkingSteps(policy, s8, s8.nodes[2], s8.nodes[3], b);
    LeadsBy(policy, s7, Register(Outside(0), Write, false), run, t);
    run := [Register(Outside(0), Write, false)] + run;
    CompletingOuter(policy, outer, inner, run, t);
    run := [Complete(0)] + run;
    CompletingInner(policy, outer, inner, run, t);
    run := [Complete(2)] + run;
    OpeningStep(policy, outer, inner, run, t);
    run := [OpenDomain(2)] + run;
    SatisfyingStep(policy, outer, inner, run, t);
    run := FirstSteps(policy, outer, inner, [Deliver(0)] + run, t);
  }

  // ----- Two conflicting accesses at once -----

  /** A satisfied access with a satisfied one nested in it, and a sibling that has received what it lets through. */
  function Conflict(outer: AccessType, inner: AccessType): State {
    State([Object(AccessObject, Outside(0), outer, false, Some(1), Some(3)),
           Object(FragmentObject, Inside(0), outer, false, None, Some(2)),
           Object(AccessObject, Inside(0), inner, false, None, None),
           NewAccess(Outside(0), outer, false, TransparentBits(outer))],
          map[Outside(0) := 3, Inside(0) := 2], [])
  }

  /** What the sibling is sent when it is linked. */
  lemma LinkedSibling(outer: AccessType)
    requires exists b :: Transparent(outer, b)
    ensures var x := Object(AccessObject, Outside(0), outer, false, Some(1), None);
            HandleStatusChanges(x, x.(next := Some(3))) == [UpdateOperation(3, TransparentBits(outer))]
  {
    var x := Object(AccessObject, Outside(0), outer, false, Some(1), None);
    var y := x.(next := Some(3));
    assert forall b: Bit :: b in ALL_BITS;
    assert ToNext(y) == TransparentBits(outer) && ToNext(x) == {};
    var b :| Transparent(outer, b);
    assert b in TransparentBits(outer) && TransparentBits(outer) - {} == TransparentBits(outer);
    assert ToFragment(y) - ToFragment(x) == {};
  }

  /** The same before the sibling has received anything. */
  function Sibling(outer: AccessType, inner: AccessType): State {
    var s := Conflict(outer, inner);
    State(s.nodes[3 := NewAccess(Outside(0), outer, false, {})], s.bottom, [UpdateOperation(3, TransparentBits(outer))])
  }

  lemma SiblingRegisters(outer: AccessType, inner: AccessType)
    requires exists b :: Transparent(outer, b)
    ensures var s4 := NestedPair(outer, Object(AccessObject, Inside(0), inner, false, None, None), false);
            Possible(s4, Register(Outside(0), outer, false)) && Step(s4, Register(Outside(0), outer, false)) == Sibling(outer, inner)
  {
    var s4 := NestedPair(outer, Object(AccessObject, Inside(0), inner, false, None, None), false);
    assert ReadBit in ALL_BITS && s4.ops == [];
    var s5 := Step(s4, Register(Outside(0), outer, false));
    LinkedSibling(outer);
    assert s5.ops == Sibling(outer, inner).ops && s5.bottom == Sibling(outer, inner).bottom;
    assert s5.nodes == Sibling(outer, inner).nodes;
  }

  lemma SiblingReceives(outer: AccessType, inner: AccessType)
    ensures Possible(Sibling(outer, inner), Deliver(0)) && Step(Sibling(outer, inner), Deliver(0)) == Conflict(outer, inner)
  {
    var s6 := Step(Sibling(outer, inner), Deliver(0));
    var sibling := NewAccess(Outside(0), outer, false, {});
    assert {} + TransparentBits(outer) == TransparentBits(outer);
    assert HandleStatusChanges(sibling, sibling.(received := TransparentBits(outer))) == [];
    assert s6.nodes == Conflict(outer, inner).nodes;
  }

  lemma SiblingSteps(policy: Policy, outer: AccessType, inner: AccessType) returns (run: seq<Action>)
    requires exists b :: Transparent(outer, b)
    ensures Leads(policy, NestedPair(outer, Object(AccessObject, Inside(0), inner, false, None, None), false), run, Conflict(outer, inner))
  {
    var s4 := NestedPair(outer, Object(AccessObject, Inside(0), inner, false, None, None), false);
    SiblingReceives(outer, inner);
    LeadsBy(policy, Sibling(outer, inner), Deliver(0), [], Conflict(outer, inner));
    run := [Deliver(0)] + [];
    SiblingRegisters(outer, inner);
    LeadsBy(policy, s4, Register(Outside(0), outer, false), run, Conflict(outer, inner));
    run := [Register(Outside(0), outer, false)] + run;
  }

  /** The nested access and the sibling of its parent run at the same time, and neither is nested in the other. */
  lemma ConflictIsNotExcluded(outer: AccessType, inner: AccessType)
    requires (outer == Read || outer == Concurrent) && inner != outer
    ensures var s := Conflict(outer, inner); Running(s, 2) && Running(s, 3) && !Excluded(s, 2, 3)
  {
    var s := Conflict(outer, inner);
    assert forall b: Bit :: b in ALL_BITS;
    assert Root(s, 0) == Outside(0) && Root(s, 2) == Root(s, 3);
    assert !Within(s, 3, 0) && !Within(s, 3, 2) && !Within(s, 2, 3);
  }

  /** Whenever the types are not properly nested, some run lets two conflicting accesses run at once. */
  lemma ImproperNestingConflicts(policy: Policy, outer: AccessType, inner: AccessType) returns (run: seq<Action>)
    requires policy(outer, inner) && !ProperlyNested(outer, inner)
    ensures var s := Conflict(outer, inner);
            Leads(policy, INITIAL, run, s) && Running(s, 2) && Running(s, 3) && !Excluded(s, 2, 3)
  {
    var b :| Transparent(outer, b) && !Transparent(inner, b);
    ConflictIsNotExcluded(outer, inner);
    run := SiblingSteps(policy, outer, inner);
    SatisfyingStep(policy, outer, inner, run, Conflict(outer, inner));
    run := FirstSteps(policy, outer, inner, [Deliver(0)] + run, Conflict(outer, inner));
  }

  // ----- Exactly the proper nestings are safe -----

  ghost predicate AllProper(policy: Policy) {
    forall outer, inner :: policy(outer, inner) ==> ProperlyNested(outer, inner)
  }

  lemma ProperIsEnabled(policy: Policy, s: State, a: Action)
    requires AllProper(policy) && Permitted(policy, s, a)
    ensures Enabled(s, a)
  {
  }

  lemma {:induction false} ProperRunsKeepInvariant(policy: Policy, s: State, run: seq<Action>, t: State)
    requires AllProper(policy) && Invariant(s) && Leads(policy, s, run, t)
    ensures Invariant(t)
    decreases |run|
  {
    if run != [] {
      ProperIsEnabled(policy, s, run[0]);
      StepKeepsInvariant(s, run[0]);
      ProperRunsKeepInvariant(policy, Step(s, run[0]), run[1..], t);
    }
  }

  ghost predicate Excludes(s: State) {
    forall z: nat, x: nat :: Running(s, z) && Running(s, x) ==> Excluded(s, z, x)
  }

  lemma ProperExcludes(policy: Policy, run: seq<Action>, t: State)
    requires AllProper(policy) && Leads(policy, INITIAL, run, t)
    ensures Excludes(t)
  {
    assert Invariant(INITIAL);
    ProperRunsKeepInvariant(policy, INITIAL, run, t);
    forall z: nat, x: nat | Running(t, z) && Running(t, x) ensures Excluded(t, z, x) {
      InvariantExcludes(t, z, x);
    }
  }

  /** A program's accesses exclude each other at the end of all its runs exactly if it nests them properly. */
  lemma ExclusionNeedsProperNesting(policy: Policy)
    ensures (forall run, t :: ProgramRun(policy, run, t) ==> Excludes(t)) <==> AllProper(policy)
  {
    if AllProper(policy) {
      forall run, t | ProgramRun(policy, run, t) ensures Excludes(t) {
        ProperExcludes(policy, run, t);
      }
    } else {
      var outer, inner :| policy(outer, inner) && !ProperlyNested(outer, inner);
      var run := ImproperNestingConflicts(policy, outer, inner);
      assert ProgramRun(policy, run, Conflict(outer, inner)) && !Excludes(Conflict(outer, inner));
    }
  }

  ghost predicate SendsOnce(s: State) {
    forall k :: 0 <= k < |s.ops| ==> SentOnce(s, k)
  }

  lemma {:induction false} Carrier(ops: seq<UpdateOperation>, x: nat, b: Bit) returns (k: nat)
    requires Count(ops, x, b) > 0
    ensures k < |ops| && ops[k].target == x && b in ops[k].bits
  {
    if ops[0].target == x && b in ops[0].bits {
      k := 0;
    } else {
      k := Carrier(ops[1..], x, b);
      k := k + 1;
    }
  }

  lemma ProperSendsOnce(policy: Policy, run: seq<Action>, t: State)
    requires AllProper(policy) && Leads(policy, INITIAL, run, t)
    ensures SendsOnce(t)
  {
    assert Invariant(INITIAL);
    ProperRunsKeepInvariant(policy, INITIAL, run, t);
    forall k | 0 <= k < |t.ops| ensures SentOnce(t, k) {
      InvariantSendsOnce(t, k);
    }
  }

  /** No bit is sent twice to one access in any run exactly if the accesses are nested properly. */
  lemma SendingOnceNeedsProperNesting(policy: Policy)
    ensures (forall run, t :: ProgramRun(policy, run, t) ==> SendsOnce(t)) <==> AllProper(policy)
  {
    if AllProper(policy) {
      forall run, t | ProgramRun(policy, run, t) ensures SendsOnce(t) {
        ProperSendsOnce(policy, run, t);
      }
    } else {
      var outer, inner :| policy(outer, inner) && !ProperlyNested(outer, inner);
      var b :| Transparent(outer, b) && !Transparent(inner, b);
      var run, t := ImproperNestingSendsTwice(policy, outer, inner, b);
      var k := Carrier(t.ops, 4, b);
      assert !SentOnce(t, k);
      assert ProgramRun(policy, run, t);
    }
  }
}
