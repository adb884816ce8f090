/** The discrete dependency system: one list of accesses per datum, re-evaluated incrementally. */
module DiscreteSequences {
  import opened Options

  datatype Kind = Reads | Writes | ReadsWrites | Concurrently | Reduces(operation: int)

  datatype Access = Access(kind: Kind, weak: bool, satisfied: bool, originator: nat)

  /** Whether an access of kind `next` is satisfied, going by the access before it only. */
  predicate EvaluateSatisfiability(previous: Option<Access>, next: Kind) {
    if previous.None? then true
    else if !previous.value.satisfied then false
    else match next
         case Writes => false
         case ReadsWrites => false
         case Reads => previous.value.kind == Reads
         case Concurrently => previous.value.kind == Concurrently
         case Reduces(operation) => previous.value.kind == Reduces(operation)
  }

  predicate Shareable(a: Kind, b: Kind) {
    a == b && !a.Writes? && !a.ReadsWrites?
  }

  /** Accesses 0 to i can all run together. */
  predicate InFirstRun(s: seq<Access>, i: nat)
    requires i < |s|
  {
    forall j :: 0 < j <= i ==> Shareable(s[0].kind, s[j].kind)
  }

  /** The satisfied accesses are the first one and the longest run that follows it and can share with it. */
  predicate Exact(s: seq<Access>) {
    forall i :: 0 <= i < |s| ==> (s[i].satisfied <==> InFirstRun(s, i))
  }

  /** Satisfiability computed from scratch. */
  function Recomputed(s: seq<Access>): seq<Access> {
    seq(|s|, i requires 0 <= i < |s| => s[i].(satisfied := InFirstRun(s, i)))
  }

  /** The originators of the strong accesses, among the first `n`, that are satisfied in `t` and were not in `s`. */
  function NewlySatisfied(s: seq<Access>, t: seq<Access>, n: nat): seq<nat>
    requires |s| == |t| && n <= |s|
  {
    if n == 0 then []
    else NewlySatisfied(s, t, n - 1)
         + (if t[n - 1].satisfied && !s[n - 1].satisfied && !t[n - 1].weak then [t[n - 1].originator] else [])
  }

  function Erased<X>(s: seq<X>, i: nat): seq<X>
    requires i < |s|
  {
    s[..i] + s[i + 1..]
  }

  /** `t` differs from `s` in satisfiability only. */
  predicate SameAccesses(s: seq<Access>, t: seq<Access>) {
    |s| == |t| && forall i :: 0 <= i < |s| ==> t[i] == s[i].(satisfied := t[i].satisfied)
  }

  lemma RunOfPrefix(s: seq<Access>, t: seq<Access>, i: nat)
    requires i < |s| && i < |t| && forall j :: 0 <= j <= i ==> s[j].kind == t[j].kind
    ensures InFirstRun(s, i) <==> InFirstRun(t, i)
  {
  }

  /** `t` is right about the first n accesses of `s`, and has none of the others satisfied. */
  predicate RightUpTo(s: seq<Access>, t: seq<Access>, n: nat)
    requires |s| == |t|
  {
    forall j :: 0 <= j < |s| ==> (t[j].satisfied <==> j < n && InFirstRun(s, j))
  }

  lemma SameRuns(s: seq<Access>, t: seq<Access>, i: nat)
    requires SameAccesses(s, t) && i < |s|
    ensures InFirstRun(s, i) <==> InFirstRun(t, i)
    ensures i > 0 ==> (InFirstRun(s, i - 1) <==> InFirstRun(t, i - 1))
  {
    RunOfPrefix(s, t, i);
    if i > 0 {
      RunOfPrefix(s, t, i - 1);
    }
  }

  lemma RunsNest(s: seq<Access>, i: nat, j: nat)
    requires i <= j < |s|
    ensures InFirstRun(s, j) ==> InFirstRun(s, i)
  {
  }

  /** Stopping at the first access that cannot be satisfied is stopping at the right place. */
  lemma StoppedAtTheRight(s: seq<Access>, t: seq<Access>, n: nat)
    requires SameAccesses(s, t) && n <= |s| && RightUpTo(s, t, n) && (n < |s| ==> !InFirstRun(s, n))
    ensures t == Recomputed(s) && Exact(t)
  {
    forall j | 0 <= j < |s| ensures t[j] == Recomputed(s)[j] && (t[j].satisfied <==> InFirstRun(t, j)) {
      RunOfPrefix(s, t, j);
      if j >= n {
        RunsNest(s, n, j);
      }
    }
  }

  lemma {:induction false} NewlySatisfiedInPrefix(s: seq<Access>, t: seq<Access>, u: seq<Access>, n: nat)
    requires |s| == |t| == |u| && n <= |s| && forall j :: 0 <= j < n ==> t[j] == u[j]
    ensures NewlySatisfied(s, t, n) == NewlySatisfied(s, u, n)
  {
    if n > 0 {
      NewlySatisfiedInPrefix(s, t, u, n - 1);
    }
  }

  /** The list only depends on the stretch where something changed. */
  lemma {:induction false} NothingNew(s: seq<Access>, t: seq<Access>, m: nat, n: nat)
    requires |s| == |t| && m <= n <= |s| && forall j :: m <= j < n ==> t[j].satisfied == s[j].satisfied
    ensures NewlySatisfied(s, t, n) == NewlySatisfied(s, t, m)
    decreases n
  {
    if m < n {
      NothingNew(s, t, m, n - 1);
    }
  }

  /** Access i is a strong one of the task, and is satisfied in `t` and was not in `s`. */
  predicate Gains(s: seq<Access>, t: seq<Access>, i: nat, task: nat)
    requires i < |s| == |t|
  {
    t[i].satisfied && !s[i].satisfied && !t[i].weak && t[i].originator == task
  }

  /** How many of the first n accesses do. */
  function Gained(s: seq<Access>, t: seq<Access>, n: nat, task: nat): nat
    requires |s| == |t| && n <= |s|
  {
    if n == 0 then 0 else Gained(s, t, n - 1, task) + if Gains(s, t, n - 1, task) then 1 else 0
  }

  /** How often a task is listed. */
  function Times(listed: seq<nat>, task: nat): nat {
    if listed == [] then 0 else Times(listed[..|listed| - 1], task) + if listed[|listed| - 1] == task then 1 else 0
  }

  lemma NewlyOneMore(s: seq<Access>, t: seq<Access>, n: nat, task: nat)
    requires |s| == |t| && n < |s|
    ensures Times(NewlySatisfied(s, t, n + 1), task) == Times(NewlySatisfied(s, t, n), task) + if Gains(s, t, n, task) then 1 else 0
  {
    var listed := NewlySatisfied(s, t, n);
    if t[n].satisfied && !s[n].satisfied && !t[n].weak {
      assert (listed + [t[n].originator])[..|listed|] == listed;
    } else {
      assert listed + [] == listed;
    }
  }

  /** Every task is listed once for each of its accesses that gain. */
  lemma {:induction false} ListedForEach(s: seq<Access>, t: seq<Access>, n: nat, task: nat)
    requires |s| == |t| && n <= |s|
    ensures Times(NewlySatisfied(s, t, n), task) == Gained(s, t, n, task)
  {
    if n > 0 {
      ListedForEach(s, t, n - 1, task);
      NewlyOneMore(s, t, n - 1, task);
    }
  }

  /** The evaluation of one access against the one before it, when that one is right. */
  lemma OneStep(s: seq<Access>, i: nat)
    requires i < |s| && (i > 0 ==> (s[i - 1].satisfied <==> InFirstRun(s, i - 1)))
    ensures InFirstRun(s, i) <==> EvaluateSatisfiability(if i == 0 then None else Some(s[i - 1]), s[i].kind)
  {
    if i > 0 && InFirstRun(s, i - 1) {
      assert i > 1 ==> Shareable(s[0].kind, s[i - 1].kind);
    }
  }

  /** The other accesses, in their order. */
  lemma ErasedAt(s: seq<Access>, i: nat, j: nat)
    requires i < |s| && j < |s| - 1
    ensures Erased(s, i)[j] == s[if j < i then j else j + 1]
  {
  }

  lemma BeforeErased(s: seq<Access>, i: nat, j: nat)
    requires j < i < |s| && Exact(s)
    ensures Erased(s, i)[j].satisfied <==> InFirstRun(Erased(s, i), j)
  {
    assert forall k :: 0 <= k <= j ==> Erased(s, i)[k] == s[k];
    RunOfPrefix(s, Erased(s, i), j);
  }

  /** What is left after removing a satisfied access or one that keeps others waiting: everything up to the
      removed access is right, and what follows is either all right or all unsatisfied. */
  lemma AfterErasure(s: seq<Access>, i: nat)
    requires i < |s| && Exact(s)
    ensures var t := Erased(s, i);
            && (forall j :: 0 <= j < i ==> (t[j].satisfied <==> InFirstRun(t, j)))
            && (i < |t| && t[i].satisfied ==> Exact(t))
            && (i < |t| && !t[i].satisfied ==> forall j :: i <= j < |t| ==> !t[j].satisfied)
  {
    var t := Erased(s, i);
    forall j | 0 <= j < i ensures t[j].satisfied <==> InFirstRun(t, j) {
      BeforeErased(s, i, j);
    }
    forall j | i <= j < |t| ensures t[j].satisfied ==> t[i].satisfied {
      ErasedAt(s, i, i);
      ErasedAt(s, i, j);
      RunsNest(s, i + 1, j + 1);
    }
    if i < |t| && t[i].satisfied {
      ErasedAt(s, i, i);
      forall j | i <= j < |t| ensures t[j].satisfied <==> InFirstRun(t, j) {
        ErasedAt(s, i, j);
        ErasedFromRun(s, i, j);
      }
    }
  }

  /** Taking an access out of the first run leaves the run of every later access as it was. */
  lemma ErasedFromRun(s: seq<Access>, i: nat, j: nat)
    requires i <= j < |s| - 1 && InFirstRun(s, i + 1)
    ensures InFirstRun(s, j + 1) <==> InFirstRun(Erased(s, i), j)
  {
    var t := Erased(s, i);
    assert forall k :: 0 <= k < |t| ==> t[k] == s[if k < i then k else k + 1];
    assert Shareable(s[0].kind, s[i + 1].kind) && t[0].kind == s[0].kind;
    if InFirstRun(t, j) {
      forall k | 0 < k <= j + 1 ensures Shareable(s[0].kind, s[k].kind) {
        if k > i + 1 {
          assert Shareable(t[0].kind, t[k - 1].kind);
        }
      }
    }
    if InFirstRun(s, j + 1) {
      forall k | 0 < k <= j ensures Shareable(t[0].kind, t[k].kind) {
        assert Shareable(s[0].kind, s[if k < i then k else k + 1].kind);
      }
    }
  }

  /** No removal takes satisfiability away, and nobody starts waiting for an access that was not there before. */
  lemma RemovalKeepsSatisfied(s: seq<Access>, i: nat, j: nat)
    requires i < |s| && j < |s| && i != j && Exact(s) && s[j].satisfied
    ensures Recomputed(Erased(s, i))[if j < i then j else j - 1].satisfied
  {
    var t := Erased(s, i);
    assert InFirstRun(s, j);
    if j < i {
      RunOfPrefix(s, t, j);
    } else {
      assert InFirstRun(s, i + 1);
      ErasedFromRun(s, i, j - 1);
    }
  }

  /** An access is satisfied exactly if it is the first one, or all accesses up to it read, or all of them are concurrent, or
      all of them reduce with one operation. */
  lemma SatisfiedExactly(s: seq<Access>, i: nat)
    requires i < |s| && Exact(s)
    ensures s[i].satisfied <==>
              || i == 0
              || (forall j :: 0 <= j <= i ==> s[j].kind == Reads)
              || (forall j :: 0 <= j <= i ==> s[j].kind == Concurrently)
              || (exists operation :: forall j :: 0 <= j <= i ==> s[j].kind == Reduces(operation))
  {
    if s[i].satisfied && i > 0 {
      assert InFirstRun(s, i);
      assert forall j :: 0 < j <= i ==> Shareable(s[0].kind, s[j].kind);
      assert Shareable(s[0].kind, s[i].kind);
      if s[0].kind.Reduces? {
        assert forall j :: 0 <= j <= i ==> s[j].kind == Reduces(s[0].kind.operation);
      }
    }
    if i > 0 && exists operation :: forall j :: 0 <= j <= i ==> s[j].kind == Reduces(operation) {
      var operation :| forall j :: 0 <= j <= i ==> s[j].kind == Reduces(operation);
      assert forall j :: 0 < j <= i ==> Shareable(s[0].kind, s[j].kind);
    }
  }

  /** Two satisfied accesses to one datum both read, or are both concurrent, or reduce with one operation; so whoever writes
      is satisfied only as the first, and alone. */
  lemma SatisfiedShare(s: seq<Access>, i: nat, j: nat)
    requires i < j < |s| && Exact(s) && s[i].satisfied && s[j].satisfied
    ensures || (s[i].kind == Reads && s[j].kind == Reads)
            || (s[i].kind == Concurrently && s[j].kind == Concurrently)
            || (s[i].kind.Reduces? && s[j].kind.Reduces? && s[i].kind.operation == s[j].kind.operation)
  {
    SatisfiedExactly(s, j);
  }

  class DataAccessSequence {
    var accesses: seq<Access>

    ghost predicate Valid()
      reads this
    {
      Exact(accesses)
    }

    constructor ()
      ensures Valid() && accesses == []
    {
      accesses := [];
    }

    /** Adds an access of a task that is not the last one of the list, and says whether the task can start
        as far as this access is concerned. */
    method RegisterTaskDataAccess(task: nat, kind: Kind, weak: bool) returns (canStart: bool)
      requires Valid() && (accesses != [] ==> accesses[|accesses| - 1].originator != task)
      modifies this
      ensures Valid() && |accesses| == |old(accesses)| + 1
      ensures accesses[..|old(accesses)|] == old(accesses)
      ensures var a := accesses[|old(accesses)|];
              && a.kind == kind && a.weak == weak && a.originator == task
              && (canStart <==> weak || InFirstRun(accesses, |old(accesses)|))
    {
      ghost var s := accesses;
      var effectivePrevious := if accesses != [] then Some(accesses[|accesses| - 1]) else None;
      var satisfied := EvaluateSatisfiability(effectivePrevious, kind);
      accesses := accesses + [Access(kind, weak, satisfied, task)];
      assert forall i :: 0 <= i < |s| ==> accesses[i] == s[i];
      forall i | 0 <= i < |s| ensures accesses[i].satisfied <==> InFirstRun(accesses, i) {
        RunOfPrefix(s, accesses, i);
      }
      OneStep(accesses, |s|);
      canStart := satisfied || weak;
    }

    /** Evaluates one unsatisfied access again, knowing that everything before it is right. */
    method ReevaluateSatisfiability(position: nat) returns (becomesSatisfied: bool)
      requires position < |accesses| && !accesses[position].satisfied
      requires position > 0 ==> (accesses[position - 1].satisfied <==> InFirstRun(accesses, position - 1))
      modifies this
      ensures becomesSatisfied <==> InFirstRun(old(accesses), position)
      ensures accesses == old(accesses)[position := old(accesses)[position].(satisfied := becomesSatisfied)]
    {
      var previous := if position == 0 then None else Some(accesses[position - 1]);
      becomesSatisfied := EvaluateSatisfiability(previous, accesses[position].kind);
      OneStep(accesses, position);
      accesses := accesses[position := accesses[position].(satisfied := becomesSatisfied)];
    }

    /** Re-evaluates from `start` on, for as long as accesses become satisfied. */
    method ReevaluateAndPropagateSatisfiability(start: nat) returns (satisfiedOriginators: seq<nat>)
      requires start < |accesses|
      requires forall j :: 0 <= j < start ==> (accesses[j].satisfied <==> InFirstRun(accesses, j))
      requires forall j :: start <= j < |accesses| ==> !accesses[j].satisfied
      modifies this
      ensures Valid() && accesses == Recomputed(old(accesses))
      ensures satisfiedOriginators == NewlySatisfied(old(accesses), accesses, |accesses|)
      ensures forall task :: Times(satisfiedOriginators, task) == Gained(old(accesses), accesses, |accesses|, task)
    {
      satisfiedOriginators := [];
      ghost var s := accesses;
      var position := start;
      NothingNew(s, s, 0, start);
      while position < |accesses|
        invariant start <= position <= |accesses| && SameAccesses(s, accesses)
        invariant RightUpTo(s, accesses, position)
        invariant satisfiedOriginators == NewlySatisfied(s, accesses, position)
      {
        ghost var before := accesses;
        SameRuns(s, before, position);
        var becomesSatisfied := ReevaluateSatisfiability(position);
        NewlySatisfiedInPrefix(s, before, accesses, position);
        if !becomesSatisfied {
          break;
        }
        if !accesses[position].weak {
          satisfiedOriginators := satisfiedOriginators + [accesses[position].originator];
        }
        position := position + 1;
      }
      NothingNew(s, accesses, position, |s|);
      StoppedAtTheRight(s, accesses, position);
      forall task ensures Times(satisfiedOriginators, task) == Gained(s, accesses, |s|, task) {
        ListedForEach(s, accesses, |s|, task);
      }
    }

    /** Removes the access at `i` and satisfies what was waiting for it. */
    method UnregisterDataAccess(i: nat) returns (satisfiedOriginators: seq<nat>)
      requires Valid() && i < |accesses|
      modifies this
      ensures Valid() && accesses == Recomputed(Erased(old(accesses), i))
      ensures var t := Erased(old(accesses), i);
              forall task :: Times(satisfiedOriginators, task) == Gained(t, accesses, |accesses|, task)
    {
      satisfiedOriginators := [];
      AfterErasure(accesses, i);
      accesses := Erased(accesses, i);
      ghost var t := accesses;
      if i < |accesses| && !accesses[i].satisfied {
        satisfiedOriginators := ReevaluateAndPropagateSatisfiability(i);
      } else {
        assert accesses == Recomputed(t);
        NothingNew(t, accesses, 0, |t|);
        forall task ensures Gained(t, accesses, |t|, task) == 0 {
          ListedForEach(t, accesses, |t|, task);
        }
      }
    }
  }
}
