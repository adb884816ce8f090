/** The predecessor counter of a task whose accesses become visible to other threads before they are counted. */
module PredecessorGuard {
  /** `pending` tells that the registering thread has published an access and has not counted it yet; `waiting` is
      the number of published accesses that no other thread has served yet; `zeros` is the number of decrements
      that left the counter at zero, each of which makes the task ready. */
  datatype Counter = Counter(predecessors: int, registering: bool, pending: bool, waiting: nat, zeros: nat)

  datatype Action = Publish | Count | Serve | ReleaseGuard

  function Registering(guard: nat): Counter {
    Counter(guard, true, false, 0, 0)
  }

  predicate Enabled(c: Counter, a: Action) {
    match a
    case Publish => c.registering && !c.pending
    case Count => c.pending
    case Serve => c.waiting > 0
    case ReleaseGuard => c.registering && !c.pending
  }

  /** An atomic subtraction and its test for zero. */
  function DecreasePredecessors(c: Counter, amount: nat): Counter {
    c.(predecessors := c.predecessors - amount, zeros := c.zeros + if c.predecessors == amount then 1 else 0)
  }

  function Step(guard: nat, c: Counter, a: Action): Counter
    requires Enabled(c, a)
  {
    match a
    case Publish => c.(pending := true, waiting := c.waiting + 1)
    case Count => c.(pending := false, predecessors := c.predecessors + 1)
    case Serve => DecreasePredecessors(c, 1).(waiting := c.waiting - 1)
    case ReleaseGuard => DecreasePredecessors(c, guard).(registering := false)
  }

  predicate Legal(guard: nat, c: Counter, run: seq<Action>)
    decreases |run|
  {
    run != [] ==> Enabled(c, run[0]) && Legal(guard, Step(guard, c, run[0]), run[1..])
  }

  function After(guard: nat, c: Counter, run: seq<Action>): Counter
    requires Legal(guard, c, run)
    decreases |run|
  {
    if run == [] then c else After(guard, Step(guard, c, run[0]), run[1..])
  }

  /** Registration has ended and every published access has been served. */
  predicate Finished(c: Counter) {
    !c.registering && c.waiting == 0
  }

  /** The task has become ready exactly once if everything it waits for has happened, and never otherwise. */
  predicate ReadyExactlyOnce(c: Counter) {
    c.zeros == if Finished(c) then 1 else 0
  }

  predicate Balanced(guard: nat, c: Counter) {
    && c.predecessors == (if c.registering then guard else 0) + c.waiting - (if c.pending then 1 else 0)
    && (c.pending ==> c.registering)
    && ReadyExactlyOnce(c)
  }

  lemma {:induction false} RunsStayBalanced(guard: nat, c: Counter, run: seq<Action>)
    requires guard >= 2 && Balanced(guard, c) && Legal(guard, c, run)
    ensures Balanced(guard, After(guard, c, run))
    decreases |run|
  {
    if run != [] {
      RunsStayBalanced(guard, Step(guard, c, run[0]), run[1..]);
    }
  }

  /** With a guard of two, in every interleaving: the counter stays positive during registration, and it is the
      last of all the decrements that sees zero. */
  lemma GuardOfTwoSuffices(guard: nat, run: seq<Action>)
    requires guard >= 2 && Legal(guard, Registering(guard), run)
    ensures var c := After(guard, Registering(guard), run);
            ReadyExactlyOnce(c) && (c.registering ==> c.predecessors >= 1)
  {
    RunsStayBalanced(guard, Registering(guard), run);
  }

  function Premature(guard: nat): seq<Action> {
    if guard == 1 then [Publish, Serve] else [Publish, Count, Serve]
  }

  lemma GuardOfOneIsPremature()
    ensures Legal(1, Registering(1), Premature(1)) && !ReadyExactlyOnce(After(1, Registering(1), Premature(1)))
  {
    var run := Premature(1);
    assert run[1..] == [Serve];
    assert run[1..][1..] == [];
  }

  lemma GuardOfZeroIsPremature()
    ensures Legal(0, Registering(0), Premature(0)) && !ReadyExactlyOnce(After(0, Registering(0), Premature(0)))
  {
    var run := Premature(0);
    assert run[1..] == [Count, Serve];
    assert run[1..][1..] == [Serve];
    assert run[1..][1..][1..] == [];
  }

  /** A smaller guard lets some interleaving make the task ready too early, so two is the least that works. */
  lemma {:induction false} GuardIsEnoughExactlyFromTwo(guard: nat)
    ensures (forall run :: Legal(guard, Registering(guard), run) ==> ReadyExactlyOnce(After(guard, Registering(guard), run)))
       <==> guard >= 2
  {
    if guard >= 2 {
      forall run | Legal(guard, Registering(guard), run)
        ensures ReadyExactlyOnce(After(guard, Registering(guard), run))
      {
        GuardOfTwoSuffices(guard, run);
      }
    } else {
      if guard == 1 {
        GuardOfOneIsPremature();
      } else {
        GuardOfZeroIsPremature();
      }
    }
  }

  /** With a guard of one the same task can even be made ready a second time by the release of the guard. */
  lemma GuardOfOneRunsTwice()
    ensures var run := [Publish, Serve, Count, ReleaseGuard];
            Legal(1, Registering(1), run) && After(1, Registering(1), run).zeros == 2
  {
    var c1 := Step(1, Registering(1), Publish);
    var c2 := Step(1, c1, Serve);
    var c3 := Step(1, c2, Count);
    First(1, c3, ReleaseGuard, []);
    First(1, c2, Count, [ReleaseGuard]);
    First(1, c1, Serve, [Count, ReleaseGuard]);
    First(1, Registering(1), Publish, [Serve, Count, ReleaseGuard]);
    assert [Publish] + [Serve, Count, ReleaseGuard] == [Publish, Serve, Count, ReleaseGuard];
    assert [Serve] + [Count, ReleaseGuard] == [Serve, Count, ReleaseGuard];
    assert [Count] + [ReleaseGuard] == [Count, ReleaseGuard];
    assert [ReleaseGuard] + [] == [ReleaseGuard];
  }

  lemma First(guard: nat, c: Counter, a: Action, run: seq<Action>)
    requires Enabled(c, a) && Legal(guard, Step(guard, c, a), run)
    ensures Legal(guard, c, [a] + run) && After(guard, c, [a] + run) == After(guard, Step(guard, c, a), run)
  {
    assert ([a] + run)[1..] == run;
  }
}
