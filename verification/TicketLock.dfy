/** The ticket lock: threads take tickets from one counter and enter when the other counter reaches theirs. */
module TicketLock {
  import opened Sums
  import opened Division

  /** Reading and Matched are the two pauses inside tryLock: after reading the next free ticket, and after having
      found it equal to the current one. */
  datatype Thread =
    | Outside
    | Waiting(ticket: nat)
    | Holding(ticket: nat)
    | Reading(ticket: nat)
    | Matched(ticket: nat)

  datatype State = State(current: nat, nextFree: nat, threads: seq<Thread>)

  /** Lock takes a ticket; Enter finds it current. ReadNext, Compare and Exchange are the steps of tryLock. */
  datatype Action = Lock(t: nat) | Enter(t: nat) | Unlock(t: nat) | ReadNext(t: nat) | Compare(t: nat) | Exchange(t: nat)

  function Initial(n: nat): State {
    State(0, 0, seq(n, _ => Outside))
  }

  /** What a thread can do next. A thread that waits can only go on when the lock reaches its ticket. */
  predicate Enabled(s: State, a: Action) {
    a.t < |s.threads| &&
    match a
    case Lock(t) => s.threads[t].Outside?
    case Enter(t) => s.threads[t].Waiting? && s.threads[t].ticket == s.current
    case Unlock(t) => s.threads[t].Holding?
    case ReadNext(t) => s.threads[t].Outside?
    case Compare(t) => s.threads[t].Reading?
    case Exchange(t) => s.threads[t].Matched?
  }

  function Put(s: State, t: nat, x: Thread): State
    requires t < |s.threads|
  {
    s.(threads := s.threads[t := x])
  }

  /** Tickets are `width` values wide, or unbounded when it is zero. */
  function Successor(width: nat, ticket: nat): nat {
    if width == 0 then ticket + 1 else (ticket + 1) % width
  }

  function Step(width: nat, s: State, a: Action): State
    requires Enabled(s, a)
  {
    match a
    case Lock(t) => Put(s, t, Waiting(s.nextFree)).(nextFree := Successor(width, s.nextFree))
    case Enter(t) => Put(s, t, Holding(s.threads[t].ticket))
    case Unlock(t) => Put(s, t, Outside).(current := Successor(width, s.current))
    case ReadNext(t) => Put(s, t, Reading(s.nextFree))
    case Compare(t) => Put(s, t, if s.threads[t].ticket == s.current then Matched(s.threads[t].ticket) else Outside)
    case Exchange(t) =>
      if s.threads[t].ticket == s.nextFree
      then Put(s, t, Holding(s.threads[t].ticket)).(nextFree := Successor(width, s.nextFree))
      else Put(s, t, Outside)
  }

  predicate Legal(width: nat, s: State, run: seq<Action>)
    decreases |run|
  {
    run != [] ==> Enabled(s, run[0]) && Legal(width, Step(width, s, run[0]), run[1..])
  }

  function After(width: nat, s: State, run: seq<Action>): State
    requires Legal(width, s, run)
    decreases |run|
  {
    if run == [] then s else After(width, Step(width, s, run[0]), run[1..])
  }

  // ---- unbounded tickets ----

  predicate HasTicket(x: Thread) {
    x.Waiting? || x.Holding?
  }

  predicate InRange(s: State, x: Thread) {
    match x
    case Outside => true
    case Waiting(ticket) => s.current <= ticket < s.nextFree
    case Holding(ticket) => s.current == ticket < s.nextFree
    case Reading(ticket) => ticket <= s.nextFree
    case Matched(ticket) => ticket <= s.current
  }

  predicate Distinct(s: State, t: nat, u: nat)
    requires t < |s.threads| && u < |s.threads|
  {
    t != u && HasTicket(s.threads[t]) && HasTicket(s.threads[u]) ==> s.threads[t].ticket != s.threads[u].ticket
  }

  predicate Invariant(s: State) {
    && s.current <= s.nextFree
    && (forall t :: 0 <= t < |s.threads| ==> InRange(s, s.threads[t]))
    && (forall t, u :: 0 <= t < |s.threads| && 0 <= u < |s.threads| ==> Distinct(s, t, u))
  }

  lemma StepKeepsInvariant(s: State, a: Action)
    requires Invariant(s) && Enabled(s, a)
    ensures Invariant(Step(0, s, a))
  {
    var r := Step(0, s, a);
    assert InRange(s, s.threads[a.t]);
    forall t | 0 <= t < |s.threads| ensures InRange(r, r.threads[t]) {
      assert InRange(s, s.threads[t]) && Distinct(s, a.t, t);
    }
    forall t, u | 0 <= t < |s.threads| && 0 <= u < |s.threads| ensures Distinct(r, t, u) {
      assert Distinct(s, t, u) && InRange(s, s.threads[t]) && InRange(s, s.threads[u]);
    }
  }

  lemma {:induction false} RunsKeepInvariant(s: State, run: seq<Action>)
    requires Invariant(s) && Legal(0, s, run)
    ensures Invariant(After(0, s, run))
    decreases |run|
  {
    if run != [] {
      StepKeepsInvariant(s, run[0]);
      RunsKeepInvariant(Step(0, s, run[0]), run[1..]);
    }
  }

  /** In every run of lock, tryLock and unlock at most one thread holds the lock, and nobody who took a ticket
      earlier is still waiting while it does. */
  lemma MutualExclusionInOrder(n: nat, run: seq<Action>, t: nat, u: nat)
    requires Legal(0, Initial(n), run)
    requires var s := After(0, Initial(n), run); t < |s.threads| && u < |s.threads| && t != u && s.threads[t].Holding?
    ensures var s := After(0, Initial(n), run);
            !s.threads[u].Holding? && (s.threads[u].Waiting? ==> s.threads[t].ticket < s.threads[u].ticket)
  {
    RunsKeepInvariant(Initial(n), run);
    var s := After(0, Initial(n), run);
    assert InRange(s, s.threads[t]) && InRange(s, s.threads[u]) && Distinct(s, t, u);
  }

  // ---- no ticket gets lost ----

  function OneIfTicket(): Thread -> nat {
    (x: Thread) => if HasTicket(x) then 1 else 0
  }

  /** There are as many tickets out as the counters are apart, and each of them is somebody's. */
  predicate Accounted(s: State) {
    && Invariant(s)
    && s.nextFree - s.current == Sum(s.threads, OneIfTicket())
    && (forall k :: s.current <= k < s.nextFree ==> Owned(s, k))
  }

  predicate Owned(s: State, k: nat) {
    exists t :: 0 <= t < |s.threads| && Owns(s.threads[t], k)
  }

  predicate Owns(x: Thread, k: nat) {
    HasTicket(x) && x.ticket == k
  }

  lemma StepAccounts(s: State, a: Action)
    requires Accounted(s) && Enabled(s, a)
    ensures Accounted(Step(0, s, a))
  {
    var r := Step(0, s, a);
    StepKeepsInvariant(s, a);
    SumUpdate(s.threads, a.t, r.threads[a.t], OneIfTicket());
    assert InRange(s, s.threads[a.t]);
    forall k | r.current <= k < r.nextFree ensures Owned(r, k) {
      if k < s.nextFree {
        assert Owned(s, k);
        var t :| 0 <= t < |s.threads| && Owns(s.threads[t], k);
        assert Owns(r.threads[t], k);
      } else {
        assert Owns(r.threads[a.t], k);
      }
    }
  }

  lemma {:induction false} RunsAccount(s: State, run: seq<Action>)
    requires Accounted(s) && Legal(0, s, run)
    ensures Accounted(After(0, s, run))
    decreases |run|
  {
    if run != [] {
      StepAccounts(s, run[0]);
      RunsAccount(Step(0, s, run[0]), run[1..]);
    }
  }

  lemma InitialAccounted(n: nat)
    ensures Accounted(Initial(n))
  {
    SumOfZeros(Initial(n).threads, OneIfTicket());
  }

  lemma ReachableAccounted(n: nat, run: seq<Action>)
    requires Legal(0, Initial(n), run)
    ensures Accounted(After(0, Initial(n), run))
  {
    InitialAccounted(n);
    RunsAccount(Initial(n), run);
  }

  /** In every run, unlocking takes the lock away from its holder, and whoever has the next ticket, if somebody waits at all, can
      enter at once. */
  lemma UnlockPassesOn(n: nat, run: seq<Action>, t: nat, u: nat)
    requires Legal(0, Initial(n), run) && Enabled(After(0, Initial(n), run), Unlock(t))
    requires u < |After(0, Initial(n), run).threads| && After(0, Initial(n), run).threads[u].Waiting?
    ensures var s := After(0, Initial(n), run); var r := Step(0, s, Unlock(t));
            && r.threads[t].Outside?
            && exists v :: 0 <= v < |s.threads| && Enabled(r, Enter(v)) && s.threads[v] == Waiting(s.threads[t].ticket + 1)
  {
    ReachableAccounted(n, run);
    var s := After(0, Initial(n), run);
    assert InRange(s, s.threads[t]) && InRange(s, s.threads[u]) && Distinct(s, t, u);
    assert Owned(s, s.current + 1);
    var v :| 0 <= v < |s.threads| && Owns(s.threads[v], s.current + 1);
    assert InRange(s, s.threads[v]);
    assert Enabled(Step(0, s, Unlock(t)), Enter(v));
  }

  /** The three steps of a tryLock that nobody interferes with; it ends early when the tickets differ. */
  function TriedLock(s: State, t: nat): State
    requires t < |s.threads| && s.threads[t].Outside?
  {
    var read := Step(0, s, ReadNext(t));
    var compared := Step(0, read, Compare(t));
    if compared.threads[t].Matched? then Step(0, compared, Exchange(t)) else compared
  }

  /** In every run, such a tryLock gets the lock exactly if nobody holds it or waits for it, and otherwise leaves everything as it
      was. */
  lemma TryLockSucceedsExactly(n: nat, run: seq<Action>, t: nat)
    requires Legal(0, Initial(n), run)
    requires t < |After(0, Initial(n), run).threads| && After(0, Initial(n), run).threads[t].Outside?
    ensures var s := After(0, Initial(n), run); var r := TriedLock(s, t);
            if forall u :: 0 <= u < |s.threads| ==> !HasTicket(s.threads[u])
            then r.threads == s.threads[t := Holding(s.nextFree)] && r.nextFree == s.nextFree + 1 && r.current == s.current
            else r == s
  {
    ReachableAccounted(n, run);
    var s := After(0, Initial(n), run);
    assert s.threads[t := Outside] == s.threads;
    if s.current < s.nextFree {
      assert Owned(s, s.current);
    } else {
      forall u | 0 <= u < |s.threads| ensures !HasTicket(s.threads[u]) {
        assert InRange(s, s.threads[u]);
      }
    }
  }

  /** Whenever somebody waits, somebody holds the lock or can enter it. */
  lemma NobodyWaitsForNothing(n: nat, run: seq<Action>, t: nat)
    requires Legal(0, Initial(n), run)
    requires var s := After(0, Initial(n), run); t < |s.threads| && s.threads[t].Waiting?
    ensures var s := After(0, Initial(n), run);
            exists u :: 0 <= u < |s.threads| && (s.threads[u].Holding? || Enabled(s, Enter(u)))
  {
    ReachableAccounted(n, run);
    var s := After(0, Initial(n), run);
    assert InRange(s, s.threads[t]);
    assert Owned(s, s.current);
    var u :| 0 <= u < |s.threads| && Owns(s.threads[u], s.current);
    assert s.threads[u].Holding? || Enabled(s, Enter(u));
  }

  // ---- tickets that wrap around ----

  function WrapThread(width: nat, x: Thread): Thread
    requires width > 0
  {
    if x.Outside? then x
    else if x.Waiting? then Waiting(x.ticket % width)
    else if x.Holding? then Holding(x.ticket % width)
    else if x.Reading? then Reading(x.ticket % width)
    else Matched(x.ticket % width)
  }

  function Wrap(width: nat, s: State): State
    requires width > 0
  {
    State(s.current % width, s.nextFree % width,
          seq(|s.threads|, i requires 0 <= i < |s.threads| => WrapThread(width, s.threads[i])))
  }

  predicate LockOrUnlock(a: Action) {
    a.Lock? || a.Enter? || a.Unlock?
  }

  predicate OnlyLockAndUnlock(run: seq<Action>) {
    forall i :: 0 <= i < |run| ==> LockOrUnlock(run[i])
  }

  lemma {:induction false} AtMostOneEach(s: seq<Thread>)
    ensures Sum(s, OneIfTicket()) <= |s|
  {
    if s != [] {
      AtMostOneEach(s[..|s| - 1]);
    }
  }

  lemma CloseTickets(current: nat, ticket: nat, width: nat)
    requires current <= ticket < current + width
    ensures ticket % width == current % width <==> ticket == current
  {
    if ticket % width == current % width {
      SameClass(current, ticket, width);
    }
  }

  lemma WrapSuccessor(x: nat, width: nat)
    requires width > 0
    ensures (x % width + 1) % width == (x + 1) % width
  {
    SameRemainder(x, 1, width);
  }

  /** With no more threads than ticket values, the wrapped lock does step by step what the unbounded one does. */
  lemma WrappedStep(width: nat, s: State, a: Action)
    requires width > 0 && Accounted(s) && |s.threads| <= width && LockOrUnlock(a)
    ensures Enabled(s, a) <==> Enabled(Wrap(width, s), a)
    ensures Enabled(s, a) ==> Wrap(width, Step(0, s, a)) == Step(width, Wrap(width, s), a)
  {
    AtMostOneEach(s.threads);
    if a.t < |s.threads| && s.threads[a.t].Waiting? {
      assert InRange(s, s.threads[a.t]);
      CloseTickets(s.current, s.threads[a.t].ticket, width);
    }
    if Enabled(s, a) {
      WrapSuccessor(s.nextFree, width);
      WrapSuccessor(s.current, width);
      var r, q := Wrap(width, Step(0, s, a)), Step(width, Wrap(width, s), a);
      assert r.threads == q.threads;
    }
  }

  /** So the two have the same runs, and corresponding states at the end of them. */
  lemma {:induction false} WrappedRun(width: nat, s: State, run: seq<Action>)
    requires width > 0 && Accounted(s) && |s.threads| <= width && OnlyLockAndUnlock(run)
    ensures Legal(0, s, run) <==> Legal(width, Wrap(width, s), run)
    ensures Legal(0, s, run) ==> After(width, Wrap(width, s), run) == Wrap(width, After(0, s, run))
    ensures Legal(0, s, run) ==> |After(0, s, run).threads| == |s.threads|
    decreases |run|
  {
    if run != [] {
      assert LockOrUnlock(run[0]);
      WrappedStep(width, s, run[0]);
      if Enabled(s, run[0]) {
        StepAccounts(s, run[0]);
        WrappedRun(width, Step(0, s, run[0]), run[1..]);
      }
    }
  }

  predicate AtMostOneHolds(s: State) {
    forall t, u :: 0 <= t < u < |s.threads| ==> !(s.threads[t].Holding? && s.threads[u].Holding?)
  }

  lemma WrappedExclusion(width: nat, n: nat, run: seq<Action>)
    requires 0 < width && n <= width && OnlyLockAndUnlock(run) && Legal(width, Initial(n), run)
    ensures AtMostOneHolds(After(width, Initial(n), run))
  {
    assert Wrap(width, Initial(n)).threads == Initial(n).threads;
    InitialAccounted(n);
    WrappedRun(width, Initial(n), run);
    var s, w := After(0, Initial(n), run), After(width, Initial(n), run);
    forall t, u | 0 <= t < u < |w.threads| ensures !(w.threads[t].Holding? && w.threads[u].Holding?) {
      if s.threads[t].Holding? {
        MutualExclusionInOrder(n, run, t, u);
      }
    }
  }

  // ---- how far the guarantee goes ----

  lemma {:induction false} OneMoreStep(width: nat, s: State, run: seq<Action>, a: Action)
    requires Legal(width, s, run) && Enabled(After(width, s, run), a)
    ensures Legal(width, s, run + [a]) && After(width, s, run + [a]) == Step(width, After(width, s, run), a)
    decreases |run|
  {
    if run == [] {
      assert (run + [a])[1..] == [];
    } else {
      OneMoreStep(width, Step(width, s, run[0]), run[1..], a);
      assert (run + [a])[1..] == run[1..] + [a];
    }
  }

  function AllWaiting(width: nat, n: nat, k: nat): State
    requires 0 < width && k <= n
  {
    State(0, k % width, seq(n, i requires 0 <= i < n => if i < k then Waiting(i % width) else Outside))
  }

  /** The first k of n threads take a ticket. */
  lemma {:induction false} TakeTickets(width: nat, n: nat, k: nat) returns (run: seq<Action>)
    requires 0 < width && k <= n
    ensures OnlyLockAndUnlock(run) && Legal(width, Initial(n), run)
    ensures After(width, Initial(n), run) == AllWaiting(width, n, k)
  {
    if k == 0 {
      run := [];
      assert Initial(n).threads == AllWaiting(width, n, 0).threads;
    } else {
      run := TakeTickets(width, n, k - 1);
      OneMoreStep(width, Initial(n), run, Lock(k - 1));
      WrapSuccessor(k - 1, width);
      assert Step(width, AllWaiting(width, n, k - 1), Lock(k - 1)).threads == AllWaiting(width, n, k).threads;
      run := run + [Lock(k - 1)];
    }
  }

  /** One thread too many shares its ticket with the first. */
  lemma TooManyThreads(width: nat, n: nat) returns (run: seq<Action>)
    requires 0 < width < n
    ensures OnlyLockAndUnlock(run) && Legal(width, Initial(n), run)
    ensures !AtMostOneHolds(After(width, Initial(n), run))
  {
    run := TakeTickets(width, n, width + 1);
    var s := AllWaiting(width, n, width + 1);
    Quotient(width, width, 1, 0);
    OneMoreStep(width, Initial(n), run, Enter(0));
    run := run + [Enter(0)];
    OneMoreStep(width, Initial(n), run, Enter(width));
    run := run + [Enter(width)];
    var r := After(width, Initial(n), run);
    assert r.threads[0].Holding? && r.threads[width].Holding?;
  }

  /** Without tryLock, tickets of a given width exclude each other in all runs of n threads exactly when there is a
      ticket value for every thread. */
  lemma WrappedExclusionExactly(width: nat, n: nat)
    requires 0 < width
    ensures (forall run :: OnlyLockAndUnlock(run) && Legal(width, Initial(n), run) ==> AtMostOneHolds(After(width, Initial(n), run)))
       <==> n <= width
  {
    if n <= width {
      forall run | OnlyLockAndUnlock(run) && Legal(width, Initial(n), run)
        ensures AtMostOneHolds(After(width, Initial(n), run))
      {
        WrappedExclusion(width, n, run);
      }
    } else {
      var run := TooManyThreads(width, n);
    }
  }
}
