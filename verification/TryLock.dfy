/** The ticket lock with wrapped tickets when threads also use tryLock, which reads the next free ticket, compares it with
    the current one, and takes it if it is still free. */
module TryLock {
  import opened Sums
  import opened Division
  import opened TicketLock

  // ---- tickets issued during a tryLock ----

  predicate Issues(s: State, a: Action)
    requires Enabled(s, a)
  {
    a.Lock? || (a.Exchange? && s.threads[a.t].ticket == s.nextFree)
  }

  /** For every thread, the number of tickets issued since it last read the next free one. */
  function Counted(s: State, a: Action, since: seq<nat>): (r: seq<nat>)
    requires Enabled(s, a)
    ensures |r| == |since|
  {
    seq(|since|, i requires 0 <= i < |since| => if a == ReadNext(i) then 0 else since[i] + if Issues(s, a) then 1 else 0)
  }

  /** A step of tryLock comes in time: fewer than `limit` tickets have been issued since it began. */
  predicate InTime(a: Action, since: seq<nat>, limit: nat) {
    (a.Compare? || a.Exchange?) && a.t < |since| ==> since[a.t] < limit
  }

  /** A run in which fewer than `limit` tickets are issued between the beginning of a tryLock and each of its steps. */
  predicate Prompt(width: nat, limit: nat, s: State, run: seq<Action>, since: seq<nat>)
    requires Legal(width, s, run)
    decreases |run|
  {
    run != [] ==>
      InTime(run[0], since, limit) && Prompt(width, limit, Step(width, s, run[0]), run[1..], Counted(s, run[0], since))
  }

  function Zeros(n: nat): seq<nat> {
    seq(n, _ => 0)
  }

  predicate PromptRun(width: nat, limit: nat, n: nat, run: seq<Action>) {
    Legal(width, Initial(n), run) && Prompt(width, limit, Initial(n), run, Zeros(n))
  }

  // ---- prompt runs are runs on unbounded tickets ----

  /** The ticket that a thread has read is as far behind the next free one as there were tickets issued, and no more than
      one round ahead of the current one. */
  predicate Tracks(width: nat, s: State, since: seq<nat>) {
    |since| == |s.threads| && forall t :: 0 <= t < |since| ==> TracksThread(width, s, s.threads[t], since[t])
  }

  predicate TracksThread(width: nat, s: State, x: Thread, since: nat) {
    && (x.Reading? ==> x.ticket + since == s.nextFree && x.ticket < s.current + width)
    && (x.Matched? ==> x.ticket + since == s.nextFree)
  }

  lemma RoomForOne(s: State, t: nat)
    requires Accounted(s) && t < |s.threads| && s.threads[t].Outside?
    ensures s.nextFree - s.current < |s.threads|
  {
    SumUpdate(s.threads, t, Waiting(0), OneIfTicket());
    AtMostOneEach(s.threads[t := Waiting(0)]);
  }

  lemma NearTickets(a: nat, b: nat, width: nat)
    requires a < b + width && b < a + width
    ensures a % width == b % width <==> a == b
  {
    if a <= b {
      CloseTickets(a, b, width);
    } else {
      CloseTickets(b, a, width);
    }
  }

  /** The comparisons of tryLock give on wrapped tickets what they give on unbounded ones. */
  lemma SameComparisons(width: nat, s: State, since: seq<nat>, t: nat)
    requires width > 0 && Accounted(s) && Tracks(width, s, since) && t < |s.threads| && since[t] < width
    ensures var x := s.threads[t];
            && (x.Reading? ==> (x.ticket % width == s.current % width <==> x.ticket == s.current))
            && (x.Matched? ==> (x.ticket % width == s.nextFree % width <==> x.ticket == s.nextFree))
  {
    var x := s.threads[t];
    assert InRange(s, x) && TracksThread(width, s, x, since[t]);
    if x.Reading? {
      NearTickets(x.ticket, s.current, width);
    } else if x.Matched? {
      NearTickets(x.ticket, s.nextFree, width);
    }
  }

  lemma PromptStep(width: nat, s: State, a: Action, since: seq<nat>)
    requires width > 0 && Accounted(s) && |s.threads| <= width && Tracks(width, s, since) && InTime(a, since, width)
    requires Enabled(Wrap(width, s), a)
    ensures Enabled(s, a) && Wrap(width, Step(0, s, a)) == Step(width, Wrap(width, s), a)
    ensures Counted(s, a, since) == Counted(Wrap(width, s), a, since)
  {
    if LockOrUnlock(a) {
      WrappedStep(width, s, a);
    } else {
      if !a.ReadNext? {
        SameComparisons(width, s, since, a.t);
      }
      WrapSuccessor(s.nextFree, width);
      assert Wrap(width, Step(0, s, a)).threads == Step(width, Wrap(width, s), a).threads;
    }
  }

  lemma TracksKept(width: nat, s: State, a: Action, since: seq<nat>)
    requires width > 0 && Accounted(s) && |s.threads| <= width && Tracks(width, s, since) && Enabled(s, a)
    ensures Tracks(width, Step(0, s, a), Counted(s, a, since))
  {
    var r := Step(0, s, a);
    if a.ReadNext? {
      RoomForOne(s, a.t);
    }
    forall t | 0 <= t < |since| ensures TracksThread(width, r, r.threads[t], Counted(s, a, since)[t]) {
      assert TracksThread(width, s, s.threads[t], since[t]);
    }
  }

  lemma {:induction false} PromptRunIsUnbounded(width: nat, s: State, run: seq<Action>, since: seq<nat>)
    requires width > 0 && Accounted(s) && |s.threads| <= width && Tracks(width, s, since)
    requires Legal(width, Wrap(width, s), run) && Prompt(width, width, Wrap(width, s), run, since)
    ensures Legal(0, s, run) && After(width, Wrap(width, s), run) == Wrap(width, After(0, s, run))
    decreases |run|
  {
    if run != [] {
      PromptStep(width, s, run[0], since);
      StepAccounts(s, run[0]);
      TracksKept(width, s, run[0], since);
      PromptRunIsUnbounded(width, Step(0, s, run[0]), run[1..], Counted(s, run[0], since));
    }
  }

  /** With a ticket value for every thread, a run of lock, tryLock and unlock in which less than a round of tickets is issued
      during any tryLock is one on unbounded tickets, and so excludes. */
  lemma PromptExclusion(width: nat, n: nat, run: seq<Action>)
    requires 0 < width && n <= width && PromptRun(width, width, n, run)
    ensures Legal(0, Initial(n), run) && After(width, Initial(n), run) == Wrap(width, After(0, Initial(n), run))
    ensures AtMostOneHolds(After(width, Initial(n), run))
  {
    assert Wrap(width, Initial(n)).threads == Initial(n).threads;
    InitialAccounted(n);
    PromptRunIsUnbounded(width, Initial(n), run, Zeros(n));
    var s, w := After(0, Initial(n), run), After(width, Initial(n), run);
    forall t, u | 0 <= t < u < |w.threads| ensures !(w.threads[t].Holding? && w.threads[u].Holding?) {
      if s.threads[t].Holding? {
        MutualExclusionInOrder(n, run, t, u);
      }
    }
  }

  // ---- and no other runs are safe ----

  lemma {:induction false} ThreadsStay(width: nat, s: State, run: seq<Action>)
    requires Legal(width, s, run)
    ensures |After(width, s, run).threads| == |s.threads|
    decreases |run|
  {
    if run != [] {
      ThreadsStay(width, Step(width, s, run[0]), run[1..]);
    }
  }

  lemma {:induction false} NothingToBeLate(width: nat, limit: nat, s: State, run: seq<Action>, since: seq<nat>)
    requires Legal(width, s, run) && OnlyLockAndUnlock(run)
    ensures Prompt(width, limit, s, run, since)
    decreases |run|
  {
    if run != [] {
      assert LockOrUnlock(run[0]);
      NothingToBeLate(width, limit, Step(width, s, run[0]), run[1..], Counted(s, run[0], since));
    }
  }

  lemma {:induction false} PromptForMore(width: nat, limit: nat, more: nat, s: State, run: seq<Action>, since: seq<nat>)
    requires Legal(width, s, run) && Prompt(width, limit, s, run, since) && limit <= more
    ensures Prompt(width, more, s, run, since)
    decreases |run|
  {
    if run != [] {
      PromptForMore(width, limit, more, Step(width, s, run[0]), run[1..], Counted(s, run[0], since));
    }
  }

  function SinceAfter(width: nat, s: State, run: seq<Action>, since: seq<nat>): (r: seq<nat>)
    requires Legal(width, s, run)
    ensures |r| == |since|
    decreases |run|
  {
    if run == [] then since else SinceAfter(width, Step(width, s, run[0]), run[1..], Counted(s, run[0], since))
  }

  lemma {:induction false} OneMorePrompt(width: nat, limit: nat, s: State, run: seq<Action>, since: seq<nat>, a: Action)
    requires Legal(width, s, run) && Enabled(After(width, s, run), a) && Prompt(width, limit, s, run, since)
    requires InTime(a, SinceAfter(width, s, run, since), limit)
    ensures Legal(width, s, run + [a]) && After(width, s, run + [a]) == Step(width, After(width, s, run), a)
    ensures Prompt(width, limit, s, run + [a], since)
    ensures SinceAfter(width, s, run + [a], since) == Counted(After(width, s, run), a, SinceAfter(width, s, run, since))
    decreases |run|
  {
    if run == [] {
      assert (run + [a])[1..] == [];
    } else {
      OneMorePrompt(width, limit, Step(width, s, run[0]), run[1..], Counted(s, run[0], since), a);
      assert (run + [a])[1..] == run[1..] + [a];
    }
  }

  /** After `run`, thread 0 has read and compared ticket 0, k tickets ago, and thread 1 is as given. */
  predicate PassedBy(width: nat, limit: nat, n: nat, run: seq<Action>, current: nat, nextFree: nat, k: nat, x: Thread) {
    n >= 2 && PromptRun(width, limit, n, run)
    && After(width, Initial(n), run) == State(current, nextFree, Initial(n).threads[0 := Matched(0)][1 := x])
    && SinceAfter(width, Initial(n), run, Zeros(n))[0] == k
  }

  lemma OtherGoesOn(width: nat, limit: nat, n: nat, run: seq<Action>, current: nat, nextFree: nat, k: nat, x: Thread, a: Action)
    returns (longer: seq<Action>)
    requires PassedBy(width, limit, n, run, current, nextFree, k, x) && a.t == 1 && LockOrUnlock(a)
    requires Enabled(After(width, Initial(n), run), a)
    ensures var r := Step(width, After(width, Initial(n), run), a);
            PassedBy(width, limit, n, longer, r.current, r.nextFree, if a.Lock? then k + 1 else k, r.threads[1])
  {
    OneMorePrompt(width, limit, Initial(n), run, Zeros(n), a);
    longer := run + [a];
    var r := Step(width, After(width, Initial(n), run), a);
    assert r.threads == Initial(n).threads[0 := Matched(0)][1 := r.threads[1]];
  }

  lemma BeginTryLock(width: nat, limit: nat, n: nat) returns (run: seq<Action>)
    requires n >= 2 && limit > 0
    ensures PassedBy(width, limit, n, run, 0, 0, 0, Outside)
  {
    var s := Initial(n);
    assert Prompt(width, limit, s, [], Zeros(n));
    OneMorePrompt(width, limit, s, [], Zeros(n), ReadNext(0));
    run := [] + [ReadNext(0)];
    OneMorePrompt(width, limit, s, run, Zeros(n), Compare(0));
    run := run + [Compare(0)];
    assert After(width, s, run).threads == s.threads[0 := Matched(0)][1 := Outside];
  }

  /** While one thread is between the two halves of tryLock, another can go through the lock k times. */
  lemma {:induction false} PassThrough(width: nat, limit: nat, n: nat, k: nat) returns (run: seq<Action>)
    requires k < width && n >= 2 && limit > 0
    ensures PassedBy(width, limit, n, run, k, k, k, Outside)
  {
    if k == 0 {
      run := BeginTryLock(width, limit, n);
    } else {
      run := PassThrough(width, limit, n, k - 1);
      Quotient(k, width, 0, k);
      run := OtherGoesOn(width, limit, n, run, k - 1, k - 1, k - 1, Outside, Lock(1));
      run := OtherGoesOn(width, limit, n, run, k - 1, k, k, Waiting(k - 1), Enter(1));
      run := OtherGoesOn(width, limit, n, run, k - 1, k, k, Holding(k - 1), Unlock(1));
    }
  }

  /** For every width and any two threads: a whole round of tickets during a tryLock goes unnoticed, and exactly a round is
      enough. */
  lemma WrappedTryLockFails(width: nat, limit: nat, n: nat) returns (run: seq<Action>)
    requires 0 < width < limit && n >= 2
    ensures PromptRun(width, limit, n, run) && !AtMostOneHolds(After(width, Initial(n), run))
  {
    run := PassThrough(width, limit, n, width - 1);
    Quotient(width, width, 1, 0);
    run := OtherGoesOn(width, limit, n, run, width - 1, width - 1, width - 1, Outside, Lock(1));
    run := OtherGoesOn(width, limit, n, run, width - 1, 0, width, Waiting(width - 1), Enter(1));
    OneMorePrompt(width, limit, Initial(n), run, Zeros(n), Exchange(0));
    run := run + [Exchange(0)];
    var r := After(width, Initial(n), run);
    assert r.threads[0].Holding? && r.threads[1].Holding?;
  }

  lemma Alone(width: nat, n: nat, run: seq<Action>)
    requires n <= 1 && Legal(width, Initial(n), run)
    ensures AtMostOneHolds(After(width, Initial(n), run))
  {
    ThreadsStay(width, Initial(n), run);
  }

  /** With tryLock, all runs exclude only when there is nobody to exclude. */
  lemma TryLockExcludesExactly(width: nat, n: nat)
    requires 0 < width
    ensures (forall run :: Legal(width, Initial(n), run) ==> AtMostOneHolds(After(width, Initial(n), run))) <==> n <= 1
  {
    if n <= 1 {
      forall run | Legal(width, Initial(n), run) ensures AtMostOneHolds(After(width, Initial(n), run)) {
        Alone(width, n, run);
      }
    } else {
      var run := WrappedTryLockFails(width, width + 1, n);
    }
  }

  /** The runs in which fewer than `limit` tickets are issued during any tryLock all exclude exactly when there is a ticket
      value for every thread and the limit is no more than one round (or there is but one thread). */
  lemma PromptTryLockExcludesExactly(width: nat, limit: nat, n: nat)
    requires 0 < width
    ensures (forall run :: PromptRun(width, limit, n, run) ==> AtMostOneHolds(After(width, Initial(n), run)))
       <==> n <= 1 || (n <= width && limit <= width)
  {
    if n <= 1 {
      forall run | PromptRun(width, limit, n, run) ensures AtMostOneHolds(After(width, Initial(n), run)) {
        Alone(width, n, run);
      }
    } else if n > width {
      var run := TooManyThreads(width, n);
      NothingToBeLate(width, limit, Initial(n), run, Zeros(n));
      assert PromptRun(width, limit, n, run);
    } else if limit > width {
      var run := WrappedTryLockFails(width, limit, n);
    } else {
      forall run | PromptRun(width, limit, n, run) ensures AtMostOneHolds(After(width, Initial(n), run)) {
        PromptForMore(width, limit, width, Initial(n), run, Zeros(n));
        PromptExclusion(width, n, run);
      }
    }
  }
}
