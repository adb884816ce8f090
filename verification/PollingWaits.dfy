/** When a call that unregisters a polling service can still return: calls can wait for callbacks, and callbacks for the
    calls that they have made. */
module PollingWaits {
  import opened Options
  import opened Polling

  // ---- calls that wait for each other ----

  predicate Untold(s: State, i: nat) {
    i < |s.calls| && !s.calls[i].told
  }

  /** The mark of the call is in the map. */
  predicate Marked(s: State, i: nat) {
    i < |s.calls| && s.calls[i].key in s.services && s.services[s.calls[i].key].discard == Some(i)
  }

  predicate Above(here: Place, there: Place) {
    here.thread == there.thread && here.depth > there.depth
  }

  /** The service of call i is in a callback from inside which call j waits: i cannot be told before j returns. */
  predicate Needs(s: State, i: nat, j: nat) {
    && Untold(s, i) && Marked(s, i) && Untold(s, j)
    && var place := s.services[s.calls[i].key].processing; place.Some? && Above(s.calls[j].place, place.value)
  }

  /** Calls of which each has lost its mark, or needs another one of them. */
  ghost predicate Knot(s: State, calls: set<nat>) {
    forall i :: i in calls ==> InKnot(s, calls, i)
  }

  ghost predicate InKnot(s: State, calls: set<nat>, i: nat) {
    Untold(s, i) && (Marked(s, i) ==> exists j :: j in calls && Needs(s, i, j))
  }

  lemma KnotStep(s: State, a: Action, calls: set<nat>, i: nat)
    requires Invariant(s) && Enabled(s, a) && Knot(s, calls) && i in calls
    ensures Untold(Step(s, a), i)
  {
    assert InKnot(s, calls, i) && CallSound(s, i);
    if !a.Register? && Active(s, a.t) {
      TopSound(s, a.t);
    }
    if Marked(s, i) {
      var j :| j in calls && Needs(s, i, j);
      assert CallSound(s, j) && ServiceSound(s, s.calls[i].key);
    }
  }

  /** A knot is never untied. */
  lemma KnotKept(s: State, a: Action, calls: set<nat>)
    requires Invariant(s) && Enabled(s, a) && Knot(s, calls)
    ensures Knot(Step(s, a), calls)
  {
    var r := Step(s, a);
    forall i | i in calls ensures InKnot(r, calls, i) {
      assert InKnot(s, calls, i);
      KnotStep(s, a, calls, i);
      if Marked(r, i) {
        var j :| j in calls && Needs(s, i, j);
        KnotStep(s, a, calls, j);
        NeedKept(s, a, i, j);
      }
    }
  }

  lemma NeedKept(s: State, a: Action, i: nat, j: nat)
    requires Invariant(s) && Enabled(s, a) && Needs(s, i, j) && Untold(Step(s, a), i) && Untold(Step(s, a), j) && Marked(Step(s, a), i)
    ensures Needs(Step(s, a), i, j)
  {
    var key := s.calls[i].key;
    OnlyItsCallerEnds(s, a, key);
    assert CallSound(s, j) && ServiceSound(s, key);
    if !a.Register? && Active(s, a.t) {
      TopSound(s, a.t);
    }
  }

  lemma {:induction false} KnotForever(s: State, run: seq<Action>, calls: set<nat>)
    requires Invariant(s) && Legal(s, run) && Knot(s, calls)
    ensures Knot(After(s, run), calls)
    decreases |run|
  {
    if run != [] {
      StepKeepsInvariant(s, run[0]);
      KnotKept(s, run[0], calls);
      KnotForever(Step(s, run[0]), run[1..], calls);
    }
  }

  // ---- runs that only let things come to their end ----

  predicate SameButTold(s: State, r: State, i: nat)
    requires i < |s.calls| == |r.calls|
  {
    r.calls[i] == s.calls[i].(told := r.calls[i].told) && (s.calls[i].told ==> r.calls[i].told)
  }

  /** Services stay as they are, but for callbacks that have ended; a marked one disappears only when its call is told. */
  predicate SameOrGone(s: State, r: State, key: nat) {
    && (key in r.services ==> key in s.services && r.services[key].node == s.services[key].node && r.services[key].discard == s.services[key].discard)
    && (key in s.services && key !in r.services && s.services[key].discard.Some? ==> IsTold(r, s.services[key].discard.value))
  }

  ghost predicate Calms(s: State, r: State) {
    && |r.calls| == |s.calls| && (forall i :: 0 <= i < |s.calls| ==> SameButTold(s, r, i))
    && (forall key: nat :: SameOrGone(s, r, key))
  }

  predicate IsPrefix(a: seq<Frame>, b: seq<Frame>) {
    |a| <= |b| && a == b[..|a|]
  }

  /** Some calls have been told, some activities have ended, and nothing else has happened. */
  ghost predicate Calmer(s: State, r: State) {
    Calms(s, r) && |r.stacks| == |s.stacks| && forall t :: 0 <= t < |s.stacks| ==> IsPrefix(r.stacks[t], s.stacks[t])
  }

  lemma CalmsTransitive(s: State, r: State, q: State)
    requires Calms(s, r) && Calms(r, q)
    ensures Calms(s, q)
  {
    forall i | 0 <= i < |s.calls| ensures SameButTold(s, q, i) {
      assert SameButTold(s, r, i) && SameButTold(r, q, i);
    }
    forall key: nat ensures SameOrGone(s, q, key) {
      assert SameOrGone(s, r, key) && SameOrGone(r, q, key);
      if key in s.services && key !in r.services && s.services[key].discard.Some? {
        assert SameButTold(r, q, s.services[key].discard.value);
      }
    }
  }

  lemma CalmerTransitive(s: State, r: State, q: State)
    requires Calmer(s, r) && Calmer(r, q)
    ensures Calmer(s, q)
  {
    CalmsTransitive(s, r, q);
    forall t | 0 <= t < |s.stacks| ensures IsPrefix(q.stacks[t], s.stacks[t]) {
      assert IsPrefix(r.stacks[t], s.stacks[t]) && IsPrefix(q.stacks[t], r.stacks[t]);
    }
  }

  /** Marks are neither made nor lost, and nobody needs anybody anew. */
  lemma CalmerNeeds(s: State, r: State, i: nat, j: nat)
    requires Invariant(s) && Invariant(r) && Calmer(s, r) && i < |s.calls|
    ensures Untold(r, i) ==> Untold(s, i) && (Marked(s, i) <==> Marked(r, i))
    ensures Needs(r, i, j) ==> Needs(s, i, j)
  {
    assert SameButTold(s, r, i) && SameOrGone(s, r, s.calls[i].key);
    if Needs(r, i, j) {
      assert SameButTold(s, r, j) && ServiceSound(r, r.calls[i].key);
      var place := r.services[r.calls[i].key].processing.value;
      assert IsPrefix(r.stacks[place.thread], s.stacks[place.thread]);
      assert FrameSound(s, place.thread, place.depth);
    }
  }

  lemma CalmerKnot(s: State, r: State, calls: set<nat>)
    requires Invariant(s) && Invariant(r) && Calmer(s, r) && Knot(r, calls)
    ensures Knot(s, calls)
  {
    forall i | i in calls ensures InKnot(s, calls, i) {
      assert InKnot(r, calls, i);
      CalmerNeeds(s, r, i, i);
      if Marked(r, i) {
        var j :| j in calls && Needs(r, i, j);
        CalmerNeeds(s, r, i, j);
      }
    }
  }

  lemma Prepended(s: State, a: Action, run: seq<Action>)
    requires Enabled(s, a) && Legal(Step(s, a), run)
    ensures Legal(s, [a] + run) && After(s, [a] + run) == After(Step(s, a), run)
  {
    assert ([a] + run)[1..] == run;
  }

  lemma {:induction false} Concatenated(s: State, first: seq<Action>, second: seq<Action>)
    requires Legal(s, first) && Legal(After(s, first), second)
    ensures Legal(s, first + second) && After(s, first + second) == After(After(s, first), second)
    decreases |first|
  {
    if first == [] {
      assert first + second == second;
    } else {
      Concatenated(Step(s, first[0]), first[1..], second);
      Prepended(s, first[0], first[1..] + second);
      assert first + second == [first[0]] + (first[1..] + second);
    }
  }

  lemma {:induction false} FindNext(services: map<nat, Service>, from: nat, key: nat) returns (next: nat)
    requires key in services && from <= key
    ensures IsNext(services, from, next) && next <= key
    decreases key
  {
    if k :| k in services && from <= k < key {
      next := FindNext(services, from, k);
    } else {
      next := key;
    }
  }

  lemma {:induction false} FindBound(keys: set<nat>) returns (bound: nat)
    ensures forall k :: k in keys ==> k < bound
  {
    if k :| k in keys {
      var rest := keys - {k};
      bound := FindBound(rest);
      if bound <= k {
        bound := k + 1;
      }
      assert keys == rest + {k};
    } else {
      bound := 0;
    }
  }

  /** The scan of t has gone on to `next`; the services, but for one at most, are as before. */
  ghost predicate WentOn(s: State, r: State, t: nat, next: nat) {
    && Calms(s, r) && Active(s, t) && r.holder == Some(t)
    && r.stacks == s.stacks[t := s.stacks[t][|s.stacks[t]| - 1 := Scanning(next + 1)]]
  }

  lemma TopTwice(stacks: seq<seq<Frame>>, t: nat, f: Frame, g: Frame)
    requires t < |stacks| && stacks[t] != []
    ensures var k := |stacks[t]| - 1; stacks[t := stacks[t][k := f][k := g]] == stacks[t := stacks[t][k := g]]
  {
    var k := |stacks[t]| - 1;
    assert stacks[t][k := f][k := g] == stacks[t][k := g];
  }

  lemma EraseOne(s: State, t: nat, next: nat) returns (run: seq<Action>)
    requires Invariant(s) && Enabled(s, Condemn(t, next))
    ensures Legal(s, run) && Invariant(After(s, run)) && WentOn(s, After(s, run), t, next)
    ensures After(s, run).services == s.services - {next} && IsTold(After(s, run), s.services[next].discard.value)
  {
    var a, b := Condemn(t, next), Erase(t);
    assert ServiceSound(s, next);
    var s1 := Step(s, a);
    var s2 := Step(s1, b);
    StepKeepsInvariant(s, a);
    StepKeepsInvariant(s1, b);
    Prepended(s1, b, []);
    Prepended(s, a, [b] + []);
    run := [a] + ([b] + []);
    TopTwice(s.stacks, t, Erasing(next), Scanning(next + 1));
    forall i | 0 <= i < |s.calls| ensures SameButTold(s, s2, i) { }
  }

  lemma CallOne(s: State, t: nat, next: nat) returns (run: seq<Action>)
    requires Invariant(s) && Enabled(s, Call(t, next))
    ensures Legal(s, run) && Invariant(After(s, run)) && WentOn(s, After(s, run), t, next) && After(s, run).services == s.services
  {
    var a, b := Call(t, next), Resume(t);
    var s1 := Step(s, a);
    var s2 := Step(s1, b);
    StepKeepsInvariant(s, a);
    StepKeepsInvariant(s1, b);
    Prepended(s1, b, []);
    Prepended(s, a, [b] + []);
    run := [a] + ([b] + []);
    TopTwice(s.stacks, t, Calling(next, s.services[next].node), Scanning(next + 1));
    assert s2.services == s.services;
  }

  /** One service of a scan, whose callback returns at once. */
  lemma SweepOne(s: State, t: nat, next: nat) returns (run: seq<Action>)
    requires Invariant(s) && Stands(s, t, next)
    ensures Legal(s, run) && Invariant(After(s, run)) && WentOn(s, After(s, run), t, next)
    ensures var r := After(s, run);
            if s.services[next].processing.None? && s.services[next].discard.Some?
            then r.services == s.services - {next} && IsTold(r, s.services[next].discard.value)
            else r.services == s.services
  {
    if s.services[next].processing.Some? {
      var a := Skip(t, next);
      StepKeepsInvariant(s, a);
      Prepended(s, a, []);
      run := [a] + [];
    } else if s.services[next].discard.Some? {
      run := EraseOne(s, t, next);
    } else {
      run := CallOne(s, t, next);
    }
  }

  /** What a scan from `from` on leaves behind. */
  ghost predicate Swept(s: State, r: State, t: nat, from: nat) {
    && Calms(s, r) && r.holder.None? && Active(s, t) && r.stacks == s.stacks[t := s.stacks[t][..|s.stacks[t]| - 1]]
    && (forall key :: key in s.services && from <= key ==> Served(s, r, key))
  }

  /** A marked service whose callback is not running has been erased, and its call has been told. */
  predicate Served(s: State, r: State, key: nat)
    requires key in s.services
  {
    s.services[key].processing.None? && s.services[key].discard.Some? ==> IsTold(r, s.services[key].discard.value)
  }

  /** A scan whose callbacks return at once comes to its end, and serves all the marks it passes, except on services that
      are in a callback. */
  lemma {:induction false} Sweep(s: State, t: nat, bound: nat) returns (run: seq<Action>)
    requires Invariant(s) && Scans(s, t) && forall k :: k in s.services ==> k < bound
    ensures Legal(s, run) && Invariant(After(s, run)) && Swept(s, After(s, run), t, Top(s, t).from)
    decreases if Top(s, t).from < bound then bound - Top(s, t).from else 0
  {
    var from := Top(s, t).from;
    if k :| k in s.services && from <= k {
      var next := FindNext(s.services, from, k);
      run := SweepOne(s, t, next);
      var s1 := After(s, run);
      var rest := Sweep(s1, t, bound);
      Concatenated(s, run, rest);
      SweptOn(s, s1, After(s1, rest), t, next);
      run := run + rest;
    } else {
      var a := Leave(t);
      StepKeepsInvariant(s, a);
      Prepended(s, a, []);
      run := [a] + [];
    }
  }

  lemma SweptOn(s: State, s1: State, r: State, t: nat, next: nat)
    requires Invariant(s) && Stands(s, t, next) && WentOn(s, s1, t, next) && Active(s1, t) && Swept(s1, r, t, next + 1)
    requires if s.services[next].processing.None? && s.services[next].discard.Some?
             then s1.services == s.services - {next} && IsTold(s1, s.services[next].discard.value)
             else s1.services == s.services
    ensures Swept(s, r, t, Top(s, t).from)
  {
    CalmsTransitive(s, s1, r);
    assert r.stacks == s.stacks[t := s.stacks[t][..|s.stacks[t]| - 1]];
    forall key | key in s.services && Top(s, t).from <= key ensures Served(s, r, key) {
      if key == next {
        if s.services[next].processing.None? && s.services[next].discard.Some? {
          assert SameButTold(s1, r, s.services[next].discard.value);
        }
      } else {
        assert key in s1.services && s1.services[key] == s.services[key] && Served(s1, r, key);
      }
    }
  }

  // ---- ending what a thread is at ----

  /** The activity of polling on top of the stack of t has ended, and with it, if it was in the callback of a marked
      service, the wait for that service. */
  ghost predicate Ended(s: State, r: State, t: nat) {
    && Calms(s, r) && r.holder.None? && Active(s, t) && r.stacks == s.stacks[t := s.stacks[t][..|s.stacks[t]| - 1]]
    && (Finds(s, Top(s, t)) && s.services[Top(s, t).key].discard.Some? ==> IsTold(r, s.services[Top(s, t).key].discard.value))
  }

  /** A scan that goes on from a state in which only the top of the stack of t differs. */
  lemma SweepRest(s: State, a: Action, t: nat) returns (run: seq<Action>)
    requires Invariant(s) && Enabled(s, a) && Active(s, t) && Scans(Step(s, a), t) && Calms(s, Step(s, a))
    requires Step(s, a).stacks == s.stacks[t := s.stacks[t][|s.stacks[t]| - 1 := Top(Step(s, a), t)]]
    ensures Legal(s, run) && Invariant(After(s, run)) && Calms(s, After(s, run)) && After(s, run).holder.None?
    ensures After(s, run).stacks == s.stacks[t := s.stacks[t][..|s.stacks[t]| - 1]]
  {
    var s1 := Step(s, a);
    StepKeepsInvariant(s, a);
    var bound := FindBound(s1.services.Keys);
    var rest := Sweep(s1, t, bound);
    Prepended(s, a, rest);
    run := [a] + rest;
    CalmsTransitive(s, s1, After(s1, rest));
    assert s1.stacks[t][..|s1.stacks[t]| - 1] == s.stacks[t][..|s.stacks[t]| - 1];
    assert After(s1, rest).stacks == s.stacks[t := s.stacks[t][..|s.stacks[t]| - 1]];
  }

  lemma EraseAndSweep(s: State, t: nat) returns (run: seq<Action>)
    requires Invariant(s) && Active(s, t) && s.holder == Some(t) && Top(s, t).Erasing?
    ensures Legal(s, run) && Invariant(After(s, run)) && Calms(s, After(s, run)) && After(s, run).holder.None?
    ensures After(s, run).stacks == s.stacks[t := s.stacks[t][..|s.stacks[t]| - 1]]
  {
    TopSound(s, t);
    run := SweepRest(s, Erase(t), t);
  }

  lemma DismissAndSweep(s: State, t: nat) returns (run: seq<Action>)
    requires Invariant(s) && Calls(s, t) && Finds(s, Top(s, t)) && s.services[Top(s, t).key].discard.Some?
    ensures Legal(s, run) && Invariant(After(s, run)) && Ended(s, After(s, run), t)
  {
    TopSound(s, t);
    var a := Dismiss(t);
    var s1 := Step(s, a);
    StepKeepsInvariant(s, a);
    var rest := EraseAndSweep(s1, t);
    Prepended(s, a, rest);
    run := [a] + rest;
    var key := Top(s, t).key;
    forall i | 0 <= i < |s.calls| ensures SameButTold(s, s1, i) { }
    assert Calms(s, s1);
    CalmsTransitive(s, s1, After(s1, rest));
    assert SameButTold(s1, After(s1, rest), s.services[key].discard.value);
    assert s1.stacks[t][..|s1.stacks[t]| - 1] == s.stacks[t][..|s.stacks[t]| - 1];
    assert After(s1, rest).stacks == s.stacks[t := s.stacks[t][..|s.stacks[t]| - 1]];
  }

  lemma EndPolling(s: State, t: nat) returns (run: seq<Action>)
    requires Invariant(s) && Active(s, t) && !Top(s, t).Waiting? && (s.holder.None? || s.holder == Some(t))
    ensures Legal(s, run) && Invariant(After(s, run)) && Ended(s, After(s, run), t)
  {
    TopSound(s, t);
    match Top(s, t)
    case Scanning(_) =>
      var bound := FindBound(s.services.Keys);
      run := Sweep(s, t, bound);
    case Erasing(_) => run := EraseAndSweep(s, t);
    case Calling(key, _) =>
      if s.services[key].discard.Some? {
        run := DismissAndSweep(s, t);
      } else {
        run := SweepRest(s, Resume(t), t);
      }
  }

  lemma EndedIsCalmer(s: State, r: State, t: nat)
    requires Ended(s, r, t)
    ensures Calmer(s, r)
  {
    forall u | 0 <= u < |s.stacks| ensures IsPrefix(r.stacks[u], s.stacks[u]) { }
  }

  /** Whoever holds the lock gives it up in the end. */
  lemma FreeTheLock(s: State) returns (run: seq<Action>)
    requires Invariant(s)
    ensures Legal(s, run) && Invariant(After(s, run)) && Calmer(s, After(s, run)) && After(s, run).holder.None?
  {
    if s.holder.None? {
      run := [];
      Unchanged(s);
    } else {
      run := EndPolling(s, s.holder.value);
      EndedIsCalmer(s, After(s, run), s.holder.value);
    }
  }

  lemma Unchanged(s: State)
    ensures Calmer(s, s)
  {
  }

  /** No call waits untold at depth d or above. */
  predicate NobodyAbove(s: State, t: nat, d: nat)
    requires t < |s.stacks|
  {
    forall k :: d <= k < |s.stacks[t]| && s.stacks[t][k].Waiting? ==> IsTold(s, s.stacks[t][k].call)
  }

  /** What is nested in a thread at depth d and above can come to its end. */
  lemma {:induction false} Unwind(s: State, t: nat, d: nat) returns (run: seq<Action>)
    requires Invariant(s) && s.holder.None? && t < |s.stacks| && d <= |s.stacks[t]| && NobodyAbove(s, t, d)
    ensures Legal(s, run) && Invariant(After(s, run)) && Calmer(s, After(s, run)) && After(s, run).holder.None?
    ensures After(s, run).stacks == s.stacks[t := s.stacks[t][..d]]
    decreases |s.stacks[t]|
  {
    if d == |s.stacks[t]| {
      run := [];
      Unchanged(s);
      assert s.stacks[t][..d] == s.stacks[t];
    } else {
      if Top(s, t).Waiting? {
        StepKeepsInvariant(s, Return(t));
        Prepended(s, Return(t), []);
        run := [Return(t)] + [];
        ReturnIsCalmer(s, t);
      } else {
        run := EndPolling(s, t);
        EndedIsCalmer(s, After(s, run), t);
      }
      var r := After(s, run);
      var rest := UnwindRest(s, r, t, d);
      Concatenated(s, run, rest);
      CalmerTransitive(s, r, After(r, rest));
      run := run + rest;
    }
  }

  lemma ReturnIsCalmer(s: State, t: nat)
    requires Enabled(s, Return(t))
    ensures Calmer(s, Step(s, Return(t)))
  {
  }

  lemma {:induction false} UnwindRest(s: State, r: State, t: nat, d: nat) returns (run: seq<Action>)
    requires Invariant(r) && Calmer(s, r) && r.holder.None? && t < |s.stacks| && d < |s.stacks[t]| && NobodyAbove(s, t, d)
    requires r.stacks == s.stacks[t := s.stacks[t][..|s.stacks[t]| - 1]]
    ensures Legal(r, run) && Invariant(After(r, run)) && Calmer(r, After(r, run)) && After(r, run).holder.None?
    ensures After(r, run).stacks == s.stacks[t := s.stacks[t][..d]]
    decreases |s.stacks[t]|, 0
  {
    forall k | d <= k < |r.stacks[t]| && r.stacks[t][k].Waiting? ensures IsTold(r, r.stacks[t][k].call) {
      assert r.stacks[t][k] == s.stacks[t][k];
      assert SameButTold(s, r, s.stacks[t][k].call);
    }
    run := Unwind(r, t, d);
    assert r.stacks[t][..d] == s.stacks[t][..d];
    assert After(r, run).stacks == s.stacks[t := s.stacks[t][..d]];
  }

  // ---- calls that no knot holds up can return ----

  /** A run that tells call j, and otherwise only lets things come to their end. */
  ghost predicate Tells(s: State, run: seq<Action>, j: nat) {
    Legal(s, run) && Invariant(After(s, run)) && Calmer(s, After(s, run)) && IsTold(After(s, run), j)
  }

  lemma TellsAfter(s: State, first: seq<Action>, second: seq<Action>, j: nat)
    requires Legal(s, first) && Calmer(s, After(s, first)) && Tells(After(s, first), second, j)
    ensures Tells(s, first + second, j)
  {
    Concatenated(s, first, second);
    CalmerTransitive(s, After(s, first), After(After(s, first), second));
  }

  /** The callback of the marked service itself tells the call, when nothing above it waits. */
  lemma CallbackTells(s: State, j: nat) returns (run: seq<Action>)
    requires Invariant(s) && s.holder.None? && Untold(s, j) && Marked(s, j) && s.services[s.calls[j].key].processing.Some?
    requires forall i: nat :: !Needs(s, j, i)
    ensures Tells(s, run, j)
  {
    var key := s.calls[j].key;
    assert ServiceSound(s, key);
    var place := s.services[key].processing.value;
    var t, d := place.thread, place.depth + 1;
    forall k | d <= k < |s.stacks[t]| && s.stacks[t][k].Waiting? ensures IsTold(s, s.stacks[t][k].call) {
      assert FrameSound(s, t, k);
      assert !Needs(s, j, s.stacks[t][k].call);
    }
    run := Unwind(s, t, d);
    var r := After(s, run);
    assert SameButTold(s, r, j) && SameOrGone(s, r, key);
    if !IsTold(r, j) {
      assert Top(r, t) == s.stacks[t][place.depth];
      var rest := EndPolling(r, t);
      EndedIsCalmer(r, After(r, rest), t);
      TopSound(r, t);
      TellsAfter(s, run, rest, j);
      run := run + rest;
    }
  }

  /** A scan tells the call when its service is not in a callback; the thread that made the call can make that scan. */
  lemma ScanTells(s: State, j: nat, t: nat) returns (run: seq<Action>)
    requires Invariant(s) && s.holder.None? && Untold(s, j) && Marked(s, j) && s.services[s.calls[j].key].processing.None?
    requires Polls(s, t)
    ensures Tells(s, run, j)
  {
    var a := TryLock(t);
    var s1 := Step(s, a);
    StepKeepsInvariant(s, a);
    var bound := FindBound(s1.services.Keys);
    var rest := Sweep(s1, t, bound);
    var r := After(s1, rest);
    Prepended(s, a, rest);
    run := [a] + rest;
    assert Served(s1, r, s.calls[j].key);
    assert s1.stacks[t][..|s1.stacks[t]| - 1] == s.stacks[t];
    assert r.stacks == s.stacks;
    forall i | 0 <= i < |s.calls| ensures SameButTold(s, r, i) { assert SameButTold(s1, r, i); }
    forall key: nat ensures SameOrGone(s, r, key) { assert SameOrGone(s1, r, key); }
  }

  lemma CallerTells(s: State, j: nat) returns (run: seq<Action>)
    requires Invariant(s) && s.holder.None? && Untold(s, j) && Marked(s, j) && s.services[s.calls[j].key].processing.None?
    ensures Tells(s, run, j)
  {
    assert CallSound(s, j);
    var t := s.calls[j].place.thread;
    TopSound(s, t);
    if Top(s, t).Waiting? {
      run := ScanTells(s, j, t);
    } else {
      run := EndPolling(s, t);
      var r := After(s, run);
      EndedIsCalmer(s, r, t);
      StillIdle(s, r, j);
      if !IsTold(r, j) {
        PollsAfterwards(s, r, t, j);
        var rest := ScanTells(r, j, t);
        TellsAfter(s, run, rest, j);
        run := run + rest;
      }
    }
  }

  /** A service that is not in a callback does not get into one. */
  lemma StillIdle(s: State, r: State, j: nat)
    requires Invariant(s) && Invariant(r) && Calmer(s, r) && Untold(s, j) && Marked(s, j) && s.services[s.calls[j].key].processing.None?
    ensures j < |r.calls| && (IsTold(r, j) || (Untold(r, j) && Marked(r, j) && r.services[r.calls[j].key].processing.None?))
  {
    var key := s.calls[j].key;
    assert SameButTold(s, r, j) && SameOrGone(s, r, key);
    if !IsTold(r, j) && r.services[key].processing.Some? {
      assert ServiceSound(r, key);
      var place := r.services[key].processing.value;
      assert IsPrefix(r.stacks[place.thread], s.stacks[place.thread]);
      assert FrameSound(s, place.thread, place.depth);
    }
  }

  /** Below an activity of polling there is a call that waits. */
  lemma PollsAfterwards(s: State, r: State, t: nat, j: nat)
    requires Invariant(s) && Invariant(r) && Active(s, t) && !Top(s, t).Waiting? && r.stacks == s.stacks[t := s.stacks[t][..|s.stacks[t]| - 1]]
    requires Untold(s, j) && s.calls[j].place.thread == t
    ensures Polls(r, t)
  {
    assert CallSound(s, j);
    var k := |s.stacks[t]| - 2;
    assert FrameSound(s, t, k);
    assert r.stacks[t][k] == s.stacks[t][k];
  }

  /** A call that has its mark and needs no other can be told. */
  lemma TellOne(s: State, j: nat) returns (run: seq<Action>)
    requires Invariant(s) && Untold(s, j) && Marked(s, j) && forall i: nat :: !Needs(s, j, i)
    ensures Tells(s, run, j)
  {
    run := FreeTheLock(s);
    var r := After(s, run);
    assert SameButTold(s, r, j);
    if !IsTold(r, j) {
      CalmerNeeds(s, r, j, j);
      forall i: nat ensures !Needs(r, j, i) {
        CalmerNeeds(s, r, j, i);
      }
      var rest: seq<Action>;
      if r.services[r.calls[j].key].processing.Some? {
        rest := CallbackTells(r, j);
      } else {
        rest := CallerTells(r, j);
      }
      TellsAfter(s, run, rest, j);
      run := run + rest;
    }
  }

  /** No knot holds the call up. */
  ghost predicate Loose(s: State, i: nat) {
    forall calls: set<nat> :: Knot(s, calls) ==> i !in calls
  }

  lemma LooseIsMarked(s: State, i: nat)
    requires Untold(s, i) && Loose(s, i)
    ensures Marked(s, i)
  {
    if !Marked(s, i) {
      assert InKnot(s, {i}, i);
      assert Knot(s, {i});
    }
  }

  lemma NeededIsLoose(s: State, i: nat, j: nat)
    requires Loose(s, i) && Needs(s, i, j)
    ensures Loose(s, j)
  {
    forall calls: set<nat> | Knot(s, calls) ensures j !in calls {
      if j in calls {
        var more := calls + {i};
        forall k | k in more ensures InKnot(s, more, k) {
          if k in calls {
            assert InKnot(s, calls, k);
            if Marked(s, k) {
              var m :| m in calls && Needs(s, k, m);
              assert m in more;
            }
          } else {
            assert j in more;
          }
        }
        assert Knot(s, more);
      }
    }
  }

  /** Among the calls that no knot holds up there is one that needs no other. */
  lemma FindFirst(s: State, i: nat) returns (j: nat)
    requires Untold(s, i) && Loose(s, i)
    ensures Untold(s, j) && Loose(s, j) && forall k: nat :: !Needs(s, j, k)
  {
    var loose := set k | 0 <= k < |s.calls| && Untold(s, k) && Loose(s, k);
    assert i in loose && !Knot(s, loose);
    j :| j in loose && !InKnot(s, loose, j);
    LooseIsMarked(s, j);
    forall k: nat ensures !Needs(s, j, k) {
      if Needs(s, j, k) {
        NeededIsLoose(s, j, k);
      }
    }
  }

  function UntoldCount(calls: seq<Unregistration>): nat {
    if calls == [] then 0 else UntoldCount(calls[1..]) + if calls[0].told then 0 else 1
  }

  lemma {:induction false} FewerUntold(a: seq<Unregistration>, b: seq<Unregistration>)
    requires |a| == |b| && forall i :: 0 <= i < |a| ==> (a[i].told ==> b[i].told)
    ensures UntoldCount(b) <= UntoldCount(a)
    ensures (exists i :: 0 <= i < |a| && !a[i].told && b[i].told) ==> UntoldCount(b) < UntoldCount(a)
  {
    if a != [] {
      FewerUntold(a[1..], b[1..]);
      if i :| 0 <= i < |a| && !a[i].told && b[i].told {
        if i > 0 {
          assert !a[1..][i - 1].told && b[1..][i - 1].told;
        }
      }
    }
  }

  lemma CalmerIsFewer(s: State, r: State, j: nat)
    requires Calmer(s, r) && Untold(s, j) && IsTold(r, j)
    ensures UntoldCount(r.calls) < UntoldCount(s.calls)
  {
    forall i | 0 <= i < |s.calls| ensures s.calls[i].told ==> r.calls[i].told {
      assert SameButTold(s, r, i);
    }
    FewerUntold(s.calls, r.calls);
  }

  lemma LooseKept(s: State, r: State, i: nat)
    requires Invariant(s) && Invariant(r) && Calmer(s, r) && Loose(s, i)
    ensures Loose(r, i)
  {
    forall calls: set<nat> | Knot(r, calls) ensures i !in calls {
      CalmerKnot(s, r, calls);
    }
  }

  /** Every call that no knot holds up can be told. */
  lemma {:induction false} TellLoose(s: State, i: nat) returns (run: seq<Action>)
    requires Invariant(s) && Untold(s, i) && Loose(s, i)
    ensures Tells(s, run, i)
    decreases UntoldCount(s.calls)
  {
    var j := FindFirst(s, i);
    LooseIsMarked(s, j);
    run := TellOne(s, j);
    var r := After(s, run);
    assert SameButTold(s, r, i);
    if !IsTold(r, i) {
      CalmerIsFewer(s, r, j);
      LooseKept(s, r, i);
      var rest := TellLoose(r, i);
      TellsAfter(s, run, rest, i);
      run := run + rest;
    }
  }

  // ---- returning ----

  /** Call j has to be told for call i to return: it is i, or waits further up the same stack. */
  predicate InTheWay(s: State, i: nat, j: nat) {
    i < |s.calls| && Untold(s, j) && (j == i || Above(s.calls[j].place, s.calls[i].place))
  }

  predicate Returns(s: State, run: seq<Action>, i: nat) {
    Legal(s, run) && !StillWaits(After(s, run), i)
  }

  /** Some continuation lets the call return. */
  ghost predicate CanReturn(s: State, i: nat) {
    exists run :: Returns(s, run, i)
  }

  /** When everything in the way has been told, the stack can be unwound. */
  lemma ReturnWhenTold(s: State, i: nat) returns (run: seq<Action>)
    requires Invariant(s) && StillWaits(s, i) && forall j: nat :: !InTheWay(s, i, j)
    ensures Returns(s, run, i)
  {
    run := FreeTheLock(s);
    var r := After(s, run);
    assert SameButTold(s, r, i);
    if StillWaits(r, i) {
      var place := r.calls[i].place;
      forall k | place.depth <= k < |r.stacks[place.thread]| && r.stacks[place.thread][k].Waiting?
        ensures IsTold(r, r.stacks[place.thread][k].call)
      {
        assert FrameSound(r, place.thread, k);
        assert SameButTold(s, r, r.stacks[place.thread][k].call);
        assert !InTheWay(s, i, r.stacks[place.thread][k].call);
      }
      var rest := Unwind(r, place.thread, place.depth);
      assert SameButTold(r, After(r, rest), i);
      Concatenated(s, run, rest);
      run := run + rest;
    }
  }

  lemma {:induction false} ReturnWhenLoose(s: State, i: nat) returns (run: seq<Action>)
    requires Invariant(s) && StillWaits(s, i) && forall j: nat :: InTheWay(s, i, j) ==> Loose(s, j)
    ensures Returns(s, run, i)
    decreases UntoldCount(s.calls)
  {
    if j: nat :| InTheWay(s, i, j) {
      run := TellLoose(s, j);
      var r := After(s, run);
      assert SameButTold(s, r, i);
      if StillWaits(r, i) {
        CalmerIsFewer(s, r, j);
        forall k: nat | InTheWay(r, i, k) ensures Loose(r, k) {
          assert SameButTold(s, r, k) && InTheWay(s, i, k);
          LooseKept(s, r, k);
        }
        var rest := ReturnWhenLoose(r, i);
        Concatenated(s, run, rest);
        run := run + rest;
      }
    } else {
      run := ReturnWhenTold(s, i);
    }
  }

  /** As long as a call is not told, nothing changes in the stack below it. */
  lemma BelowKept(s: State, a: Action, j: nat)
    requires Invariant(s) && Enabled(s, a) && Untold(s, j) && Untold(Step(s, a), j)
    ensures var place, r := s.calls[j].place, Step(s, a);
            && r.calls[j].place == place && place.thread < |r.stacks| == |s.stacks|
            && place.depth < |r.stacks[place.thread]| && place.depth < |s.stacks[place.thread]|
            && r.stacks[place.thread][..place.depth + 1] == s.stacks[place.thread][..place.depth + 1]
  {
    StepKeepsInvariant(s, a);
    assert CallSound(s, j) && CallSound(Step(s, a), j);
  }

  lemma {:induction false} WaitsForever(s: State, run: seq<Action>, calls: set<nat>, i: nat, j: nat)
    requires Invariant(s) && Legal(s, run) && Knot(s, calls) && j in calls && StillWaits(s, i) && InTheWay(s, i, j)
    ensures StillWaits(After(s, run), i)
    decreases |run|
  {
    if run != [] {
      var r := Step(s, run[0]);
      StepKeepsInvariant(s, run[0]);
      KnotKept(s, run[0], calls);
      KnotStep(s, run[0], calls, j);
      BelowKept(s, run[0], j);
      var place := s.calls[j].place;
      assert r.calls[i].place == s.calls[i].place;
      assert i != j ==> r.stacks[place.thread][..place.depth + 1][s.calls[i].place.depth] == Waiting(i);
      assert CallSound(r, j);
      WaitsForever(r, run[1..], calls, i, j);
    }
  }

  /** A call that waits can still return exactly if no knot holds up what has to be told before it returns. */
  lemma UnregisterCanReturnExactly(s: State, i: nat)
    requires Invariant(s) && StillWaits(s, i)
    ensures CanReturn(s, i) <==> forall j: nat :: InTheWay(s, i, j) ==> Loose(s, j)
  {
    if forall j: nat :: InTheWay(s, i, j) ==> Loose(s, j) {
      var run := ReturnWhenLoose(s, i);
      assert Returns(s, run, i);
    } else {
      var j: nat :| InTheWay(s, i, j) && !Loose(s, j);
      var calls: set<nat> :| Knot(s, calls) && j in calls;
      forall run ensures !Returns(s, run, i) {
        if Legal(s, run) {
          WaitsForever(s, run, calls, i, j);
        }
      }
    }
  }

  // ---- how knots come about ----

  /** A callback that unregisters its own service never returns from that. */
  lemma OwnServiceNeverReturns(s: State, t: nat, run: seq<Action>)
    requires Invariant(s) && Active(s, t) && Top(s, t).Calling? && Enabled(s, Unregister(t, Top(s, t).key))
    requires Legal(Step(s, Unregister(t, Top(s, t).key)), run)
    ensures StillWaits(After(Step(s, Unregister(t, Top(s, t).key)), run), |s.calls|)
  {
    var a, i := Unregister(t, Top(s, t).key), |s.calls|;
    var r := Step(s, a);
    TopSound(s, t);
    StepKeepsInvariant(s, a);
    assert Needs(r, i, i);
    assert InKnot(r, {i}, i);
    assert Knot(r, {i});
    WaitsForever(r, run, {i}, i, i);
  }

  /** Four steps are enough for that. */
  lemma ACallbackCanGetThere()
    ensures var run := [Register(0), TryLock(0), Call(0, 0)];
            Legal(Initial(1), run) && Enabled(After(Initial(1), run), Unregister(0, 0)) && Top(After(Initial(1), run), 0) == Calling(0, 0)
  {
    var s1 := Step(Initial(1), Register(0));
    var s2 := Step(s1, TryLock(0));
    var s3 := Step(s2, Call(0, 0));
    Prepended(s2, Call(0, 0), []);
    Prepended(s1, TryLock(0), [Call(0, 0)] + []);
    Prepended(Initial(1), Register(0), [TryLock(0)] + ([Call(0, 0)] + []));
    assert [Register(0), TryLock(0), Call(0, 0)] == [Register(0)] + ([TryLock(0)] + ([Call(0, 0)] + []));
  }

  /** A service that is registered again while a call waits for it strands the call. */
  lemma RegisteringAgainStrands(s: State, i: nat, run: seq<Action>)
    requires Invariant(s) && Untold(s, i) && Enabled(s, Register(s.calls[i].key)) && Legal(Step(s, Register(s.calls[i].key)), run)
    ensures StillWaits(After(Step(s, Register(s.calls[i].key)), run), i)
  {
    var a := Register(s.calls[i].key);
    var r := Step(s, a);
    assert CallSound(s, i);
    StepKeepsInvariant(s, a);
    assert CallSound(r, i);
    assert InKnot(r, {i}, i);
    assert Knot(r, {i});
    WaitsForever(r, run, {i}, i, i);
  }
}
