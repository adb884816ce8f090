/** The registry of polling services: a shared map of services whose lock is dropped while a callback runs. A callback may
    itself unregister services, and a thread that waits for a service to be unregistered polls meanwhile, so that every
    thread has a stack of nested activities. */
module Polling {
  import opened Options

  /** One entry of the stack of a thread. */
  datatype Place = Place(thread: nat, depth: nat)

  /** `node` identifies the map node of a registration; a service that is registered again after having been erased gets
      another one. `processing` is set while a callback runs, and tells where. `discard` is the unregistration that waits
      for this node to be erased. */
  datatype Service = Service(node: nat, processing: Option<Place>, discard: Option<nat>)

  /** A thread scans the services with keys from `from` on, holding the lock; or it is in the callback of one of them; or it
      is about to erase one, holding the lock; or it waits for an unregistration. */
  datatype Frame = Scanning(from: nat) | Calling(key: nat, node: nat) | Erasing(key: nat) | Waiting(call: nat)

  /** A call that unregisters a service, where it waits, and the flag that it waits for. */
  datatype Unregistration = Unregistration(key: nat, node: nat, place: Place, told: bool)

  datatype State = State(
    services: map<nat, Service>, nodes: nat,
    holder: Option<nat>, stacks: seq<seq<Frame>>, calls: seq<Unregistration>)

  /** A scan skips a service whose callback is running, condemns one that is marked, and otherwise calls it. A callback that
      returns lets the scan resume, or dismisses its service, because it asks for that or the service has been marked. */
  datatype Action =
    | Register(key: nat)
    | Unregister(t: nat, key: nat)
    | TryLock(t: nat)
    | Skip(t: nat, key: nat)
    | Condemn(t: nat, key: nat)
    | Call(t: nat, key: nat)
    | Erase(t: nat)
    | Leave(t: nat)
    | Resume(t: nat)
    | Dismiss(t: nat)
    | Return(t: nat)

  function Initial(n: nat): State {
    State(map[], 0, None, seq(n, _ => []), [])
  }

  predicate Active(s: State, t: nat) {
    t < |s.stacks| && s.stacks[t] != []
  }

  function Top(s: State, t: nat): Frame
    requires Active(s, t)
  {
    s.stacks[t][|s.stacks[t]| - 1]
  }

  /** The scan that stands at `from` has `key` as the next service. */
  predicate IsNext(services: map<nat, Service>, from: nat, key: nat) {
    key in services && from <= key && forall k :: k in services && from <= k ==> key <= k
  }

  predicate Scans(s: State, t: nat) {
    Active(s, t) && s.holder == Some(t) && Top(s, t).Scanning?
  }

  /** The scan of t stands at service `key`. */
  predicate Stands(s: State, t: nat, key: nat) {
    Scans(s, t) && IsNext(s.services, Top(s, t).from, key)
  }

  /** A thread whose callback returns takes the lock again. */
  predicate Calls(s: State, t: nat) {
    s.holder.None? && Active(s, t) && Top(s, t).Calling?
  }

  /** The node of the callback is where it was. */
  predicate Finds(s: State, f: Frame) {
    f.Calling? && f.key in s.services && s.services[f.key].node == f.node
  }

  /** The thread is not in the runtime: it runs a callback, or code of its own. */
  predicate Free(s: State, t: nat) {
    t < |s.stacks| && (s.stacks[t] == [] || Top(s, t).Calling?)
  }

  /** The thread is between two scans: it is idle, or it waits. */
  predicate Polls(s: State, t: nat) {
    t < |s.stacks| && (s.stacks[t] == [] || Top(s, t).Waiting?)
  }

  predicate Enabled(s: State, a: Action) {
    match a
    case Register(key) => s.holder.None? && (key in s.services ==> s.services[key].discard.Some?)
    case Unregister(t, key) => s.holder.None? && Free(s, t) && key in s.services && s.services[key].discard.None?
    case TryLock(t) => s.holder.None? && Polls(s, t)
    case Skip(t, key) => Stands(s, t, key) && s.services[key].processing.Some?
    case Condemn(t, key) => Stands(s, t, key) && s.services[key].processing.None? && s.services[key].discard.Some?
    case Call(t, key) => Stands(s, t, key) && s.services[key].processing.None? && s.services[key].discard.None?
    case Erase(t) => Active(s, t) && s.holder == Some(t) && Top(s, t).Erasing?
    case Leave(t) => Scans(s, t) && forall k :: k in s.services ==> k < Top(s, t).from
    case Resume(t) => Calls(s, t) && !(Finds(s, Top(s, t)) && s.services[Top(s, t).key].discard.Some?)
    case Dismiss(t) => Calls(s, t)
    case Return(t) => Active(s, t) && Top(s, t).Waiting? && IsTold(s, Top(s, t).call)
  }

  predicate IsTold(s: State, i: nat) {
    i < |s.calls| && s.calls[i].told
  }

  /** Signals whoever waits for the unregistration of a service. */
  function Tell(s: State, key: nat): State
    requires key in s.services
  {
    var i := s.services[key].discard;
    if i.Some? && i.value < |s.calls| then s.(calls := s.calls[i.value := s.calls[i.value].(told := true)]) else s
  }

  function Processed(s: State, key: nat): State
    requires key in s.services
  {
    s.(services := s.services[key := s.services[key].(processing := None)])
  }

  function WithStack(s: State, t: nat, stack: seq<Frame>, holder: Option<nat>): State
    requires t < |s.stacks|
  {
    s.(stacks := s.stacks[t := stack], holder := holder)
  }

  function Push(s: State, t: nat, f: Frame, holder: Option<nat>): State
    requires t < |s.stacks|
  {
    WithStack(s, t, s.stacks[t] + [f], holder)
  }

  function Pop(s: State, t: nat, holder: Option<nat>): State
    requires Active(s, t)
  {
    WithStack(s, t, s.stacks[t][..|s.stacks[t]| - 1], holder)
  }

  function Become(s: State, t: nat, f: Frame, holder: Option<nat>): State
    requires Active(s, t)
  {
    WithStack(s, t, s.stacks[t][|s.stacks[t]| - 1 := f], holder)
  }

  /** That a callback returns to a node that is no longer there is proved not to happen. */
  function Step(s: State, a: Action): State
    requires Enabled(s, a)
  {
    match a
    case Register(key) =>
      if key in s.services then s.(services := s.services[key := s.services[key].(discard := None)])
      else s.(services := s.services[key := Service(s.nodes, None, None)], nodes := s.nodes + 1)
    case Unregister(t, key) =>
      var x, i := s.services[key], |s.calls|;
      Push(s.(services := s.services[key := x.(discard := Some(i))],
              calls := s.calls + [Unregistration(key, x.node, Place(t, |s.stacks[t]|), false)]),
           t, Waiting(i), None)
    case TryLock(t) => Push(s, t, Scanning(0), Some(t))
    case Skip(t, key) => Become(s, t, Scanning(key + 1), Some(t))
    case Condemn(t, key) => Become(Tell(s, key), t, Erasing(key), Some(t))
    case Call(t, key) =>
      var x, place := s.services[key], Place(t, |s.stacks[t]| - 1);
      Become(s.(services := s.services[key := x.(processing := Some(place))]), t, Calling(key, x.node), None)
    case Erase(t) =>
      var key := Top(s, t).key;
      Become(s.(services := s.services - {key}), t, Scanning(key + 1), Some(t))
    case Leave(t) => Pop(s, t, None)
    case Resume(t) =>
      var f := Top(s, t);
      if Finds(s, f) then Become(Processed(s, f.key), t, Scanning(f.key + 1), Some(t)) else s
    case Dismiss(t) =>
      var f := Top(s, t);
      if Finds(s, f) then Become(Tell(Processed(s, f.key), f.key), t, Erasing(f.key), Some(t)) else s
    case Return(t) => Pop(s, t, s.holder)
  }

  predicate Legal(s: State, run: seq<Action>)
    decreases |run|
  {
    run != [] ==> Enabled(s, run[0]) && Legal(Step(s, run[0]), run[1..])
  }

  function After(s: State, run: seq<Action>): State
    requires Legal(s, run)
    decreases |run|
  {
    if run == [] then s else After(Step(s, run[0]), run[1..])
  }

  // ---- what every step keeps ----

  predicate IsTop(s: State, t: nat, k: nat)
    requires t < |s.stacks|
  {
    k == |s.stacks[t]| - 1
  }

  predicate FrameAt(s: State, place: Place, f: Frame) {
    place.thread < |s.stacks| && place.depth < |s.stacks[place.thread]| && s.stacks[place.thread][place.depth] == f
  }

  /** Whoever scans or erases holds the lock; the node whose callback runs is in the map, and its place is known; above a
      callback there can be a call that waits, and above that an activity of polling. */
  predicate FrameSound(s: State, t: nat, k: nat)
    requires t < |s.stacks| && k < |s.stacks[t]|
  {
    match s.stacks[t][k]
    case Scanning(_) => IsTop(s, t, k) && s.holder == Some(t)
    case Erasing(key) =>
      && IsTop(s, t, k) && s.holder == Some(t)
      && key in s.services && s.services[key].processing.None?
      && (s.services[key].discard.Some? ==> IsTold(s, s.services[key].discard.value))
    case Calling(key, node) =>
      && key in s.services && s.services[key].node == node && s.services[key].processing == Some(Place(t, k))
      && (!IsTop(s, t, k) ==> s.stacks[t][k + 1].Waiting?)
    case Waiting(i) =>
      && i < |s.calls| && s.calls[i].place == Place(t, k)
      && (!IsTop(s, t, k) ==> !s.stacks[t][k + 1].Waiting?)
  }

  predicate IsBeingErased(s: State, key: nat) {
    s.holder.Some? && Active(s, s.holder.value) && Top(s, s.holder.value) == Erasing(key)
  }

  predicate ServiceSound(s: State, key: nat)
    requires key in s.services
  {
    var x := s.services[key];
    && x.node < s.nodes
    && (x.processing.Some? ==> FrameAt(s, x.processing.value, Calling(key, x.node)))
    && (x.discard.Some? ==>
          var i := x.discard.value;
          i < |s.calls| && s.calls[i].key == key && s.calls[i].node == x.node && (s.calls[i].told ==> IsBeingErased(s, key)))
  }

  /** A call waits until it is told; when it is told, its node is gone, or whoever told it is about to erase it. */
  predicate CallSound(s: State, i: nat)
    requires i < |s.calls|
  {
    var c := s.calls[i];
    && c.node < s.nodes
    && (!c.told ==> FrameAt(s, c.place, Waiting(i)))
    && (c.key in s.services ==> s.services[c.key].node >= c.node)
    && (c.told ==> c.key !in s.services || s.services[c.key].node > c.node || IsBeingErased(s, c.key))
  }

  predicate HolderSound(s: State) {
    s.holder.Some? ==> Active(s, s.holder.value) && (Top(s, s.holder.value).Scanning? || Top(s, s.holder.value).Erasing?)
  }

  predicate Invariant(s: State) {
    && HolderSound(s)
    && (forall t, k :: 0 <= t < |s.stacks| && 0 <= k < |s.stacks[t]| ==> FrameSound(s, t, k))
    && (forall key :: key in s.services ==> ServiceSound(s, key))
    && (forall i :: 0 <= i < |s.calls| ==> CallSound(s, i))
  }

  /** What the thread that makes the step has on top of its stack. */
  lemma TopSound(s: State, t: nat)
    requires Invariant(s) && Active(s, t)
    ensures FrameSound(s, t, |s.stacks[t]| - 1)
    ensures Top(s, t).Calling? ==> Top(s, t).key in s.services && ServiceSound(s, Top(s, t).key)
  {
    assert FrameSound(s, t, |s.stacks[t]| - 1);
  }

  /** Beginning and ending a scan. */
  lemma ScanningKeepsInvariant(s: State, a: Action)
    requires Invariant(s) && Enabled(s, a) && (a.TryLock? || a.Leave?)
    ensures Invariant(Step(s, a))
  {
    var r := Step(s, a);
    if Active(s, a.t) {
      TopSound(s, a.t);
    }
    forall t, k | 0 <= t < |r.stacks| && 0 <= k < |r.stacks[t]| ensures FrameSound(r, t, k) {
      assert k < |s.stacks[t]| ==> FrameSound(s, t, k);
      assert 0 < k <= |s.stacks[t]| ==> FrameSound(s, t, k - 1);
    }
    forall key | key in r.services ensures ServiceSound(r, key) {
      assert key in s.services ==> ServiceSound(s, key);
    }
    forall i | 0 <= i < |r.calls| ensures CallSound(r, i) {
      assert i < |s.calls| ==> CallSound(s, i);
      assert i < |s.calls| && s.calls[i].key in s.services ==> ServiceSound(s, s.calls[i].key);
    }
  }

  /** Going on to the next service, and returning from a call. */
  lemma PassingKeepsInvariant(s: State, a: Action)
    requires Invariant(s) && Enabled(s, a) && (a.Skip? || a.Return?)
    ensures Invariant(Step(s, a))
  {
    var r := Step(s, a);
    if Active(s, a.t) {
      TopSound(s, a.t);
    }
    forall t, k | 0 <= t < |r.stacks| && 0 <= k < |r.stacks[t]| ensures FrameSound(r, t, k) {
      assert k < |s.stacks[t]| ==> FrameSound(s, t, k);
      assert 0 < k <= |s.stacks[t]| ==> FrameSound(s, t, k - 1);
    }
    forall key | key in r.services ensures ServiceSound(r, key) {
      assert key in s.services ==> ServiceSound(s, key);
    }
    forall i | 0 <= i < |r.calls| ensures CallSound(r, i) {
      assert i < |s.calls| ==> CallSound(s, i);
      assert i < |s.calls| && s.calls[i].key in s.services ==> ServiceSound(s, s.calls[i].key);
    }
  }

  /** Telling the call that waits for a service. */
  lemma CondemningKeepsInvariant(s: State, a: Action)
    requires Invariant(s) && Enabled(s, a) && a.Condemn?
    ensures Invariant(Step(s, a))
  {
    var r := Step(s, a);
    if Active(s, a.t) {
      TopSound(s, a.t);
    }
    forall t, k | 0 <= t < |r.stacks| && 0 <= k < |r.stacks[t]| ensures FrameSound(r, t, k) {
      assert k < |s.stacks[t]| ==> FrameSound(s, t, k);
      assert 0 < k <= |s.stacks[t]| ==> FrameSound(s, t, k - 1);
    }
    forall key | key in r.services ensures ServiceSound(r, key) {
      assert key in s.services ==> ServiceSound(s, key);
    }
    forall i | 0 <= i < |r.calls| ensures CallSound(r, i) {
      assert i < |s.calls| ==> CallSound(s, i);
      assert i < |s.calls| && s.calls[i].key in s.services ==> ServiceSound(s, s.calls[i].key);
    }
  }

  /** Entering a callback. */
  lemma CallingKeepsInvariant(s: State, a: Action)
    requires Invariant(s) && Enabled(s, a) && a.Call?
    ensures Invariant(Step(s, a))
  {
    var r := Step(s, a);
    if Active(s, a.t) {
      TopSound(s, a.t);
    }
    forall t, k | 0 <= t < |r.stacks| && 0 <= k < |r.stacks[t]| ensures FrameSound(r, t, k) {
      assert k < |s.stacks[t]| ==> FrameSound(s, t, k);
      assert 0 < k <= |s.stacks[t]| ==> FrameSound(s, t, k - 1);
    }
    forall key | key in r.services ensures ServiceSound(r, key) {
      assert key in s.services ==> ServiceSound(s, key);
    }
    forall i | 0 <= i < |r.calls| ensures CallSound(r, i) {
      assert i < |s.calls| ==> CallSound(s, i);
      assert i < |s.calls| && s.calls[i].key in s.services ==> ServiceSound(s, s.calls[i].key);
    }
  }

  /** A callback returns and its service stays. */
  lemma ResumingKeepsInvariant(s: State, a: Action)
    requires Invariant(s) && Enabled(s, a) && a.Resume?
    ensures Invariant(Step(s, a))
  {
    var r := Step(s, a);
    if Active(s, a.t) {
      TopSound(s, a.t);
    }
    forall t, k | 0 <= t < |r.stacks| && 0 <= k < |r.stacks[t]| ensures FrameSound(r, t, k) {
      assert k < |s.stacks[t]| ==> FrameSound(s, t, k);
      assert 0 < k <= |s.stacks[t]| ==> FrameSound(s, t, k - 1);
    }
    forall key | key in r.services ensures ServiceSound(r, key) {
      assert key in s.services ==> ServiceSound(s, key);
    }
    forall i | 0 <= i < |r.calls| ensures CallSound(r, i) {
      assert i < |s.calls| ==> CallSound(s, i);
      assert i < |s.calls| && s.calls[i].key in s.services ==> ServiceSound(s, s.calls[i].key);
    }
  }

  /** Erasing the node. */
  lemma ErasingKeepsInvariant(s: State, a: Action)
    requires Invariant(s) && Enabled(s, a) && a.Erase?
    ensures Invariant(Step(s, a))
  {
    var r := Step(s, a);
    if Active(s, a.t) {
      TopSound(s, a.t);
    }
    forall t, k | 0 <= t < |r.stacks| && 0 <= k < |r.stacks[t]| ensures FrameSound(r, t, k) {
      assert k < |s.stacks[t]| ==> FrameSound(s, t, k);
      assert 0 < k <= |s.stacks[t]| ==> FrameSound(s, t, k - 1);
    }
    forall key | key in r.services ensures ServiceSound(r, key) {
      assert key in s.services ==> ServiceSound(s, key);
    }
    forall i | 0 <= i < |r.calls| ensures CallSound(r, i) {
      assert i < |s.calls| ==> CallSound(s, i);
      assert i < |s.calls| && s.calls[i].key in s.services ==> ServiceSound(s, s.calls[i].key);
    }
  }

  /** A new service, or an old one whose mark is removed. */
  lemma RegisteringKeepsInvariant(s: State, a: Action)
    requires Invariant(s) && Enabled(s, a) && a.Register?
    ensures Invariant(Step(s, a))
  {
    var r := Step(s, a);
    forall t, k | 0 <= t < |r.stacks| && 0 <= k < |r.stacks[t]| ensures FrameSound(r, t, k) {
      assert k < |s.stacks[t]| ==> FrameSound(s, t, k);
      assert 0 < k <= |s.stacks[t]| ==> FrameSound(s, t, k - 1);
    }
    forall key | key in r.services ensures ServiceSound(r, key) {
      assert key in s.services ==> ServiceSound(s, key);
    }
    forall i | 0 <= i < |r.calls| ensures CallSound(r, i) {
      assert i < |s.calls| ==> CallSound(s, i);
      assert i < |s.calls| && s.calls[i].key in s.services ==> ServiceSound(s, s.calls[i].key);
    }
  }

  /** Marking a service. */
  lemma UnregisteringKeepsInvariant(s: State, a: Action)
    requires Invariant(s) && Enabled(s, a) && a.Unregister?
    ensures Invariant(Step(s, a))
  {
    var r := Step(s, a);
    if Active(s, a.t) {
      TopSound(s, a.t);
    }
    forall t, k | 0 <= t < |r.stacks| && 0 <= k < |r.stacks[t]| ensures FrameSound(r, t, k) {
      assert k < |s.stacks[t]| ==> FrameSound(s, t, k);
      assert 0 < k <= |s.stacks[t]| ==> FrameSound(s, t, k - 1);
    }
    forall key | key in r.services ensures ServiceSound(r, key) {
      assert key in s.services ==> ServiceSound(s, key);
    }
    forall i | 0 <= i < |r.calls| ensures CallSound(r, i) {
      assert i < |s.calls| ==> CallSound(s, i);
      assert i < |s.calls| && s.calls[i].key in s.services ==> ServiceSound(s, s.calls[i].key);
    }
  }

  lemma DismissedFrame(s: State, a: Action, t: nat, k: nat)
    requires Invariant(s) && Enabled(s, a) && a.Dismiss? && t < |s.stacks| && k < |Step(s, a).stacks[t]|
    ensures FrameSound(Step(s, a), t, k)
  {
    TopSound(s, a.t);
    assert FrameSound(s, t, k);
    assert k > 0 ==> FrameSound(s, t, k - 1);
  }

  lemma DismissedService(s: State, a: Action, key: nat)
    requires Invariant(s) && Enabled(s, a) && a.Dismiss? && key in Step(s, a).services
    ensures ServiceSound(Step(s, a), key)
  {
    TopSound(s, a.t);
    assert ServiceSound(s, key);
  }

  lemma DismissedCall(s: State, a: Action, i: nat)
    requires Invariant(s) && Enabled(s, a) && a.Dismiss? && i < |Step(s, a).calls|
    ensures CallSound(Step(s, a), i)
  {
    TopSound(s, a.t);
    assert CallSound(s, i);
    assert s.calls[i].key in s.services ==> ServiceSound(s, s.calls[i].key);
  }

  /** A callback returns and its service is to be erased. */
  lemma DismissingKeepsInvariant(s: State, a: Action)
    requires Invariant(s) && Enabled(s, a) && a.Dismiss?
    ensures Invariant(Step(s, a))
  {
    var r := Step(s, a);
    TopSound(s, a.t);
    forall t, k | 0 <= t < |r.stacks| && 0 <= k < |r.stacks[t]| ensures FrameSound(r, t, k) {
      DismissedFrame(s, a, t, k);
    }
    forall key | key in r.services ensures ServiceSound(r, key) {
      DismissedService(s, a, key);
    }
    forall i | 0 <= i < |r.calls| ensures CallSound(r, i) {
      DismissedCall(s, a, i);
    }
  }

  lemma StepKeepsInvariant(s: State, a: Action)
    requires Invariant(s) && Enabled(s, a)
    ensures Invariant(Step(s, a))
  {
    match a
    case Register(_) => RegisteringKeepsInvariant(s, a);
    case Unregister(_, _) => UnregisteringKeepsInvariant(s, a);
    case TryLock(_) => ScanningKeepsInvariant(s, a);
    case Leave(_) => ScanningKeepsInvariant(s, a);
    case Skip(_, _) => PassingKeepsInvariant(s, a);
    case Return(_) => PassingKeepsInvariant(s, a);
    case Condemn(_, _) => CondemningKeepsInvariant(s, a);
    case Call(_, _) => CallingKeepsInvariant(s, a);
    case Resume(_) => ResumingKeepsInvariant(s, a);
    case Dismiss(_) => DismissingKeepsInvariant(s, a);
    case Erase(_) => ErasingKeepsInvariant(s, a);
  }

  lemma {:induction false} RunsKeepInvariant(s: State, run: seq<Action>)
    requires Invariant(s) && Legal(s, run)
    ensures Invariant(After(s, run))
    decreases |run|
  {
    if run != [] {
      StepKeepsInvariant(s, run[0]);
      RunsKeepInvariant(Step(s, run[0]), run[1..]);
    }
  }

  // ---- main results ----

  /** In every run, a callback that returns finds its node where it left it, and no service is called at two places. */
  lemma CallbacksAreExclusive(n: nat, run: seq<Action>, here: Place, there: Place, f: Frame, g: Frame)
    requires Legal(Initial(n), run) && f.Calling? && g.Calling?
    requires var s := After(Initial(n), run); FrameAt(s, here, f) && FrameAt(s, there, g)
    ensures Finds(After(Initial(n), run), f) && (here != there ==> f.key != g.key)
  {
    RunsKeepInvariant(Initial(n), run);
    var s := After(Initial(n), run);
    assert FrameSound(s, here.thread, here.depth) && FrameSound(s, there.thread, there.depth);
  }

  /** What a scan does about the service that it stands at depends on the service: it skips one that is in its callback, condemns
      one that is marked, calls any other, and leaves only when there is none. */
  lemma ScanDecides(s: State, t: nat, key: nat)
    requires Scans(s, t)
    ensures Enabled(s, Skip(t, key)) <==> Stands(s, t, key) && s.services[key].processing.Some?
    ensures Enabled(s, Condemn(t, key)) <==> Stands(s, t, key) && s.services[key].processing.None? && s.services[key].discard.Some?
    ensures Enabled(s, Call(t, key)) <==> Stands(s, t, key) && s.services[key].processing.None? && s.services[key].discard.None?
    ensures Enabled(s, Leave(t)) <==> forall k :: k in s.services ==> !Stands(s, t, k)
  {
    if (forall k :: k in s.services ==> !Stands(s, t, k)) && exists k :: k in s.services && Top(s, t).from <= k {
      var k := NextService(s.services, Top(s, t).from);
      assert Stands(s, t, k);
    }
  }

  lemma NextService(services: map<nat, Service>, from: nat) returns (key: nat)
    requires exists k :: k in services && from <= k
    ensures IsNext(services, from, key)
  {
    key :| key in services && from <= key;
    key := LeastFrom(services, from, key);
  }

  lemma {:induction false} LeastFrom(services: map<nat, Service>, from: nat, k: nat) returns (key: nat)
    requires k in services && from <= k
    ensures IsNext(services, from, key)
    decreases k
  {
    if j :| j in services && from <= j < k {
      key := LeastFrom(services, from, j);
    } else {
      key := k;
    }
  }

  /** A callback that returns leaves its service in the map exactly if it does not ask to be unregistered and the service has not been
      marked meanwhile; in every run, and for every callback. */
  lemma ReturnDecides(n: nat, run: seq<Action>, t: nat)
    requires Legal(Initial(n), run) && Calls(After(Initial(n), run), t)
    ensures var s := After(Initial(n), run); var key := Top(s, t).key;
            && key in s.services && Enabled(s, Dismiss(t))
            && (Enabled(s, Resume(t)) <==> s.services[key].discard.None?)
            && IsBeingErased(Step(s, Dismiss(t)), key)
            && (s.services[key].discard.None? ==>
                  Step(s, Resume(t)).services == s.services[key := s.services[key].(processing := None)])
  {
    RunsKeepInvariant(Initial(n), run);
    TopSound(After(Initial(n), run), t);
  }

  /** While a thread holds the lock, nobody else changes the map, registers or unregisters, or takes the lock. */
  lemma OnlyTheHolder(n: nat, run: seq<Action>, a: Action)
    requires Legal(Initial(n), run) && Enabled(After(Initial(n), run), a) && After(Initial(n), run).holder.Some?
    ensures var s := After(Initial(n), run);
            a.Return? || (!a.Register? && a.t == s.holder.value && (a.Skip? || a.Condemn? || a.Call? || a.Erase? || a.Leave?))
    ensures a.Return? ==> Step(After(Initial(n), run), a).services == After(Initial(n), run).services
  {
    RunsKeepInvariant(Initial(n), run);
    if !a.Register? && Active(After(Initial(n), run), a.t) {
      TopSound(After(Initial(n), run), a.t);
    }
  }

  /** While a callback runs, nobody erases its node, and only the thread that runs it ends that. */
  lemma OnlyItsCallerEnds(s: State, a: Action, key: nat)
    requires Invariant(s) && Enabled(s, a) && key in s.services && s.services[key].processing.Some?
    ensures var r := Step(s, a);
            && key in r.services && r.services[key].node == s.services[key].node
            && (r.services[key].processing != s.services[key].processing ==>
                  (a.Resume? || a.Dismiss?) && a.t == s.services[key].processing.value.thread)
  {
    assert ServiceSound(s, key);
    if !a.Register? && Active(s, a.t) {
      TopSound(s, a.t);
    }
  }

  /** The call has not returned. */
  predicate StillWaits(s: State, i: nat) {
    i < |s.calls| && FrameAt(s, s.calls[i].place, Waiting(i))
  }

  /** In every run, a call that unregisters returns only when it has been told, and then nobody is in the callback of its
      node, which has been erased, or is about to be by the thread that told it and still holds the lock. */
  lemma UnregisterReturnsWhenGone(n: nat, run: seq<Action>, i: nat, place: Place)
    requires Legal(Initial(n), run) && i < |After(Initial(n), run).calls| && !StillWaits(After(Initial(n), run), i)
    ensures var s := After(Initial(n), run); var c := s.calls[i];
            && IsTold(s, i)
            && (c.key in s.services && s.services[c.key].node == c.node ==> IsBeingErased(s, c.key))
            && !FrameAt(s, place, Calling(c.key, c.node))
  {
    RunsKeepInvariant(Initial(n), run);
    var s := After(Initial(n), run);
    var c := s.calls[i];
    assert CallSound(s, i);
    if FrameAt(s, place, Calling(c.key, c.node)) {
      assert FrameSound(s, place.thread, place.depth);
      TopSound(s, s.holder.value);
    }
  }
}
