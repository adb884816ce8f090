/** Updates that concern a region: the accesses of the target task are cut at its boundaries, and the
    effect is that of the one-byte protocol on every address. */
module RegionPropagation {
  import opened Options
  import opened DataAccesses
  import opened Regions
  import opened RegionMaps

  datatype RegionUpdate = RegionUpdate(target: nat, region: Region, bits: set<Bit>)

  // ----- What is queued for one address -----

  function QueuedAt(ops: seq<RegionUpdate>, p: nat): seq<UpdateOperation> {
    if ops == [] then []
    else
      var last := ops[|ops| - 1];
      QueuedAt(ops[..|ops| - 1], p) + (if last.region.Contains(p) then [UpdateOperation(last.target, last.bits)] else [])
  }

  lemma {:induction false} QueuedAppend(a: seq<RegionUpdate>, b: seq<RegionUpdate>, p: nat)
    ensures QueuedAt(a + b, p) == QueuedAt(a, p) + QueuedAt(b, p)
    decreases |b|
  {
    if b == [] {
      assert a + b == a;
    } else {
      assert (a + b)[..|a + b| - 1] == a + b[..|b| - 1];
      QueuedAppend(a, b[..|b| - 1], p);
    }
  }

  function Tag(ops: seq<UpdateOperation>, r: Region): seq<RegionUpdate> {
    if ops == [] then []
    else Tag(ops[..|ops| - 1], r) + [RegionUpdate(ops[|ops| - 1].target, r, ops[|ops| - 1].bits)]
  }

  lemma {:induction false} QueuedTag(ops: seq<UpdateOperation>, r: Region, p: nat)
    ensures QueuedAt(Tag(ops, r), p) == if r.Contains(p) then ops else []
  {
    if ops != [] {
      QueuedTag(ops[..|ops| - 1], r, p);
      assert Tag(ops, r)[..|Tag(ops, r)| - 1] == Tag(ops[..|ops| - 1], r);
    }
  }

  // ----- The effect of an update -----

  /** What happens to the status of an access: it receives bits, it completes, or it is linked to the next one, after which
      it may not let some bits through. */
  type Change = DataAccess -> DataAccess

  function Receive(a: DataAccess, bits: set<Bit>): DataAccess {
    a.(received := a.received + bits)
  }

  function Receiving(bits: set<Bit>): Change {
    (a: DataAccess) => Receive(a, bits)
  }

  function Completing(): Change {
    (a: DataAccess) => a.(complete := true)
  }

  function Linking(next: nat, inhibited: set<Bit>): Change {
    (a: DataAccess) => a.(next := Some(next), inhibited := inhibited)
  }

  /** No access that lets its task run stops doing so. */
  ghost predicate Calms(change: Change) {
    forall a :: EnforcesDependency(change(a)) ==> EnforcesDependency(a)
  }

  /** A node after a change of `r`: cut at its boundaries, the shared part changed. */
  function Updated(n: Node<DataAccess>, r: Region, change: Change): seq<Node<DataAccess>> {
    if !Overlap(n.region, r) then [n]
    else
      var both := Shared(n.region, r);
      LeftOf(n, both) + [Node(both, change(n.content))] + RightOf(n, both)
  }

  /** The first k accesses after a change of `r`. */
  function UpdatedAll(ns: seq<Node<DataAccess>>, k: nat, r: Region, change: Change): seq<Node<DataAccess>>
    requires k <= |ns|
  {
    if k == 0 then [] else UpdatedAll(ns, k - 1, r, change) + Updated(ns[k - 1], r, change)
  }

  function Sent(n: Node<DataAccess>, r: Region, change: Change): seq<RegionUpdate> {
    if !Overlap(n.region, r) then []
    else Tag(HandleStatusChanges(n.content, change(n.content)), Shared(n.region, r))
  }

  /** What the first k accesses send on a change of `r`. */
  function SentAll(ns: seq<Node<DataAccess>>, k: nat, r: Region, change: Change): seq<RegionUpdate>
    requires k <= |ns|
  {
    if k == 0 then [] else SentAll(ns, k - 1, r, change) + Sent(ns[k - 1], r, change)
  }

  /** The number of accesses, cut as they are, that keep the task from running. */
  function Blocking(ns: seq<Node<DataAccess>>): nat {
    if ns == [] then 0 else Blocking(ns[..|ns| - 1]) + (if EnforcesDependency(ns[|ns| - 1].content) then 1 else 0)
  }

  lemma {:induction false} BlockingAppend(a: seq<Node<DataAccess>>, b: seq<Node<DataAccess>>)
    ensures Blocking(a + b) == Blocking(a) + Blocking(b)
    decreases |b|
  {
    if b == [] {
      assert a + b == a;
    } else {
      assert (a + b)[..|a + b| - 1] == a + b[..|b| - 1];
      BlockingAppend(a, b[..|b| - 1]);
    }
  }

  lemma UpdatedMeaning(n: Node<DataAccess>, r: Region, change: Change, p: nat)
    ensures At(Updated(n, r, change), p)
         == if !n.region.Contains(p) then None else Some(if r.Contains(p) then change(n.content) else n.content)
  {
    if Overlap(n.region, r) {
      var both := Shared(n.region, r);
      var middle := [Node(both, change(n.content))];
      AtAppend(LeftOf(n, both), middle, p);
      AtAppend(LeftOf(n, both) + middle, RightOf(n, both), p);
    }
  }

  /** One address under a change of `r`. */
  function UpdateAt(a: Option<DataAccess>, r: Region, change: Change, p: nat): Option<DataAccess> {
    if a.Some? && r.Contains(p) then Some(change(a.value)) else a
  }

  function SentAt(a: Option<DataAccess>, r: Region, change: Change, p: nat): seq<UpdateOperation> {
    if a.Some? && r.Contains(p) then HandleStatusChanges(a.value, change(a.value)) else []
  }

  lemma SentMeaning(n: Node<DataAccess>, r: Region, change: Change, p: nat)
    ensures QueuedAt(Sent(n, r, change), p)
         == if n.region.Contains(p) && r.Contains(p) then HandleStatusChanges(n.content, change(n.content)) else []
  {
    if Overlap(n.region, r) {
      QueuedTag(HandleStatusChanges(n.content, change(n.content)), Shared(n.region, r), p);
    }
  }

  lemma AtLast<T>(ns: seq<Node<T>>, k: nat, p: nat)
    requires Ordered(ns) && 0 < k <= |ns|
    ensures At(ns[..k], p) == if ns[k - 1].region.Contains(p) then Some(ns[k - 1].content) else At(ns[..k - 1], p)
    ensures ns[k - 1].region.Contains(p) ==> At(ns[..k - 1], p) == None
  {
    var n := k - 1;
    assert ns[..k] == ns[..n] + [ns[n]];
    AtAppend(ns[..n], [ns[n]], p);
    if ns[n].region.Contains(p) {
      forall i | 0 <= i < n ensures !ns[i].region.Contains(p) { OrderedPair(ns, i, n); }
      AtOutside(ns[..n], p);
    }
  }

  lemma {:induction false} ChangeIsBytewise(ns: seq<Node<DataAccess>>, k: nat, r: Region, change: Change, p: nat)
    requires Ordered(ns) && k <= |ns|
    ensures At(UpdatedAll(ns, k, r, change), p) == UpdateAt(At(ns[..k], p), r, change, p)
  {
    if k > 0 {
      AtLast(ns, k, p);
      ChangeIsBytewise(ns, k - 1, r, change, p);
      UpdatedMeaning(ns[k - 1], r, change, p);
      AtAppend(UpdatedAll(ns, k - 1, r, change), Updated(ns[k - 1], r, change), p);
    }
  }

  lemma {:induction false} SendingIsBytewise(ns: seq<Node<DataAccess>>, k: nat, r: Region, change: Change, p: nat)
    requires Ordered(ns) && k <= |ns|
    ensures QueuedAt(SentAll(ns, k, r, change), p) == SentAt(At(ns[..k], p), r, change, p)
  {
    if k > 0 {
      AtLast(ns, k, p);
      SendingIsBytewise(ns, k - 1, r, change, p);
      SentMeaning(ns[k - 1], r, change, p);
      QueuedAppend(SentAll(ns, k - 1, r, change), Sent(ns[k - 1], r, change), p);
    }
  }

  /** Changing the accesses of a region is changing them at exactly the addresses of the region, one by one, and sends at
      each of them what the access there sends. */
  lemma RegionChangeIsBytewise(ns: seq<Node<DataAccess>>, r: Region, change: Change, p: nat)
    requires Ordered(ns)
    ensures At(UpdatedAll(ns, |ns|, r, change), p) == UpdateAt(At(ns, p), r, change, p)
    ensures QueuedAt(SentAll(ns, |ns|, r, change), p) == SentAt(At(ns, p), r, change, p)
  {
    assert ns[..|ns|] == ns;
    ChangeIsBytewise(ns, |ns|, r, change, p);
    SendingIsBytewise(ns, |ns|, r, change, p);
  }

  lemma {:induction false} NobodyBlocks(ns: seq<Node<DataAccess>>)
    ensures Blocking(ns) == 0 <==> forall i :: 0 <= i < |ns| ==> MayStart(ns[i].content)
  {
    if ns != [] {
      var n := |ns| - 1;
      BlocksExactly(ns[n].content);
      NobodyBlocks(ns[..n]);
      assert forall i :: 0 <= i < n ==> ns[..n][i] == ns[i];
    }
  }

  /** A task whose accesses are all weak is never kept from running, whatever they have received. */
  lemma WeakNeverBlocks(ns: seq<Node<DataAccess>>)
    requires forall i :: 0 <= i < |ns| ==> ns[i].content.weak
    ensures Blocking(ns) == 0
  {
    NobodyBlocks(ns);
  }

  predicate Unconcerned(ns: seq<Node<DataAccess>>, i: nat, r: Region)
    requires i < |ns|
  {
    !Overlap(ns[i].region, r)
  }

  lemma AppendNext(before: seq<Node<DataAccess>>, ns: seq<Node<DataAccess>>, k: nat, j: nat)
    requires k <= j < |ns|
    ensures before + ns[k..j] + [ns[j]] == before + ns[k..j + 1]
  {
  }

  lemma OneMore(ns: seq<Node<DataAccess>>, k: nat, r: Region, change: Change, queued: seq<RegionUpdate>)
    requires k < |ns|
    ensures ns[k..] != [] && ns[k..][0] == ns[k] && ns[k..][1..] == ns[k + 1..]
    ensures UpdatedAll(ns, k + 1, r, change) == UpdatedAll(ns, k, r, change) + Updated(ns[k], r, change)
    ensures queued + SentAll(ns, k + 1, r, change) == queued + SentAll(ns, k, r, change) + Sent(ns[k], r, change)
  {
  }

  /** Accesses k to j, which the change does not concern, stay as they are and send nothing. */
  lemma {:induction false} UnchangedBetween(ns: seq<Node<DataAccess>>, k: nat, j: nat, r: Region, change: Change)
    requires k <= j <= |ns| && forall i :: k <= i < j ==> Unconcerned(ns, i, r)
    ensures UpdatedAll(ns, j, r, change) == UpdatedAll(ns, k, r, change) + ns[k..j]
    ensures SentAll(ns, j, r, change) == SentAll(ns, k, r, change)
    decreases j
  {
    if k < j {
      UnchangedBetween(ns, k, j - 1, r, change);
      assert Unconcerned(ns, j - 1, r);
      AppendNext(UpdatedAll(ns, k, r, change), ns, k, j - 1);
    }
  }

  lemma SameRegions(ns: seq<Node<DataAccess>>, i: nat, a: DataAccess, ms: seq<Node<DataAccess>>)
    requires Ordered(ns) && i < |ns| && ms == ns[i := Node(ns[i].region, a)]
    ensures Ordered(ms)
    ensures Blocking(ms) == Blocking(ns) - (if EnforcesDependency(ns[i].content) then 1 else 0)
                            + (if EnforcesDependency(a) then 1 else 0)
  {
    forall k | 0 <= k < |ns| ensures InOrder(ms, k) { assert InOrder(ns, k); }
    var before, after := ns[..i], ns[i + 1..];
    assert ns == before + [ns[i]] + after && ms == before + [ms[i]] + after;
    BlockingAppend(before, [ns[i]]);
    BlockingAppend(before + [ns[i]], after);
    BlockingAppend(before, [ms[i]]);
    BlockingAppend(before + [ms[i]], after);
    assert [ns[i]][..0] == [] && [ms[i]][..0] == [];
  }

  lemma ReplaceMiddle<X>(before: seq<X>, left: seq<X>, x: X, y: X, right: seq<X>, after: seq<X>)
    ensures var all := before + (left + [x] + right) + after;
            var i := |before| + |left|;
            all[i] == x && all[i := y] == before + (left + [y] + right) + after
  {
  }

  /** Cutting a node makes each piece count like the whole did. */
  lemma CountAfterCut(before: seq<Node<DataAccess>>, n: Node<DataAccess>, after: seq<Node<DataAccess>>, r: Region)
    requires Overlap(n.region, r)
    ensures Blocking(before + Fragmented(n, r, false) + after)
         == Blocking(before + [n] + after) + (if EnforcesDependency(n.content) then |Fragmented(n, r, false)| - 1 else 0)
    ensures EnforcesDependency(n.content) ==> Blocking(before + [n] + after) > 0
  {
    var both := Shared(n.region, r);
    var left, middle, right := LeftOf(n, both), [Node(both, n.content)], RightOf(n, both);
    BlockingAppend(left, middle);
    BlockingAppend(left + middle, right);
    BlockingAppend(before, left + middle + right);
    BlockingAppend(before + (left + middle + right), after);
    BlockingAppend(before, [n]);
    BlockingAppend(before + [n], after);
    assert [n][..0] == [] && middle[..0] == [];
  }

  /** Registering an access whose status does not change otherwise gives rise to no update. */
  lemma SameStatusSendsNothing(a: DataAccess, r: Region)
    ensures Tag(HandleStatusChanges(a, a), r) == []
  {
    assert ToNext(a) - ToNext(a) == {} && ToFragment(a) - ToFragment(a) == {};
  }

  /** The registered accesses of a task, the count of those that keep it from running, the updates it has
      given rise to, and how often it has been found ready. */
  class TaskDataAccesses {
    const accesses: IntrusiveLinearRegionMap<DataAccess>
    var guard: nat
    var predecessors: nat
    var delayed: seq<RegionUpdate>
    var reported: nat

    ghost predicate Valid()
      reads this, accesses
    {
      && accesses.Valid()
      && predecessors == guard + Blocking(accesses.nodes)
      && reported == (if predecessors == 0 then 1 else 0)
    }

    /** Registers the accesses while two extra predecessors keep the task from becoming ready. */
    constructor (accesses: IntrusiveLinearRegionMap<DataAccess>)
      requires accesses.Valid()
      ensures Valid() && this.accesses == accesses && guard == 2 && delayed == [] && reported == 0
    {
      var count: nat := 2;
      var i := 0;
      while i < |accesses.nodes|
        invariant i <= |accesses.nodes| && count == 2 + Blocking(accesses.nodes[..i])
      {
        assert accesses.nodes[..i + 1][..i] == accesses.nodes[..i];
        if EnforcesDependency(accesses.nodes[i].content) {
          count := count + 1;
        }
        i := i + 1;
      }
      assert accesses.nodes[..|accesses.nodes|] == accesses.nodes;
      this.accesses := accesses;
      this.guard := 2;
      this.predecessors := count;
      this.delayed := [];
      this.reported := 0;
    }

    /** Ends the registration: says whether the task is ready already. */
    method FinishRegistration() returns (ready: bool)
      requires Valid() && guard == 2
      modifies this
      ensures Valid() && guard == 0 && delayed == old(delayed)
      ensures ready <==> forall i :: 0 <= i < |accesses.nodes| ==> MayStart(accesses.nodes[i].content)
      ensures reported == old(reported) + (if ready then 1 else 0)
    {
      NobodyBlocks(accesses.nodes);
      guard := 0;
      predecessors := predecessors - 2;
      ready := predecessors == 0;
      if ready { reported := reported + 1; }
    }

    /** Acts on the difference between two statuses of an access: one that gets registered is counted if it blocks, one that
        stops blocking is taken off the count, and what it newly lets through is queued. */
    method HandleDataAccessStatusChanges(wasRegistered: bool, initial: DataAccess, updated: DataAccess, region: Region)
      requires wasRegistered && !MayStart(initial) && MayStart(updated) ==> predecessors > 0
      requires if wasRegistered then MayStart(initial) ==> MayStart(updated) else initial == updated
      modifies this`predecessors, this`delayed, this`reported
      ensures delayed == old(delayed) + Tag(HandleStatusChanges(initial, updated), region)
      ensures !wasRegistered ==> reported == old(reported) && predecessors == old(predecessors) + if MayStart(updated) then 0 else 1
      ensures wasRegistered ==>
                && predecessors == old(predecessors) - (if !MayStart(initial) && MayStart(updated) then 1 else 0)
                && reported == old(reported) + (if predecessors == 0 && old(predecessors) > 0 then 1 else 0)
    {
      BlocksExactly(initial);
      BlocksExactly(updated);
      if !wasRegistered && EnforcesDependency(updated) {
        predecessors := predecessors + 1;
      }
      if EnforcesDependency(initial) && !EnforcesDependency(updated) {
        predecessors := predecessors - 1;
        if predecessors == 0 { reported := reported + 1; }
      }
      delayed := delayed + Tag(HandleStatusChanges(initial, updated), region);
    }

    /** A piece cut off from an access has its status but is not registered yet; registering it counts it, and gives rise to
        no update. */
    method SetUpNewFragment(n: Node<DataAccess>)
      modifies this`predecessors, this`delayed, this`reported
      ensures delayed == old(delayed) && reported == old(reported)
      ensures predecessors == old(predecessors) + if EnforcesDependency(n.content) then 1 else 0
    {
      BlocksExactly(n.content);
      HandleDataAccessStatusChanges(false, n.content, n.content, n.region);
      SameStatusSendsNothing(n.content, n.region);
    }

    /** Sets the part of an access that lies in `region` apart. The access itself becomes that part, and the pieces to its left
        and to its right are registered as new ones. */
    method FragmentAccess(position: nat, region: Region) returns (fragment: nat)
      requires Valid() && position < |accesses.nodes| && Overlap(accesses.nodes[position].region, region)
      modifies this, accesses
      ensures Valid() && guard == old(guard) && delayed == old(delayed)
      ensures accesses.nodes == old(accesses.nodes)[..position] + Fragmented(old(accesses.nodes[position]), region, false)
                                + old(accesses.nodes)[position + 1..]
      ensures fragment == position + |LeftOf(old(accesses.nodes[position]), Shared(old(accesses.nodes[position].region), region))|
    {
      var original := accesses.nodes[position];
      ghost var before, after := accesses.nodes[..position], accesses.nodes[position + 1..];
      assert accesses.nodes == before + [original] + after;
      CountAfterCut(before, original, after, region);
      var size := |accesses.nodes|;
      var cut := accesses.FragmentByIntersection(position, region, false);
      fragment := cut.value;
      RegisterPieces(position, fragment, original.content);
      RegisterPieces(fragment + 1, position + 1 + (|accesses.nodes| - size), original.content);
    }

    /** Registers the pieces from `from` to `to`, all of which have the status of the access they were cut from. */
    method RegisterPieces(from: nat, to: nat, ghost content: DataAccess)
      requires from <= to <= |accesses.nodes| && forall k :: from <= k < to ==> accesses.nodes[k].content == content
      modifies this`predecessors, this`delayed, this`reported
      ensures delayed == old(delayed) && reported == old(reported)
      ensures predecessors == old(predecessors) + if EnforcesDependency(content) then to - from else 0
    {
      for k := from to to
        invariant delayed == old(delayed) && reported == old(reported)
        invariant predecessors == old(predecessors) + if EnforcesDependency(content) then k - from else 0
      {
        SetUpNewFragment(accesses.nodes[k]);
      }
    }

    /** Changes an access; the task is reported when nothing blocks it any more. */
    method ChangeAccess(i: nat, change: Change)
      requires Valid() && i < |accesses.nodes| && Calms(change)
      modifies this, accesses
      ensures Valid() && guard == old(guard)
      ensures var n := old(accesses.nodes[i]);
              && accesses.nodes == old(accesses.nodes)[i := Node(n.region, change(n.content))]
              && delayed == old(delayed) + Tag(HandleStatusChanges(n.content, change(n.content)), n.region)
    {
      var n := accesses.nodes[i];
      var updated := change(n.content);
      ghost var ns := accesses.nodes;
      SameRegions(ns, i, updated, ns[i := Node(n.region, updated)]);
      accesses.nodes := accesses.nodes[i := Node(n.region, updated)];
      BlocksExactly(n.content);
      BlocksExactly(updated);
      HandleDataAccessStatusChanges(true, n.content, updated, n.region);
    }

    /** Changes the access at `position`, the first of `rest`, where it lies in `region`. */
    method ApplyToAccess(region: Region, change: Change, position: nat,
                         ghost done: seq<Node<DataAccess>>, ghost rest: seq<Node<DataAccess>>) returns (it: nat)
      requires Valid() && Calms(change) && rest != [] && accesses.nodes == done + rest && position == |done|
      modifies this, accesses
      ensures Valid() && guard == old(guard)
      ensures accesses.nodes == done + Updated(rest[0], region, change) + rest[1..]
      ensures it == |done + Updated(rest[0], region, change)|
      ensures delayed == old(delayed) + Sent(rest[0], region, change)
    {
      it := position + 1;
      if Overlap(accesses.nodes[position].region, region) {
        var size := |accesses.nodes|;
        ApplyToOverlapping(region, change, position, done, rest[0], rest[1..]);
        it := it + (|accesses.nodes| - size);
      }
    }

    /** Cuts out the part of an access that lies in the region, and changes it. */
    method ApplyToOverlapping(region: Region, change: Change, position: nat,
                              ghost done: seq<Node<DataAccess>>, ghost n: Node<DataAccess>, ghost rest: seq<Node<DataAccess>>)
      requires Valid() && Calms(change)
      requires accesses.nodes == done + [n] + rest && position == |done| && Overlap(n.region, region)
      modifies this, accesses
      ensures Valid() && guard == old(guard)
      ensures accesses.nodes == done + Updated(n, region, change) + rest
      ensures delayed == old(delayed) + Sent(n, region, change)
    {
      ghost var both := Shared(n.region, region);
      ReplaceMiddle(done, LeftOf(n, both), Node(both, n.content), Node(both, change(n.content)), RightOf(n, both), rest);
      var fragment := FragmentAccess(position, region);
      assert accesses.nodes == done + Fragmented(n, region, false) + rest;
      ChangeAccess(fragment, change);
    }

    /** The first `k` of the original accesses `ns` have been changed, and the next one is at `it`. Contracts compare it
        with `true` to have it proved as one fact. */
    ghost predicate ChangedUpTo(region: Region, change: Change, ns: seq<Node<DataAccess>>, queued: seq<RegionUpdate>, k: nat, it: nat)
      reads this, accesses
    {
      && k <= |ns|
      && it == |UpdatedAll(ns, k, region, change)|
      && accesses.nodes == UpdatedAll(ns, k, region, change) + ns[k..]
      && delayed == queued + SentAll(ns, k, region, change)
    }

    /** So much holds between two accesses, with the guard still at g. */
    ghost predicate Midway(region: Region, change: Change, ns: seq<Node<DataAccess>>, queued: seq<RegionUpdate>, k: nat, it: nat, g: nat)
      reads this, accesses
    {
      Valid() && guard == g && ChangedUpTo(region, change, ns, queued, k, it)
    }

    /** The next access, if there is one, is the k-th of the original ones. */
    lemma NextAccess(region: Region, change: Change, ns: seq<Node<DataAccess>>, queued: seq<RegionUpdate>, k: nat, it: nat, g: nat)
      requires Midway(region, change, ns, queued, k, it, g) == true
      ensures k <= |ns| && (it < |accesses.nodes| <==> k < |ns|) && (k < |ns| ==> accesses.nodes[it] == ns[k])
    {
    }

    method ApplyToOne(region: Region, change: Change, it: nat,
                      ghost ns: seq<Node<DataAccess>>, ghost queued: seq<RegionUpdate>, ghost k: nat, ghost g: nat)
      returns (it': nat)
      requires Calms(change) && Midway(region, change, ns, queued, k, it, g) == true && k < |ns|
      modifies this, accesses
      ensures Midway(region, change, ns, queued, k + 1, it', g) == true
    {
      OneMore(ns, k, region, change, queued);
      it' := ApplyToAccess(region, change, it, UpdatedAll(ns, k, region, change), ns[k..]);
    }

    method ApplyFrom(region: Region, change: Change, start: nat,
                     ghost ns: seq<Node<DataAccess>>, ghost queued: seq<RegionUpdate>, ghost first: nat, ghost g: nat)
      returns (it: nat, ghost k: nat)
      requires Calms(change) && Midway(region, change, ns, queued, first, start, g) == true
      modifies this, accesses
      ensures Midway(region, change, ns, queued, k, it, g) == true
      ensures k <= |ns| && (k < |ns| ==> region.End() <= ns[k].region.start)
    {
      it, k := start, first;
      while it < |accesses.nodes| && accesses.nodes[it].region.start < region.End()
        invariant Midway(region, change, ns, queued, k, it, g) == true
        decreases |ns| - k
      {
        NextAccess(region, change, ns, queued, k, it, g);
        it := ApplyToOne(region, change, it, ns, queued, k, g);
        k := k + 1;
      }
      NextAccess(region, change, ns, queued, k, it, g);
    }

    /** Before the first access that the region can reach there is nothing to do. */
    lemma StartHere(region: Region, change: Change, it: nat)
      requires it <= |accesses.nodes| && forall i :: 0 <= i < it ==> Unconcerned(accesses.nodes, i, region)
      ensures ChangedUpTo(region, change, accesses.nodes, delayed, it, it) == true
    {
      UnchangedBetween(accesses.nodes, 0, it, region, change);
      assert accesses.nodes == accesses.nodes[0..it] + accesses.nodes[it..];
    }

    /** After the last one there is nothing left to do. */
    lemma StopHere(region: Region, change: Change, ns: seq<Node<DataAccess>>, queued: seq<RegionUpdate>, k: nat, it: nat)
      requires ChangedUpTo(region, change, ns, queued, k, it) && forall i :: k <= i < |ns| ==> Unconcerned(ns, i, region)
      ensures accesses.nodes == UpdatedAll(ns, |ns|, region, change)
      ensures delayed == queued + SentAll(ns, |ns|, region, change)
    {
      UnchangedBetween(ns, k, |ns|, region, change);
      assert ns[k..|ns|] == ns[k..];
    }

    /** Changes every access where it lies in `region`: exactly the addresses of the region change, each gives rise to exactly
        the updates that the one-byte protocol prescribes, and the count of predecessors stays the number of blocking
        accesses. */
    method ApplyToRegion(region: Region, change: Change)
      requires Valid() && Calms(change)
      modifies this, accesses
      ensures Valid() && guard == old(guard)
      ensures accesses.nodes == UpdatedAll(old(accesses.nodes), |old(accesses.nodes)|, region, change)
      ensures delayed == old(delayed) + SentAll(old(accesses.nodes), |old(accesses.nodes)|, region, change)
      ensures forall p: nat :: At(accesses.nodes, p) == UpdateAt(old(At(accesses.nodes, p)), region, change, p)
      ensures forall p: nat :: QueuedAt(delayed, p) == old(QueuedAt(delayed, p)) + SentAt(old(At(accesses.nodes, p)), region, change, p)
    {
      ghost var ns, queued := accesses.nodes, delayed;
      var it := accesses.StartingPoint(region.start);
      StartHere(region, change, it);
      ghost var k;
      it, k := ApplyFrom(region, change, it, ns, queued, it, guard);
      ApartFrom(ns, k, region);
      StopHere(region, change, ns, queued, k, it);
      forall p: nat
        ensures At(accesses.nodes, p) == UpdateAt(At(ns, p), region, change, p)
        ensures QueuedAt(delayed, p) == QueuedAt(queued, p) + SentAt(At(ns, p), region, change, p)
      {
        RegionChangeIsBytewise(ns, region, change, p);
        QueuedAppend(queued, SentAll(ns, |ns|, region, change), p);
      }
    }

    /** Applies a queued update: exactly the addresses of its region receive its bits. */
    method ProcessUpdateOperation(op: RegionUpdate)
      requires Valid()
      modifies this, accesses
      ensures Valid() && guard == old(guard)
      ensures accesses.nodes == UpdatedAll(old(accesses.nodes), |old(accesses.nodes)|, op.region, Receiving(op.bits))
      ensures delayed == old(delayed) + SentAll(old(accesses.nodes), |old(accesses.nodes)|, op.region, Receiving(op.bits))
      ensures forall p: nat :: At(accesses.nodes, p) == UpdateAt(old(At(accesses.nodes, p)), op.region, Receiving(op.bits), p)
    {
      ApplyToRegion(op.region, Receiving(op.bits));
    }

    /** Marks the accesses of a region as complete. */
    method FinalizeAccess(region: Region)
      requires Valid()
      modifies this, accesses
      ensures Valid() && guard == old(guard)
      ensures delayed == old(delayed) + SentAll(old(accesses.nodes), |old(accesses.nodes)|, region, Completing())
      ensures forall p: nat :: At(accesses.nodes, p) == UpdateAt(old(At(accesses.nodes, p)), region, Completing(), p)
    {
      ApplyToRegion(region, Completing());
    }

    /** Links the accesses of a region to the next one, with some bits inhibited. */
    method LinkToNext(region: Region, next: nat, inhibited: set<Bit>)
      requires Valid()
      modifies this, accesses
      ensures Valid() && guard == old(guard)
      ensures delayed == old(delayed) + SentAll(old(accesses.nodes), |old(accesses.nodes)|, region, Linking(next, inhibited))
      ensures forall p: nat :: At(accesses.nodes, p) == UpdateAt(old(At(accesses.nodes, p)), region, Linking(next, inhibited), p)
    {
      ApplyToRegion(region, Linking(next, inhibited));
    }
  }
}
