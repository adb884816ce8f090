/** One access object of the fragmented dependency system: its status, what it lets through to the
    objects it is linked to, and the updates a change of its status gives rise to. */
module DataAccesses {
  import opened Options

  /** Commutative accesses are registered as `ReadWrite`; reductions are not modelled. */
  datatype AccessType = Read | Write | ReadWrite | Concurrent

  /** The satisfiability that travels from access to access. `ReductionInfoBit` stands for the
      receipt of a (null) reduction descriptor. */
  datatype Bit = ReadBit | WriteBit | ConcurrentBit | ReductionInfoBit

  const ALL_BITS: set<Bit> := set b: Bit | true

  datatype ObjectKind = AccessObject | FragmentObject

  /** A dependency domain is either the one nested in a registered access (`owner` is its link) or one
      of a task that does not itself access the data. */
  datatype Domain = Outside(root: nat) | Inside(owner: nat)

  /** `received` and `inhibited` are the status bits of the object; `fragment` is present exactly when
      the has-subaccesses bit is set, and names the initial fragment. Links are plain numbers. */
  datatype DataAccess = DataAccess(
    kind: ObjectKind, dom: Domain, ty: AccessType, weak: bool,
    received: set<Bit>, complete: bool, inhibited: set<Bit>,
    fragment: Option<nat>, next: Option<nat>)

  datatype UpdateOperation = UpdateOperation(target: nat, bits: set<Bit>)

  /** Whether an access of type `ty` lets `b` through before it has completed. */
  predicate Transparent(ty: AccessType, b: Bit) {
    match b
    case ReadBit => ty == Read
    case WriteBit => false
    case ConcurrentBit => ty == Concurrent
    case ReductionInfoBit => ty != Write && ty != ReadWrite
  }

  function TransparentBits(ty: AccessType): set<Bit> {
    set b: Bit | Transparent(ty, b)
  }

  predicate Satisfied(a: DataAccess) {
    && ReductionInfoBit in a.received
    && match a.ty
       case Read => ReadBit in a.received
       case Concurrent => ConcurrentBit in a.received
       case _ => ReadBit in a.received && WriteBit in a.received
  }

  predicate EnforcesDependency(a: DataAccess) {
    !a.weak && !Satisfied(a) && a.kind.AccessObject?
  }

  /** What an access of each type has to receive before its task may run. */
  function Needed(ty: AccessType): set<Bit> {
    match ty
    case Read => {ReadBit, ReductionInfoBit}
    case Concurrent => {ConcurrentBit, ReductionInfoBit}
    case Write => {ReadBit, WriteBit, ReductionInfoBit}
    case ReadWrite => {ReadBit, WriteBit, ReductionInfoBit}
  }

  /** As far as this object is concerned the task may run: only the strong accesses of the task itself have to be served. */
  predicate MayStart(a: DataAccess) {
    a.kind.AccessObject? && !a.weak ==> Needed(a.ty) <= a.received
  }

  /** Weak accesses and fragments never block a task; the others do exactly as long as something is missing. */
  lemma BlocksExactly(a: DataAccess)
    ensures EnforcesDependency(a) <==> !MayStart(a)
    ensures Satisfied(a) <==> Needed(a.ty) <= a.received
  {
    assert a.ty == Read ==> (Needed(a.ty) <= a.received <==> ReadBit in a.received && ReductionInfoBit in a.received);
  }

  predicate PropagatesToNext(a: DataAccess, b: Bit) {
    && a.next.Some?
    && b in a.received
    && b !in a.inhibited
    && (if a.fragment.Some? then Transparent(a.ty, b)
        else a.kind.FragmentObject? || Transparent(a.ty, b) || a.complete)
  }

  function ToNext(a: DataAccess): set<Bit> {
    set b: Bit | PropagatesToNext(a, b)
  }

  function ToFragment(a: DataAccess): set<Bit> {
    if a.fragment.Some? then a.received else {}
  }

  /** Whether the status of `a` says that `b` has been sent to the object linked as `x`. */
  predicate Emits(a: DataAccess, x: nat, b: Bit) {
    || (a.next == Some(x) && b in ToNext(a))
    || (a.fragment == Some(x) && b in ToFragment(a))
  }

  /** The updates queued when the status of one object goes from `a` to `a'`. */
  function HandleStatusChanges(a: DataAccess, a': DataAccess): seq<UpdateOperation> {
    var toNext := ToNext(a') - ToNext(a);
    var toFragment := ToFragment(a') - ToFragment(a);
    (if a'.next.Some? && toNext != {} then [UpdateOperation(a'.next.value, toNext)] else [])
    + (if a'.fragment.Some? && toFragment != {} then [UpdateOperation(a'.fragment.value, toFragment)] else [])
  }

  /** The number of queued updates that carry `b` to `x`. */
  function Count(ops: seq<UpdateOperation>, x: nat, b: Bit): nat {
    if ops == [] then 0
    else (if ops[0].target == x && b in ops[0].bits then 1 else 0) + Count(ops[1..], x, b)
  }

  lemma {:induction false} CountAppend(p: seq<UpdateOperation>, q: seq<UpdateOperation>, x: nat, b: Bit)
    ensures Count(p + q, x, b) == Count(p, x, b) + Count(q, x, b)
  {
    if p == [] {
      assert p + q == q;
    } else {
      assert (p + q)[1..] == p[1..] + q;
      CountAppend(p[1..], q, x, b);
    }
  }

  lemma CountWithout(ops: seq<UpdateOperation>, k: nat, x: nat, b: Bit)
    requires k < |ops|
    ensures Count(ops, x, b)
         == Count(ops[..k] + ops[k + 1..], x, b) + (if ops[k].target == x && b in ops[k].bits then 1 else 0)
  {
    assert ops == ops[..k] + ([ops[k]] + ops[k + 1..]);
    CountAppend(ops[..k], [ops[k]] + ops[k + 1..], x, b);
    CountAppend(ops[..k], ops[k + 1..], x, b);
    assert ([ops[k]] + ops[k + 1..])[1..] == ops[k + 1..];
  }

  /** A legal change of one object: nothing received is lost, a link once made stays, and the fragment
      and the link are distinct objects. */
  predicate Advances(a: DataAccess, a': DataAccess) {
    && a'.kind == a.kind && a'.ty == a.ty && a'.dom == a.dom && a'.weak == a.weak
    && a'.fragment == a.fragment
    && a.received <= a'.received
    && (a.complete ==> a'.complete)
    && (a.next.Some? ==> a'.next == a.next && a'.inhibited == a.inhibited)
    && (a'.next.Some? && a'.fragment.Some? ==> a'.next != a'.fragment)
  }

  /** What was sent stays sent, and exactly the newly sent bits are queued, once each. */
  lemma HandleStatusChangesSendsTheDifference(a: DataAccess, a': DataAccess, x: nat, b: Bit)
    requires Advances(a, a')
    ensures Emits(a, x, b) ==> Emits(a', x, b)
    ensures Count(HandleStatusChanges(a, a'), x, b) == (if Emits(a', x, b) && !Emits(a, x, b) then 1 else 0)
  {
    var toNext := ToNext(a') - ToNext(a);
    var toFragment := ToFragment(a') - ToFragment(a);
    var p := if a'.next.Some? && toNext != {} then [UpdateOperation(a'.next.value, toNext)] else [];
    var q := if a'.fragment.Some? && toFragment != {} then [UpdateOperation(a'.fragment.value, toFragment)] else [];
    CountAppend(p, q, x, b);
    assert b in ToNext(a) ==> PropagatesToNext(a', b);
    assert Count(p, x, b) == (if a'.next == Some(x) && b in toNext then 1 else 0) by {
      assert p == [] || p[1..] == [];
    }
    assert Count(q, x, b) == (if a'.fragment == Some(x) && b in toFragment then 1 else 0) by {
      assert q == [] || q[1..] == [];
    }
  }
}
