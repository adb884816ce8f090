/** The order in which a collaborator of a taskloop visits the partitions. */
module PartitionPaths {
  import opened Division

  /** The remainder of C, which has the sign of the dividend. */
  function Remainder(a: int, b: int): int
    requires b > 0
  {
    if a >= 0 then a % b else -((-a) % b)
  }

  function Modulus(a: int, b: int): int
    requires b > 0
  {
    if a < 0 then Remainder(Remainder(a, b) + b, b) else Remainder(a, b)
  }

  lemma ModulusIsEuclidean(a: int, b: int)
    requires b > 0
    ensures Modulus(a, b) == a % b
  {
    if a < 0 {
      var q, r := (-a) / b, (-a) % b;
      assert a == b * (-q) - r;
      if r == 0 {
        Quotient(a, b, -q, 0);
        Quotient(b, b, 1, 0);
      } else {
        assert b * (-q - 1) == b * (-q) - b;
        Quotient(a, b, -q - 1, b - r);
        Quotient(b - r, b, 0, b - r);
      }
    }
  }

  /** How far from the start the partition visited at position `i` is: 0, -1, 1, -2, 2 and so on when the
      distribution function is in use, and 0, 1, 2 and so on otherwise. */
  function Offset(zigzag: bool, i: nat): int {
    if !zigzag then i else if i % 2 == 0 then i / 2 else -(i + 1) / 2
  }

  /** The partition visited at position `i`. */
  function Visited(cpu: nat, n: nat, zigzag: bool, i: nat): nat
    requires n > 0
  {
    (cpu + Offset(zigzag, i)) % n
  }

  predicate OnPath(path: seq<nat>, cpu: nat, n: nat, zigzag: bool)
    requires n > 0
  {
    forall i :: 0 <= i < |path| ==> path[i] == Visited(cpu, n, zigzag, i)
  }

  predicate IsPath(path: seq<nat>, cpu: nat, n: nat, zigzag: bool)
    requires n > 0
  {
    |path| == n && OnPath(path, cpu, n, zigzag)
  }

  /** Where on the path the partition at distance `d` from the start is. */
  function Position(n: nat, zigzag: bool, d: nat): nat
    requires d < n
  {
    if !zigzag then d else if d <= (n - 1) / 2 then 2 * d else 2 * (n - d) - 1
  }

  /** Modulo n, a number is an offset from `cpu` exactly when its distance from `cpu` is that offset. */
  lemma OffsetOf(cpu: nat, n: nat, d: int, p: nat)
    requires p < n
    ensures (cpu + d) % n == p <==> (p - cpu) % n == d % n
  {
    if (cpu + d) % n == p {
      SameRemainder(cpu + d, 0 - cpu, n);
    }
    if (p - cpu) % n == d % n {
      SameRemainder(p - cpu, cpu, n);
      SameRemainder(d, cpu, n);
      Quotient(p, n, 0, p);
    }
  }

  lemma OffsetRemainder(n: nat, zigzag: bool, i: nat)
    requires i < n
    ensures var o := Offset(zigzag, i); o % n == if o >= 0 then o else o + n
  {
    var o := Offset(zigzag, i);
    if o >= 0 {
      Quotient(o, n, 0, o);
    } else {
      Quotient(o, n, -1, o + n);
    }
  }

  lemma OffsetAt(n: nat, zigzag: bool, d: nat, i: nat)
    requires i < n && d < n
    ensures Position(n, zigzag, d) < n
    ensures d == (var o := Offset(zigzag, i); if o >= 0 then o else o + n) <==> i == Position(n, zigzag, d)
  {
  }

  lemma VisitedAt(cpu: nat, n: nat, zigzag: bool, p: nat, i: nat)
    requires p < n && i < n
    ensures Visited(cpu, n, zigzag, i) == p <==> i == Position(n, zigzag, (p - cpu) % n)
  {
    OffsetOf(cpu, n, Offset(zigzag, i), p);
    OffsetRemainder(n, zigzag, i);
    OffsetAt(n, zigzag, (p - cpu) % n, i);
  }

  /** A path visits every partition, and each exactly once. */
  lemma PathVisitsEachOnce(path: seq<nat>, cpu: nat, n: nat, zigzag: bool, p: nat)
    requires n > 0 && IsPath(path, cpu, n, zigzag) && p < n
    ensures exists i :: 0 <= i < n && path[i] == p && forall j :: 0 <= j < n && path[j] == p ==> j == i
  {
    var i := Position(n, zigzag, (p - cpu) % n);
    OffsetAt(n, zigzag, (p - cpu) % n, 0);
    forall j | 0 <= j < n ensures path[j] == p <==> j == i {
      VisitedAt(cpu, n, zigzag, p, j);
    }
    assert path[i] == p;
  }

  function Sign(i: nat): int {
    if i % 2 == 0 then 1 else -1
  }

  lemma SignedMove(i: nat)
    ensures Sign(i) * i == Move(i) && Sign(i) * -1 == Sign(i + 1)
  {
  }

  /** The moves of the distribution function get longer and change direction each time. */
  function Move(i: nat): int {
    var length: int := i;
    if i % 2 == 0 then length else -length
  }

  lemma NextInZigzag(cpu: nat, n: nat, i: nat)
    requires n > 0
    ensures var previous := if i == 0 then cpu % n else Visited(cpu, n, true, i - 1);
            Modulus(previous + Move(i), n) == Visited(cpu, n, true, i)
  {
    var o := if i == 0 then 0 else Offset(true, i - 1);
    assert o + Move(i) == Offset(true, i);
    SameRemainder(cpu + o, Move(i), n);
    ModulusIsEuclidean((cpu + o) % n + Move(i), n);
  }

  lemma NextInLine(cpu: nat, n: nat, i: nat)
    requires n > 0
    ensures Remainder(Visited(cpu, n, false, i) + 1, n) == Visited(cpu, n, false, i + 1)
  {
    SameRemainder(cpu + i, 1, n);
  }

  method GetPartitionPath(cpu: nat, n: nat, zigzag: bool) returns (path: seq<nat>)
    requires n > 0
    ensures IsPath(path, cpu, n, zigzag)
  {
    path := [];
    var partition := Remainder(cpu, n);
    if zigzag {
      var sign := 1;
      for i := 0 to n
        invariant sign == Sign(i)
        invariant |path| == i && OnPath(path, cpu, n, true)
        invariant partition == if i == 0 then cpu % n else Visited(cpu, n, true, i - 1)
      {
        NextInZigzag(cpu, n, i);
        SignedMove(i);
        partition := Modulus(partition + sign * i, n);
        path := path + [partition];
        sign := sign * -1;
      }
    } else {
      for i := 0 to n
        invariant partition == Visited(cpu, n, false, i)
        invariant |path| == i && OnPath(path, cpu, n, false)
      {
        path := path + [partition];
        NextInLine(cpu, n, i);
        partition := Remainder(partition + 1, n);
      }
    }
  }
}
