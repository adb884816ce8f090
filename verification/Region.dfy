/** Intervals of addresses. */
module Regions {

  datatype Region = Region(start: nat, length: nat) {
    function End(): nat { start + length }

    predicate Contains(p: nat) { start <= p < End() }
  }

  function Between(start: nat, end: nat): Region
    requires start <= end
  {
    Region(start, end - start)
  }

  function Max(a: nat, b: nat): nat { if a < b then b else a }

  function Min(a: nat, b: nat): nat { if a < b then a else b }

  predicate Overlap(a: Region, b: Region) {
    a.length > 0 && b.length > 0 && a.start < b.End() && b.start < a.End()
  }

  function Shared(a: Region, b: Region): Region
    requires Overlap(a, b)
  {
    Between(Max(a.start, b.start), Min(a.End(), b.End()))
  }

  function Intersect(a: Region, b: Region): Region {
    if Overlap(a, b) then Shared(a, b) else Region(0, 0)
  }

  predicate FullyContainedIn(a: Region, b: Region) {
    Intersect(a, b) == a
  }

  lemma IntersectMeaning(a: Region, b: Region, p: nat)
    ensures Intersect(a, b).Contains(p) <==> a.Contains(p) && b.Contains(p)
    ensures Overlap(a, b) <==> Intersect(a, b).length > 0
  {
  }

  lemma FullyContainedMeaning(a: Region, b: Region)
    requires a.length > 0
    ensures FullyContainedIn(a, b) <==> forall p: nat :: a.Contains(p) ==> b.Contains(p)
    ensures Overlap(a, b) <==> exists p: nat :: a.Contains(p) && b.Contains(p)
  {
    assert a.Contains(a.start) && a.Contains(a.End() - 1);
    var i := Intersect(a, b);
    if Overlap(a, b) {
      assert i.Contains(i.start) && i.Contains(i.End() - 1);
    }
  }

  predicate Contiguous(a: Region, b: Region) {
    a.start == b.End() || a.End() == b.start
  }

  function ContiguousUnion(a: Region, b: Region): (r: Region)
    requires Contiguous(a, b) && !Overlap(a, b)
    ensures forall p: nat :: r.Contains(p) <==> a.Contains(p) || b.Contains(p)
    ensures r.length == a.length + b.length
  {
    Between(Min(a.start, b.start), Max(a.End(), b.End()))
  }

  datatype Piece = ThisOnly(region: Region) | Both(region: Region) | OtherOnly(region: Region)

  /** What the callbacks of `processIntersectingFragments` are given, in that order. */
  function IntersectingFragments(a: Region, b: Region): seq<Piece>
    requires Overlap(a, b)
  {
    var start, end := Max(a.start, b.start), Min(a.End(), b.End());
    [Both(Between(start, end))]
    + (if a.start < start then [ThisOnly(Between(a.start, start))]
       else if b.start < start then [OtherOnly(Between(b.start, start))] else [])
    + (if end < a.End() then [ThisOnly(Between(end, a.End()))]
       else if end < b.End() then [OtherOnly(Between(end, b.End()))] else [])
  }

  predicate PieceOf(piece: Piece, a: Region, b: Region, p: nat) {
    match piece
    case ThisOnly(_) => a.Contains(p) && !b.Contains(p)
    case Both(_) => a.Contains(p) && b.Contains(p)
    case OtherOnly(_) => b.Contains(p) && !a.Contains(p)
  }

  /** The pieces partition the two regions, and each address is in a piece of the right kind. */
  lemma FragmentsPartition(a: Region, b: Region, p: nat)
    requires Overlap(a, b)
    ensures var pieces := IntersectingFragments(a, b);
            && (forall i :: 0 <= i < |pieces| && pieces[i].region.Contains(p) ==> PieceOf(pieces[i], a, b, p))
            && (forall i, j :: 0 <= i < j < |pieces| ==> !pieces[i].region.Contains(p) || !pieces[j].region.Contains(p))
            && (a.Contains(p) || b.Contains(p) <==> exists i :: 0 <= i < |pieces| && pieces[i].region.Contains(p))
  {
    var pieces := IntersectingFragments(a, b);
    assert pieces[0].Both?;
    if a.Contains(p) || b.Contains(p) {
      if !pieces[0].region.Contains(p) {
        if p < pieces[0].region.start {
          assert pieces[1].region.Contains(p);
        } else {
          assert pieces[|pieces| - 1].region.Contains(p);
        }
      }
    }
  }
}
