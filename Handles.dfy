/** Choosing the handles an edge attaches to, from the offset between the
    centres of its source and target nodes. Screen y grows downward, so a
    positive `dy` means the target is below the source.

    The angle of the offset is classified by comparing `dx` and `dy` exactly;
    this is the same classification as the one on `atan2` degrees, read off
    the half-open ranges [-45, 45), [45, 135), [135, 225) and [225, 315). */
module Handles {
  import opened Model

  function Abs(r: real): real { if r < 0.0 then -r else r }

  function Opposite(s: Side): Side
  {
    match s
    case Top => Bottom
    case Right => Left
    case Bottom => Top
    case Left => Right
  }

  /** The side of the source that faces the target. An offset of (0, 0) has
      angle 0, which is the right side. */
  function AngleSide(dx: real, dy: real): (s: Side)
    ensures s == Right <==> (dx == 0.0 && dy == 0.0) || (dx > 0.0 && -dx <= dy < dx)
    ensures s == Bottom <==> dy > 0.0 && -dy < dx <= dy
    ensures s == Left <==> dx < 0.0 && dx < dy <= -dx
    ensures s == Top <==> dy < 0.0 && dy <= dx < -dy
  {
    if (dx == 0.0 && dy == 0.0) || (dx > 0.0 && -dx <= dy < dx) then Right
    else if dy > 0.0 && -dy < dx <= dy then Bottom
    else if dx < 0.0 && dx < dy <= -dx then Left
    else Top
  }

  /** The side of the target that faces the source: the classification of the
      incoming angle, which is the outgoing angle turned by 180 degrees (for
      the zero offset, 0 + 180 = 180, the left side). */
  function IncomingSide(dx: real, dy: real): Side
  {
    if dx == 0.0 && dy == 0.0 then Left else AngleSide(-dx, -dy)
  }

  /** The incoming side is always opposite the outgoing side. */
  lemma IncomingOpposite(dx: real, dy: real)
    ensures IncomingSide(dx, dy) == Opposite(AngleSide(dx, dy))
  {
  }

  /** Nodes closer than 100 apart (squared distance below 10000) use the
      dominant axis instead, preferring horizontal on ties. */
  predicate Close(dx: real, dy: real)
  {
    dx * dx + dy * dy < 10000.0
  }

  function CloseSide(dx: real, dy: real): (s: Side)
    ensures (s == Left || s == Right) <==> Abs(dx) >= Abs(dy)
    ensures s == Right <==> Abs(dx) >= Abs(dy) && dx >= 0.0
    ensures s == Bottom <==> Abs(dx) < Abs(dy) && dy >= 0.0
  {
    if Abs(dx) >= Abs(dy) then (if dx >= 0.0 then Right else Left)
    else if dy >= 0.0 then Bottom else Top
  }

  /** `determineOptimalHandles`: the source side facing the target and the
      target side facing the source, both centred. */
  function OptimalHandles(dx: real, dy: real): (h: (Handle, Handle))
    ensures h.0.offset == Center && h.0.role == Source
    ensures h.1.offset == Center && h.1.role == Target
    ensures h.1.side == Opposite(h.0.side)
  {
    if Close(dx, dy) then
      var s := CloseSide(dx, dy);
      (Handle(s, Center, Source), Handle(Opposite(s), Center, Target))
    else
      IncomingOpposite(dx, dy);
      (Handle(AngleSide(dx, dy), Center, Source), Handle(IncomingSide(dx, dy), Center, Target))
  }

  /** The override for close nodes changes nothing except on the diagonals
      |dx| = |dy|: everywhere else the sides follow the angle. */
  lemma OptimalFollowsAngle(dx: real, dy: real)
    requires Abs(dx) != Abs(dy) || (dx == 0.0 && dy == 0.0)
    ensures OptimalHandles(dx, dy).0.side == AngleSide(dx, dy)
  {
  }

  /** On a diagonal, close nodes connect horizontally while distant nodes on
      the diagonal below-right connect vertically. */
  lemma CloseDiagonalDiffers()
    ensures OptimalHandles(10.0, 10.0).0.side == Right
    ensures AngleSide(10.0, 10.0) == Bottom
    ensures OptimalHandles(100.0, 100.0).0.side == Bottom
  {
  }

  /** `getHandlesForBidirectionalEdges`: the dominant axis (horizontal only
      when |dx| > |dy|) picks the sides; the first direction uses centred
      handles, the second shifts both handles off centre. */
  function BidirectionalHandles(dx: real, dy: real, first: bool): (h: (Handle, Handle))
    ensures h.0.role == Source && h.1.role == Target
    ensures h.1.side == Opposite(h.0.side)
    ensures (h.0.side == Left || h.0.side == Right) <==> Abs(dx) > Abs(dy)
    ensures first <==> h.0.offset == Center
    ensures first <==> h.1.offset == Center
    ensures Abs(dx) > Abs(dy) ==> (h.0.side == Right <==> dx > 0.0)
    ensures Abs(dx) <= Abs(dy) ==> (h.0.side == Bottom <==> dy > 0.0)
    ensures !first ==> h.0.offset == Toward(if Abs(dx) > Abs(dy) then Top else Left)
    ensures !first ==> h.1.offset == Toward(if Abs(dx) > Abs(dy) then Bottom else Right)
  {
    if Abs(dx) > Abs(dy) then
      if dx > 0.0 then
        if first then (Handle(Right, Center, Source), Handle(Left, Center, Target))
        else (Handle(Right, Toward(Top), Source), Handle(Left, Toward(Bottom), Target))
      else
        if first then (Handle(Left, Center, Source), Handle(Right, Center, Target))
        else (Handle(Left, Toward(Top), Source), Handle(Right, Toward(Bottom), Target))
    else
      if dy > 0.0 then
        if first then (Handle(Bottom, Center, Source), Handle(Top, Center, Target))
        else (Handle(Bottom, Toward(Left), Source), Handle(Top, Toward(Right), Target))
      else
        if first then (Handle(Top, Center, Source), Handle(Bottom, Center, Target))
        else (Handle(Top, Toward(Left), Source), Handle(Bottom, Toward(Right), Target))
  }

  /** The two directions of a pair, A to B first and B to A second, attach to
      the same side of each node at different points, so they do not share a
      handle position. */
  lemma ReverseSecondSeparate(dx: real, dy: real)
    requires dx != 0.0 || dy != 0.0
    ensures var ab := BidirectionalHandles(dx, dy, true);
      var ba := BidirectionalHandles(-dx, -dy, false);
      ba.1.side == ab.0.side && ba.0.side == ab.1.side &&
      ba.1.offset != ab.0.offset && ba.0.offset != ab.1.offset
  {
  }

  /** Two transitions in the same direction: the repeat leaves from the same
      sides as the first, shifted off centre. */
  lemma RepeatSameSides(dx: real, dy: real)
    ensures var a := BidirectionalHandles(dx, dy, true);
      var b := BidirectionalHandles(dx, dy, false);
      a.0.side == b.0.side && a.1.side == b.1.side && a.0.offset != b.0.offset
  {
  }
}
