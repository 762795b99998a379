/** On which side of a line a point or a box lies (P_PointOnLineSide and
    P_BoxOnLineSide of doom/p_maputl.c). */
module LineSide {
  import opened Fixed

  /** A line from (x, y) along (dx, dy). */
  datatype Divline = Divline(x: int, y: int, dx: int, dy: int)

  predicate ValidLine(ld: Divline) {
    IsInt32(ld.dx) && IsInt32(ld.dy) && (ld.dx != 0 || ld.dy != 0)
  }

  /** The differences to the origin of the line fit a 32-bit int, as the subtractions of the code demand. */
  predicate Near(ld: Divline, x: int, y: int) {
    IsInt32(x - ld.x) && IsInt32(y - ld.y)
  }

  /** 0: front, 1: back. */
  function PointOnLineSide(x: int, y: int, ld: Divline): (side: int)
    ensures side == 0 || side == 1
  {
    if ld.dx == 0 then
      if x <= ld.x then (if ld.dy > 0 then 1 else 0) else (if ld.dy < 0 then 1 else 0)
    else if ld.dy == 0 then
      if y <= ld.y then (if ld.dx < 0 then 1 else 0) else (if ld.dx > 0 then 1 else 0)
    else
      var left := FixedMul(Shr16(ld.dy), Int32(x - ld.x));
      var right := FixedMul(Int32(y - ld.y), Shr16(ld.dx));
      if right < left then 0 else 1
  }

  datatype Slope = Horizontal | Vertical | Positive | Negative

  /** The slope types as level setup assigns them. */
  function SlopeOf(ld: Divline): Slope {
    if ld.dx == 0 then Vertical
    else if ld.dy == 0 then Horizontal
    else if (ld.dy > 0) == (ld.dx > 0) then Positive
    else Negative
  }

  datatype Box = Box(top: int, bottom: int, left: int, right: int)

  predicate ValidBox(b: Box) { b.bottom <= b.top && b.left <= b.right }

  predicate BoxNear(ld: Divline, b: Box) { Near(ld, b.left, b.bottom) && Near(ld, b.right, b.top) }

  predicate InBox(b: Box, x: int, y: int) {
    b.left <= x <= b.right && b.bottom <= y <= b.top
  }

  function Flip(p: bool, flip: bool): int {
    if p != flip then 1 else 0
  }

  /** 0 or 1, or -1 when the box crosses the line, which is considered infinite. */
  function BoxOnLineSide(b: Box, ld: Divline): int {
    var (p1, p2) :=
      match SlopeOf(ld)
      case Horizontal => (Flip(b.top > ld.y, ld.dx < 0), Flip(b.bottom > ld.y, ld.dx < 0))
      case Vertical => (Flip(b.right < ld.x, ld.dy < 0), Flip(b.left < ld.x, ld.dy < 0))
      case Positive => (PointOnLineSide(b.left, b.top, ld), PointOnLineSide(b.right, b.bottom, ld))
      case Negative => (PointOnLineSide(b.right, b.top, ld), PointOnLineSide(b.left, b.bottom, ld));
    if p1 == p2 then p1 else -1
  }

  /** Positive to the left of the line, which is its back, negative to the right. */
  function Cross(ld: Divline, x: int, y: int): int {
    ld.dx * (y - ld.y) - ld.dy * (x - ld.x)
  }

  /** Lines along an axis: the exact side of every point that is not on the line. */
  lemma AxisSide(ld: Divline, x: int, y: int)
    requires (ld.dx == 0 || ld.dy == 0) && Cross(ld, x, y) != 0
    ensures PointOnLineSide(x, y, ld) == if Cross(ld, x, y) > 0 then 1 else 0
  {
    SignOf(ld.dx, y - ld.y);
    SignOf(ld.dy, x - ld.x);
  }

  lemma SignOf(a: int, b: int)
    ensures a * b > 0 <==> (a > 0 && b > 0) || (a < 0 && b < 0)
    ensures a * b < 0 <==> (a > 0 && b < 0) || (a < 0 && b > 0)
  {
  }

  /** Any other line between vertices at whole map units: what counts as front is in front, and what is on the line or
      behind it counts as back; only within one step of rounding in front of the line is a point taken to be behind. */
  lemma ObliqueSide(ld: Divline, x: int, y: int)
    requires ValidLine(ld) && ld.dx != 0 && ld.dy != 0 && Near(ld, x, y) && ld.dx % FRACUNIT == 0 && ld.dy % FRACUNIT == 0
    ensures PointOnLineSide(x, y, ld) == 0 ==> Cross(ld, x, y) < 0
    ensures Cross(ld, x, y) <= -FRACUNIT * FRACUNIT ==> PointOnLineSide(x, y, ld) == 0
  {
    SidesExact(ld, x, y);
    var a, b := (y - ld.y) * Shr16(ld.dx), Shr16(ld.dy) * (x - ld.x);
    WholeTimes(ld.dx, Shr16(ld.dx), y - ld.y);
    WholeTimes(ld.dy, Shr16(ld.dy), x - ld.x);
    assert Cross(ld, x, y) == FRACUNIT * (a - b);
  }

  lemma WholeTimes(d: int, q: int, z: int)
    requires d == q * FRACUNIT
    ensures d * z == FRACUNIT * (z * q) && z * q == q * z
  {
    assert d * z == q * FRACUNIT * z;
  }

  /** left and right of P_PointOnLineSide without wrap-around. */
  lemma SidesExact(ld: Divline, x: int, y: int)
    requires ValidLine(ld) && ld.dx != 0 && ld.dy != 0 && Near(ld, x, y)
    ensures PointOnLineSide(x, y, ld) ==
            if (y - ld.y) * Shr16(ld.dx) / FRACUNIT < Shr16(ld.dy) * (x - ld.x) / FRACUNIT then 0 else 1
  {
    FixedMulExact(Shr16(ld.dy), x - ld.x);
    FixedMulExact(Shr16(ld.dx), y - ld.y);
  }

  /** Along x the left product moves with the sign of dy, along y the right one with that of dx. */
  lemma SideMono(ld: Divline, x: int, y: int, x': int, y': int)
    requires ValidLine(ld) && ld.dx != 0 && ld.dy != 0
    requires Near(ld, x, y) && Near(ld, x', y')
    requires if ld.dy > 0 then x' <= x else x <= x'
    requires if ld.dx > 0 then y <= y' else y' <= y
    ensures PointOnLineSide(x, y, ld) <= PointOnLineSide(x', y', ld)
  {
    SidesExact(ld, x, y);
    SidesExact(ld, x', y');
    var s, t := Shr16(ld.dy), Shr16(ld.dx);
    if ld.dy > 0 { ShiftedMulMono(s, x' - ld.x, x - ld.x); } else { ShiftedMulMono(s, x - ld.x, x' - ld.x); }
    if ld.dx > 0 { ShiftedMulMono(t, y - ld.y, y' - ld.y); } else { ShiftedMulMono(t, y' - ld.y, y - ld.y); }
    assert t * (y - ld.y) == (y - ld.y) * t && t * (y' - ld.y) == (y' - ld.y) * t;
  }

  /** A box side decides the side of all its points, except those ON a vertical line, which
      P_PointOnLineSide counts to the left. */
  lemma BoxSideDecides(b: Box, ld: Divline, x: int, y: int)
    requires ValidLine(ld) && ValidBox(b) && BoxNear(ld, b) && InBox(b, x, y) && BoxOnLineSide(b, ld) != -1
    ensures PointOnLineSide(x, y, ld) == BoxOnLineSide(b, ld) <==> !(ld.dx == 0 && x == ld.x)
  {
    match SlopeOf(ld)
    case Horizontal =>
    case Vertical =>
    case Positive =>
      if ld.dy > 0 {
        SideMono(ld, x, y, b.left, b.top);
        SideMono(ld, b.right, b.bottom, x, y);
      } else {
        SideMono(ld, b.left, b.top, x, y);
        SideMono(ld, x, y, b.right, b.bottom);
      }
    case Negative =>
      if ld.dy > 0 {
        SideMono(ld, b.right, b.top, x, y);
        SideMono(ld, x, y, b.left, b.bottom);
      } else {
        SideMono(ld, x, y, b.right, b.top);
        SideMono(ld, b.left, b.bottom, x, y);
      }
  }

  /** Such a box: it lies to the right of a vertical line that runs along its left edge. */
  lemma EdgeOnVertical()
    ensures var b, ld := Box(2, 0, 1, 3), Divline(1, 0, 0, 5);
            && ValidLine(ld) && ValidBox(b) && BoxNear(ld, b) && InBox(b, 1, 1)
            && BoxOnLineSide(b, ld) == 0 && PointOnLineSide(1, 1, ld) == 1 && PointOnLineSide(2, 1, ld) == 0
  {
  }

  /** Conversely, a box that is said to cross has points on both sides, unless it only touches a
      vertical line with its right edge. */
  lemma BoxCrossingIsReal(b: Box, ld: Divline)
    requires ValidLine(ld) && ValidBox(b) && BoxNear(ld, b) && BoxOnLineSide(b, ld) == -1
    ensures (exists x, y, x', y' :: InBox(b, x, y) && InBox(b, x', y') &&
               PointOnLineSide(x, y, ld) != PointOnLineSide(x', y', ld))
            <==> !(ld.dx == 0 && b.right == ld.x)
  {
    if ld.dx == 0 {
      if b.right != ld.x {
        assert InBox(b, b.left, b.top) && InBox(b, b.right, b.top);
        assert PointOnLineSide(b.left, b.top, ld) != PointOnLineSide(b.right, b.top, ld);
      } else {
        assert forall x, y :: InBox(b, x, y) ==> PointOnLineSide(x, y, ld) == if ld.dy > 0 then 1 else 0;
      }
    } else {
      assert InBox(b, b.left, b.top) && InBox(b, b.right, b.top) && InBox(b, b.left, b.bottom) && InBox(b, b.right, b.bottom);
      if SlopeOf(ld).Negative? {
        assert PointOnLineSide(b.right, b.top, ld) != PointOnLineSide(b.left, b.bottom, ld);
      } else {
        assert PointOnLineSide(b.left, b.top, ld) != PointOnLineSide(b.right, b.bottom, ld);
      }
    }
  }
}
