/** Clipping of automap lines to the frame buffer (AM_clipMline in doom/am_map.c): Cohen-Sutherland
    on integers, with C's division. */
module AutomapClip {
  import opened Arith
  import opened Options
  import opened Fixed

  datatype Point = Point(x: int, y: int)

  datatype Segment = Segment(a: Point, b: Point)

  /** Map window and frame buffer of the automap. */
  datatype View = View(left: int, bottom: int, right: int, top: int, scale: int, width: int, height: int) {
    predicate Valid() { width >= 1 && height >= 1 }

    predicate Shows(p: Point) { 0 <= p.x < width && 0 <= p.y < height }

    function Mtof(n: int): int { Shr16(FixedMul(n, scale)) }

    /** CXMTOF and CYMTOF; the frame's y axis points down. */
    function ToFrame(p: Point): Point {
      Point(Mtof(p.x - left), height - Mtof(p.y - bottom))
    }

    /** DOOUTCODE. */
    function CodeOf(p: Point): Code {
      Code(p.x < 0, p.x >= width && p.x >= 0, p.y >= height && p.y >= 0, p.y < 0)
    }

    /** The same for a map point and the map window. */
    function MapCode(p: Point): Code {
      Code(p.x < left, p.x > right && p.x >= left, p.y < bottom && p.y <= top, p.y > top)
    }
  }

  /** An outcode: the sides a point lies beyond. */
  datatype Code = Code(left: bool, right: bool, bottom: bool, top: bool) {
    predicate Any() { left || right || bottom || top }

    predicate Meets(c: Code) {
      (left && c.left) || (right && c.right) || (bottom && c.bottom) || (top && c.top)
    }

    function Bits(): nat { Bit(left) + Bit(right) + Bit(bottom) + Bit(top) }
  }

  function Bit(b: bool): nat { if b then 1 else 0 }

  /** Division as in C: towards zero. */
  function Trunc(n: int, d: int): int
    requires d != 0
  {
    var q := Abs(n) / Abs(d);
    if (n >= 0) == (d > 0) then q else -q
  }

  predicate IsBetween(v: int, x: int, y: int) { x <= v <= y || y <= v <= x }

  /** n/d is a fraction from 0 to 1. */
  predicate IsPart(n: int, d: int) { (0 <= n <= d && d > 0) || (d <= n <= 0 && d < 0) }

  /** A part of a span, rounded towards zero, stays in the span and misses the exact part by less than 1. */
  lemma PartOf(span: int, n: int, d: int)
    requires IsPart(n, d)
    ensures IsBetween(Trunc(span * n, d), 0, span)
    ensures Abs(d * Trunc(span * n, d) - span * n) < Abs(d)
  {
    var q, r := Truncated(span * n, d);
    MulAbs(span, n);
    AtMost(Abs(span), Abs(n), Abs(d), q);
    SignOfProduct(span, n, d);
    Signed(span, span * n, d, q, Trunc(span * n, d));
    TimesTrunc(span * n, d, q, r, Trunc(span * n, d));
  }

  lemma DivMod(n: nat, e: nat) returns (q: int, r: int)
    requires e > 0
    ensures q == n / e && n == e * q + r && 0 <= r < e && 0 <= q
  {
    q, r := n / e, n % e;
  }

  predicate IsTrunc(p: int, d: int, q: int, t: int) { t == if (p >= 0) == (d > 0) then q else -q }

  /** Quotient and remainder of the absolute values. */
  lemma Truncated(p: int, d: int) returns (q: int, r: int)
    requires d != 0
    ensures IsTrunc(p, d, q, Trunc(p, d))
    ensures Abs(p) == Abs(d) * q + r && 0 <= r < Abs(d) && 0 <= q
  {
    q, r := DivMod(Abs(p), Abs(d));
  }

  lemma AtMost(s: nat, m: nat, e: nat, q: nat)
    requires m <= e && 0 < e && e * q <= s * m
    ensures q <= s && (s * m == 0 ==> q == 0)
  {
    MulMono(s, m, e);
    if q > s {
      MulMono(e, s + 1, q);
    }
    if s * m == 0 && q > 0 {
      MulMono(e, 1, q);
    }
  }

  lemma Signed(span: int, p: int, d: int, q: int, t: int)
    requires IsTrunc(p, d, q, t)
    requires 0 <= q <= Abs(span) && (p == 0 ==> q == 0)
    requires p > 0 ==> (span > 0) == (d > 0)
    requires p < 0 ==> (span < 0) == (d > 0)
    ensures IsBetween(t, 0, span)
  {
  }

  lemma TimesTrunc(p: int, d: int, q: int, r: int, t: int)
    requires d != 0 && IsTrunc(p, d, q, t)
    requires Abs(p) == Abs(d) * q + r && 0 <= r < Abs(d) && 0 <= q
    ensures Abs(d * t - p) < Abs(d)
  {
    MulAbs(d, t);
  }

  lemma SignOfProduct(span: int, n: int, d: int)
    requires IsPart(n, d)
    ensures span * n > 0 ==> (span > 0) == (d > 0)
    ensures span * n < 0 ==> (span < 0) == (d > 0)
  {
    MulAbs(span, n);
  }

  lemma MulMono(a: nat, b: nat, c: nat)
    requires b <= c
    ensures a * b <= a * c
  {
  }

  lemma MulAbs(a: int, b: int)
    ensures Abs(a * b) == Abs(a) * Abs(b)
    ensures a * b == if (a >= 0) == (b >= 0) then Abs(a) * Abs(b) else -(Abs(a) * Abs(b))
  {
  }

  /** The sides in the order in which they are clipped. */
  datatype Side = Top | Bottom | Right | Left

  function FirstSide(c: Code): (s: Side)
    requires c.Any()
    ensures s == Top ==> c.top
    ensures s == Bottom ==> c.bottom
    ensures s == Right ==> c.right
    ensures s == Left ==> c.left
  {
    if c.top then Top else if c.bottom then Bottom else if c.right then Right else Left
  }

  /** The segment crosses the side: its ends differ there, so that no division by zero is met. */
  predicate Crosses(v: View, s: Segment, side: Side) {
    match side
    case Top => (s.a.y < 0) != (s.b.y < 0)
    case Bottom => (s.a.y >= v.height) != (s.b.y >= v.height)
    case Right => (s.a.x >= v.width) != (s.b.x >= v.width)
    case Left => (s.a.x < 0) != (s.b.x < 0)
  }

  /** What is divided: the span of the segment along the side, times the way from its first end to the side. */
  function Product(v: View, s: Segment, side: Side): int {
    match side
    case Top => (s.b.x - s.a.x) * s.a.y
    case Bottom => (s.b.x - s.a.x) * (s.a.y - v.height)
    case Right => (s.b.y - s.a.y) * (v.width - 1 - s.a.x)
    case Left => (s.b.y - s.a.y) * (-s.a.x)
  }

  /** The point that replaces the outside one. */
  function Cut(v: View, s: Segment, side: Side): Point
    requires Crosses(v, s, side)
  {
    match side
    case Top => Point(s.a.x + Trunc(Product(v, s, Top), s.a.y - s.b.y), 0)
    case Bottom => Point(s.a.x + Trunc(Product(v, s, Bottom), s.a.y - s.b.y), v.height - 1)
    case Right => Point(v.width - 1, s.a.y + Trunc(Product(v, s, Right), s.b.x - s.a.x))
    case Left => Point(0, s.a.y + Trunc(Product(v, s, Left), s.b.x - s.a.x))
  }

  /** How far p is from the line through s, times the length of s. */
  function Off(s: Segment, p: Point): int {
    (s.b.x - s.a.x) * (p.y - s.a.y) - (s.b.y - s.a.y) * (p.x - s.a.x)
  }

  /** The cut lies within the box of the segment along the side, and on the line to within one pixel. On the
      bottom side the row below the frame is intersected and the last row of the frame is taken. */
  lemma CutOnLine(v: View, s: Segment, side: Side)
    requires v.Valid() && Crosses(v, s, side)
    ensures side.Top? || side.Bottom? ==> IsBetween(Cut(v, s, side).x, s.a.x, s.b.x)
    ensures side.Right? || side.Left? ==> IsBetween(Cut(v, s, side).y, s.a.y, s.b.y)
    ensures side.Top? ==> Abs(Off(s, Cut(v, s, side))) < Abs(s.b.y - s.a.y)
    ensures side.Bottom? ==> Abs(Off(s, Cut(v, s, side).(y := v.height))) < Abs(s.b.y - s.a.y)
    ensures side.Right? || side.Left? ==> Abs(Off(s, Cut(v, s, side))) < Abs(s.b.x - s.a.x)
  {
    var dx, dy := s.b.x - s.a.x, s.b.y - s.a.y;
    match side
    case Top => CutRow(dx, s.a.y, dy);
    case Bottom => CutRow(dx, s.a.y - v.height, dy);
    case Right => PartOf(dy, v.width - 1 - s.a.x, dx);
    case Left => PartOf(dy, -s.a.x, dx);
  }

  lemma CutRow(dx: int, n: int, dy: int)
    requires IsPart(n, -dy)
    ensures IsBetween(Trunc(dx * n, -dy), 0, dx)
    ensures Abs(dx * (-n) - dy * Trunc(dx * n, -dy)) < Abs(dy)
  {
    PartOf(dx, n, -dy);
    var t := Trunc(dx * n, -dy);
    assert (-dy) * t == -(dy * t) && dx * (-n) == -(dx * n);
  }

  /** No side has both ends beyond it. */
  predicate Undecided(v: View, s: Segment) { !v.CodeOf(s.a).Meets(v.CodeOf(s.b)) }

  function Rank(v: View, s: Segment): nat { v.CodeOf(s.a).Bits() + v.CodeOf(s.b).Bits() }

  /** One round of the loop: the first end that is outside moves to the first side it is beyond. */
  function ClipOnce(v: View, s: Segment): Segment
    requires v.Valid() && Undecided(v, s) && Rank(v, s) > 0
  {
    if v.CodeOf(s.a).Any() then s.(a := Cut(v, s, FirstSide(v.CodeOf(s.a))))
    else s.(b := Cut(v, s, FirstSide(v.CodeOf(s.b))))
  }

  /** p lies in the box spanned by the ends of s. */
  predicate InBox(p: Point, s: Segment) {
    IsBetween(p.x, s.a.x, s.b.x) && IsBetween(p.y, s.a.y, s.b.y)
  }

  /** A round decides the segment or leaves fewer sides to clip. */
  lemma ClipProgress(v: View, s: Segment)
    requires v.Valid() && Undecided(v, s) && Rank(v, s) > 0
    ensures var t := ClipOnce(v, s); Undecided(v, t) ==> Rank(v, t) < Rank(v, s)
    ensures InBox(ClipOnce(v, s).a, s) && InBox(ClipOnce(v, s).b, s)
  {
    var side := FirstSide(if v.CodeOf(s.a).Any() then v.CodeOf(s.a) else v.CodeOf(s.b));
    CutOnLine(v, s, side);
  }

  /** A segment with both ends beyond one side shows nothing. */
  lemma RejectIsSound(v: View, s: Segment, p: Point)
    requires v.Valid() && !Undecided(v, s) && InBox(p, s)
    ensures !v.Shows(p)
  {
  }

  /** A part of the span beyond, or short of, the one that was cut at. */
  lemma PartKeeps(span: int, n: int, d: int, u: int, m: int)
    requires IsPart(n, d) && IsPart(m, d) && d * u == span * m && IsBetween(u, 0, span)
    ensures Abs(m) >= Abs(n) ==> IsBetween(u, Trunc(span * n, d), span)
    ensures Abs(m) <= Abs(n) ==> IsBetween(u, 0, Trunc(span * n, d))
  {
    PartOf(span, n, d);
    var q, r := Truncated(span * n, d);
    assert Abs(d) * q + r == Abs(span) * Abs(n) by { MulAbs(span, n); }
    assert Abs(d) * Abs(u) == Abs(span) * Abs(m) by { MulAbs(d, u); MulAbs(span, m); }
    Ordered(Abs(span), Abs(n), Abs(m), Abs(d), q, r, Abs(u));
  }

  lemma Ordered(s: nat, n: nat, m: nat, e: nat, q: int, r: int, u: nat)
    requires e > 0 && 0 <= q && e * q + r == s * n && 0 <= r < e && e * u == s * m
    ensures m >= n ==> u >= q
    ensures m <= n ==> u <= q
  {
    if m >= n {
      MulMono(s, n, m);
      if u < q {
        MulGap(u, q, e);
      }
    }
    if m <= n {
      MulMono(s, m, n);
      if q < u {
        MulGap(q, u, e);
      }
    }
  }

  /** A pixel of the frame that lies on the line. */
  predicate IsVisible(v: View, s: Segment, p: Point) { v.Shows(p) && InBox(p, s) && Off(s, p) == 0 }

  /** A round cuts off no such pixel, so it never rejects a line that has one. */
  lemma RoundKeepsPixel(v: View, s: Segment, p: Point)
    requires v.Valid() && Undecided(v, s) && Rank(v, s) > 0 && IsVisible(v, s, p)
    ensures InBox(p, ClipOnce(v, s)) && Undecided(v, ClipOnce(v, s))
  {
    var dx, dy, ux, uy := s.b.x - s.a.x, s.b.y - s.a.y, p.x - s.a.x, p.y - s.a.y;
    assert dx * uy == dy * ux;
    match FirstSide(if v.CodeOf(s.a).Any() then v.CodeOf(s.a) else v.CodeOf(s.b))
    case Top => RowKeeps(dx, s.a.y, dy, ux, uy);
    case Bottom => RowKeeps(dx, s.a.y - v.height, dy, ux, uy);
    case Right => PartKeeps(dy, v.width - 1 - s.a.x, dx, uy, ux);
    case Left => PartKeeps(dy, -s.a.x, dx, uy, ux);
  }

  lemma RowKeeps(dx: int, n: int, dy: int, ux: int, uy: int)
    requires IsPart(n, -dy) && IsPart(-uy, -dy) && dx * uy == dy * ux && IsBetween(ux, 0, dx)
    ensures Abs(uy) >= Abs(n) ==> IsBetween(ux, Trunc(dx * n, -dy), dx)
    ensures Abs(uy) <= Abs(n) ==> IsBetween(ux, 0, Trunc(dx * n, -dy))
  {
    assert (-dy) * ux == -(dy * ux) && dx * (-uy) == -(dx * uy);
    PartKeeps(dx, n, -dy, ux, -uy);
  }

  /** The loop of AM_clipMline: the part of s in the frame, if any. */
  function Clip(v: View, s: Segment): (r: Option<Segment>)
    requires v.Valid()
    ensures r.Some? ==> v.Shows(r.value.a) && v.Shows(r.value.b)
    ensures r.Some? ==> InBox(r.value.a, s) && InBox(r.value.b, s)
    decreases Undecided(v, s), Rank(v, s)
  {
    if !Undecided(v, s) then None
    else if Rank(v, s) == 0 then Some(s)
    else
      ClipProgress(v, s);
      Clip(v, ClipOnce(v, s))
  }

  /** How many rounds the loop takes. */
  function Rounds(v: View, s: Segment): (n: nat)
    requires v.Valid()
    ensures Undecided(v, s) ==> n <= Rank(v, s) <= 4
    ensures n <= 4
    decreases Undecided(v, s), Rank(v, s)
  {
    if !Undecided(v, s) || Rank(v, s) == 0 then 0
    else
      ClipProgress(v, s);
      1 + Rounds(v, ClipOnce(v, s))
  }

  function Clamp(n: int, size: int): int { if n < 0 then 0 else if n >= size then size - 1 else n }

  /** A line along an axis is cut exactly: what is left are its points in the frame. */
  lemma {:induction false} AxisExact(v: View, s: Segment)
    requires v.Valid() && (s.a.x == s.b.x || s.a.y == s.b.y)
    ensures Clip(v, s) ==
            if !Undecided(v, s) then None
            else Some(Segment(Point(Clamp(s.a.x, v.width), Clamp(s.a.y, v.height)),
                              Point(Clamp(s.b.x, v.width), Clamp(s.b.y, v.height))))
    decreases Undecided(v, s), Rank(v, s)
  {
    if Undecided(v, s) && Rank(v, s) > 0 {
      ClipProgress(v, s);
      var t := ClipOnce(v, s);
      AxisStep(v, s);
      AxisExact(v, t);
    }
  }

  lemma AxisStep(v: View, s: Segment)
    requires v.Valid() && (s.a.x == s.b.x || s.a.y == s.b.y) && Undecided(v, s) && Rank(v, s) > 0
    ensures var t := ClipOnce(v, s);
            && Undecided(v, t)
            && (t.a == s.a || t.a == Point(Clamp(s.a.x, v.width), Clamp(s.a.y, v.height)))
            && (t.b == s.b || t.b == Point(Clamp(s.b.x, v.width), Clamp(s.b.y, v.height)))
            && (t.a.x == t.b.x || t.a.y == t.b.y)
  {
    ClipProgress(v, s);
  }

  /** A line inside the frame is left alone. */
  lemma InsideIsKept(v: View, s: Segment)
    requires v.Valid() && v.Shows(s.a) && v.Shows(s.b)
    ensures Clip(v, s) == Some(s)
  {
    assert Rank(v, s) == 0;
  }

  /** The frame part of a map line, after the rejects in map coordinates. */
  function ClipLine(v: View, ml: Segment): Option<Segment>
    requires v.Valid()
  {
    if v.MapCode(ml.a).Meets(v.MapCode(ml.b)) then None
    else Clip(v, Segment(v.ToFrame(ml.a), v.ToFrame(ml.b)))
  }

  /** Before the transformation just the lines are rejected that lie beyond one side of the map window. */
  lemma MapRejects(v: View, ml: Segment)
    requires v.left <= v.right && v.bottom <= v.top
    ensures v.MapCode(ml.a).Meets(v.MapCode(ml.b)) <==>
            || (ml.a.x < v.left && ml.b.x < v.left) || (ml.a.x > v.right && ml.b.x > v.right)
            || (ml.a.y < v.bottom && ml.b.y < v.bottom) || (ml.a.y > v.top && ml.b.y > v.top)
  {
  }

  /** The transformation: a point is as many pixels right of the left edge and above the bottom edge of the frame as
      it is scaled map units from those of the window, rounded down. */
  lemma FrameIsScaled(v: View, p: Point)
    requires 0 <= v.scale < FRACUNIT * FRACUNIT / 2 && IsInt32((p.x - v.left) * v.scale / FRACUNIT)
    requires IsInt32((p.y - v.bottom) * v.scale / FRACUNIT)
    ensures var f := v.ToFrame(p);
            && f.x * FRACUNIT * FRACUNIT <= (p.x - v.left) * v.scale < (f.x + 1) * FRACUNIT * FRACUNIT
            && (v.height - f.y) * FRACUNIT * FRACUNIT <= (p.y - v.bottom) * v.scale < (v.height - f.y + 1) * FRACUNIT * FRACUNIT
  {
    ScaledDown((p.x - v.left) * v.scale);
    ScaledDown((p.y - v.bottom) * v.scale);
  }

  lemma ScaledDown(n: int)
    ensures n / FRACUNIT / FRACUNIT * FRACUNIT * FRACUNIT <= n < (n / FRACUNIT / FRACUNIT + 1) * FRACUNIT * FRACUNIT
  {
  }

  // ----- 32 bits are enough

  const SHORT := 0x8000

  /** Where CXMTOF and CYMTOF can put a point. */
  predicate InReach(v: View, p: Point) {
    -SHORT <= p.x < SHORT && v.height - SHORT < p.y <= v.height + SHORT
  }

  lemma FrameInReach(v: View, p: Point)
    ensures InReach(v, v.ToFrame(p))
  {
  }

  lemma ProductFits(a: int, b: int)
    requires Abs(a) < 2 * SHORT && Abs(b) <= SHORT
    ensures IsInt32(a * b)
  {
    MulAbs(a, b);
    MulMono(Abs(a), Abs(b), SHORT);
  }

  /** The side that a round cuts at. */
  function CutSide(v: View, s: Segment): Side
    requires Rank(v, s) > 0
  {
    FirstSide(if v.CodeOf(s.a).Any() then v.CodeOf(s.a) else v.CodeOf(s.b))
  }

  lemma RoundFits(v: View, s: Segment)
    requires v.Valid() && v.width <= SHORT && v.height < SHORT && InReach(v, s.a) && InReach(v, s.b)
    requires Undecided(v, s) && Rank(v, s) > 0
    ensures IsInt32(Product(v, s, CutSide(v, s)))
    ensures InReach(v, ClipOnce(v, s).a) && InReach(v, ClipOnce(v, s).b)
  {
    CutOnLine(v, s, CutSide(v, s));
    match CutSide(v, s)
    case Top => ProductFits(s.b.x - s.a.x, s.a.y);
    case Bottom => ProductFits(s.b.x - s.a.x, s.a.y - v.height);
    case Right => ProductFits(s.b.y - s.a.y, v.width - 1 - s.a.x);
    case Left => ProductFits(s.b.y - s.a.y, -s.a.x);
  }

  /** In every round the ends are in reach, so that all sums and differences fit, and the product fits too. */
  ghost predicate AllFit(v: View, s: Segment)
    requires v.Valid()
    decreases Undecided(v, s), Rank(v, s)
  {
    InReach(v, s.a) && InReach(v, s.b) &&
    if !Undecided(v, s) || Rank(v, s) == 0 then true
    else
      ClipProgress(v, s);
      IsInt32(Product(v, s, CutSide(v, s))) && AllFit(v, ClipOnce(v, s))
  }

  lemma {:induction false} ReachFits(v: View, s: Segment)
    requires v.Valid() && v.width <= SHORT && v.height < SHORT && InReach(v, s.a) && InReach(v, s.b)
    ensures AllFit(v, s)
    decreases Undecided(v, s), Rank(v, s)
  {
    if Undecided(v, s) && Rank(v, s) > 0 {
      ClipProgress(v, s);
      RoundFits(v, s);
      ReachFits(v, ClipOnce(v, s));
    }
  }

  /** Whatever the line and the window, the clipper computes with 32 bits what it would compute with more. */
  lemma ClipFits(v: View, ml: Segment)
    requires v.Valid() && v.width <= SHORT && v.height < SHORT
    ensures AllFit(v, Segment(v.ToFrame(ml.a), v.ToFrame(ml.b)))
  {
    FrameInReach(v, ml.a);
    FrameInReach(v, ml.b);
    ReachFits(v, Segment(v.ToFrame(ml.a), v.ToFrame(ml.b)));
  }

  /** AM_clipMline; the loop makes at most four rounds. */
  method ClipMline(v: View, ml: Segment) returns (ok: bool, fl: Segment, ghost rounds: nat)
    requires v.Valid()
    ensures ClipLine(v, ml) == if ok then Some(fl) else None
    ensures ok ==> v.Shows(fl.a) && v.Shows(fl.b)
    ensures rounds <= 4
  {
    rounds, fl := 0, ml;
    if v.MapCode(ml.a).Meets(v.MapCode(ml.b)) {
      return false, fl, rounds;
    }
    fl := Segment(v.ToFrame(ml.a), v.ToFrame(ml.b));
    ghost var start := fl;
    var outcode1, outcode2 := v.CodeOf(fl.a), v.CodeOf(fl.b);
    if outcode1.Meets(outcode2) {
      return false, fl, rounds;
    }
    while outcode1.Any() || outcode2.Any()
      invariant outcode1 == v.CodeOf(fl.a) && outcode2 == v.CodeOf(fl.b)
      invariant Undecided(v, fl) && Clip(v, fl) == Clip(v, start)
      invariant rounds + Rank(v, fl) <= Rank(v, start) <= 4
      decreases Rank(v, fl)
    {
      ClipProgress(v, fl);
      var outside := if outcode1.Any() then outcode1 else outcode2;
      var tmp := Cut(v, fl, FirstSide(outside));
      rounds := rounds + 1;
      if outside == outcode1 {
        fl := fl.(a := tmp);
        outcode1 := v.CodeOf(fl.a);
      } else {
        fl := fl.(b := tmp);
        outcode2 := v.CodeOf(fl.b);
      }
      if outcode1.Meets(outcode2) {
        return false, fl, rounds;
      }
    }
    return true, fl, rounds;
  }
}
