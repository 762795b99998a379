/** Drawing of automap lines into the frame buffer (AM_drawFline and AM_drawMline in doom/am_map.c):
    Bresenham's loop plots, at every step of the longer axis, the pixel nearest to the line. */
module AutomapDraw {
  import opened Options
  import opened Arith
  import opened Raster
  import opened AutomapClip

  // ----- the ideal line

  /** How far the line goes along its longer axis, and along the other. */
  function Major(s: Segment): nat { if Flat(s) then Abs(s.b.x - s.a.x) else Abs(s.b.y - s.a.y) }

  function Minor(s: Segment): nat { if Flat(s) then Abs(s.b.y - s.a.y) else Abs(s.b.x - s.a.x) }

  predicate Flat(s: Segment) { Abs(s.b.x - s.a.x) > Abs(s.b.y - s.a.y) }

  /** c is k * minor / major rounded to the nearest integer, halves up. */
  predicate IsNearest(c: int, k: int, minor: nat, major: nat) {
    2 * (c * major) <= 2 * (k * minor) + major && (2 * (k * minor) + major < 2 * (c * major) + 2 * major || major == 0 == c)
  }

  function Nearest(k: nat, minor: nat, major: nat): nat {
    if major == 0 then 0 else (2 * (k * minor) + major) / (2 * major)
  }

  lemma NearestIs(c: nat, k: nat, minor: nat, major: nat)
    requires IsNearest(c, k, minor, major)
    ensures c == Nearest(k, minor, major)
  {
    if major > 0 {
      var n := 2 * (k * minor) + major;
      assert c * (2 * major) == 2 * (c * major);
      DivIs(n, 2 * major, c, n - 2 * (c * major));
    }
  }

  lemma NearestRange(c: nat, k: nat, minor: nat, major: nat)
    requires IsNearest(c, k, minor, major) && k <= major && minor <= major
    ensures c <= minor && (k == 0 ==> c == 0) && (k == major ==> c == minor)
  {
    assert k * minor <= minor * major by { MulMono(minor, k, major); }
    Between(c, minor, major, k * minor, k == major, k == 0);
  }

  /** The same, of the product p of k and minor. */
  lemma Between(c: nat, minor: nat, major: nat, p: int, last: bool, first: bool)
    requires 2 * (c * major) <= 2 * p + major
    requires 2 * p + major < 2 * (c * major) + 2 * major || major == 0 == c
    requires 0 <= p <= minor * major && minor <= major && (last ==> p == minor * major) && (first ==> p == 0)
    ensures c <= minor && (first ==> c == 0) && (last ==> c == minor)
  {
    if c > minor {
      MulGap(minor, c, major);
    }
    if last && c < minor {
      MulGap(c, minor, major);
    }
    if first && c > 0 {
      MulGap(0, c, major);
    }
  }

  function Toward(from: int, to: int, n: int): int { if to < from then from - n else from + n }

  /** The pixel at step k. */
  function Pixel(s: Segment, k: nat): Point {
    var c := Nearest(k, Minor(s), Major(s));
    if Flat(s) then Point(Toward(s.a.x, s.b.x, k), Toward(s.a.y, s.b.y, c))
    else Point(Toward(s.a.x, s.b.x, c), Toward(s.a.y, s.b.y, k))
  }

  /** One pixel for every step of the longer axis. */
  function Pixels(s: Segment): seq<Point> { seq(Major(s) + 1, k requires 0 <= k => Pixel(s, k)) }

  // ----- what the pixels are

  lemma NearestHolds(k: nat, minor: nat, major: nat)
    ensures IsNearest(Nearest(k, minor, major), k, minor, major) || major == 0
  {
    if major > 0 {
      var n, d := 2 * (k * minor) + major, 2 * major;
      var q, r := DivMod(n, d);
      assert d * q == 2 * (q * major);
    }
  }

  /** The pixels go from a to b, within the box of the line, one for every step along the longer axis and
      never more than half a pixel from the line on the other. */
  lemma PixelsFollowLine(s: Segment, k: nat)
    requires k <= Major(s)
    ensures Pixel(s, 0) == s.a && Pixel(s, Major(s)) == s.b
    ensures InBox(Pixel(s, k), s)
    ensures Flat(s) ==> Abs(Pixel(s, k).x - s.a.x) == k && 2 * Abs(Off(s, Pixel(s, k))) <= Abs(s.b.x - s.a.x)
    ensures !Flat(s) ==> Abs(Pixel(s, k).y - s.a.y) == k && 2 * Abs(Off(s, Pixel(s, k))) <= Abs(s.b.y - s.a.y)
  {
    var m, n := Minor(s), Major(s);
    NearestInLine(0, m, n);
    NearestInLine(k, m, n);
    NearestInLine(n, m, n);
    OffIs(s, k, Nearest(k, m, n));
  }

  lemma NearestInLine(k: nat, minor: nat, major: nat)
    requires k <= major && minor <= major
    ensures Nearest(k, minor, major) <= minor
    ensures k == 0 ==> Nearest(k, minor, major) == 0
    ensures k == major ==> Nearest(k, minor, major) == minor
    ensures 2 * Abs(Nearest(k, minor, major) * major - k * minor) <= major
  {
    if major > 0 {
      NearestHolds(k, minor, major);
      NearestRange(Nearest(k, minor, major), k, minor, major);
    }
  }

  lemma OffIs(s: Segment, k: nat, c: nat)
    ensures Flat(s) ==> Abs(Off(s, Point(Toward(s.a.x, s.b.x, k), Toward(s.a.y, s.b.y, c)))) == Abs(c * Major(s) - k * Minor(s))
    ensures !Flat(s) ==> Abs(Off(s, Point(Toward(s.a.x, s.b.x, c), Toward(s.a.y, s.b.y, k)))) == Abs(c * Major(s) - k * Minor(s))
  {
    var dx, dy := s.b.x - s.a.x, s.b.y - s.a.y;
    var i, j := if Flat(s) then k else c, if Flat(s) then c else k;
    Signs(dx, dy, i, j);
    assert Toward(s.a.x, s.b.x, i) - s.a.x == WithSign(dx, i) && Toward(s.a.y, s.b.y, j) - s.a.y == WithSign(dy, j);
  }

  function WithSign(d: int, n: int): int { if d < 0 then -n else n }

  lemma Signs(dx: int, dy: int, i: nat, j: nat)
    ensures Abs(dx * WithSign(dy, j) - dy * WithSign(dx, i)) == Abs(j * Abs(dx) - i * Abs(dy))
  {
    TimesSign(dx, dy, j);
    TimesSign(dy, dx, i);
  }

  lemma TimesSign(d: int, e: int, n: nat)
    ensures d * WithSign(e, n) == WithSign(d, WithSign(e, n * Abs(d)))
  {
  }

  // ----- the frame buffer

  function Index(v: View, p: Point): (i: nat)
    requires v.Valid() && v.Shows(p)
    ensures i < v.width * v.height
  {
    Cell(v.width, v.height, p.x, p.y)
  }

  /** Exactly the given pixels have got the colour. */
  ghost predicate Painted(v: View, was: seq<int>, now: seq<int>, pixels: seq<Point>, color: int)
    requires v.Valid()
  {
    && |was| == |now| == v.width * v.height
    && forall p :: v.Shows(p) ==> now[Index(v, p)] == if p in pixels then color else was[Index(v, p)]
  }

  lemma PaintOne(v: View, was: seq<int>, now: seq<int>, pixels: seq<Point>, p: Point, color: int)
    requires v.Valid() && Painted(v, was, now, pixels, color) && v.Shows(p)
    ensures Painted(v, was, now[Index(v, p) := color], pixels + [p], color)
  {
    forall q | v.Shows(q)
      ensures now[Index(v, p) := color][Index(v, q)] == if q in pixels + [p] then color else was[Index(v, q)]
    {
      if Index(v, q) == Index(v, p) {
        CellApart(v.width, v.height, p.x, p.y, q.x, q.y);
      }
    }
  }

  /** PUTDOT. */
  method PutDot(v: View, fb: array<int>, x: int, y: int, color: int, ghost was: seq<int>, ghost pixels: seq<Point>)
    requires v.Valid() && v.Shows(Point(x, y)) && Painted(v, was, fb[..], pixels, color)
    modifies fb
    ensures Painted(v, was, fb[..], pixels + [Point(x, y)], color)
  {
    PaintOne(v, was, fb[..], pixels, Point(x, y), color);
    ghost var p := Point(x, y);
    CellIs(v.width, v.height, x, y);
    fb[y * v.width + x] := color;
    assert fb[..] == old(fb[..])[Index(v, p) := color];
  }

  /** The step of d: when it is not negative, the nearest row or column is the next one. */
  lemma ErrorStep(k: nat, c: nat, minor: nat, major: nat, d: int)
    requires k < major && minor <= major && IsNearest(c, k, minor, major)
    requires d == 2 * (k * minor) + 2 * minor - major - 2 * (c * major)
    ensures IsNearest(if d >= 0 then c + 1 else c, k + 1, minor, major)
  {
    assert (k + 1) * minor == k * minor + minor && (c + 1) * major == c * major + major;
  }

  /** The variables of the loop at step k. */
  ghost predicate AtStep(s: Segment, k: nat, c: nat, d: int) {
    && k <= Major(s) && IsNearest(c, k, Minor(s), Major(s))
    && d == 2 * (k * Minor(s)) + 2 * Minor(s) - Major(s) - 2 * (c * Major(s))
  }

  lemma PixelAt(v: View, s: Segment, k: nat, c: nat, d: int)
    requires v.Shows(s.a) && v.Shows(s.b) && AtStep(s, k, c, d)
    ensures c == Nearest(k, Minor(s), Major(s)) && v.Shows(Pixel(s, k))
  {
    NearestIs(c, k, Minor(s), Major(s));
    PixelsFollowLine(s, k);
  }

  /** The dot of step k. */
  method Plot(v: View, fb: array<int>, s: Segment, x: int, y: int, color: int,
              ghost was: seq<int>, ghost k: nat, ghost c: nat, ghost d: int)
    requires v.Valid() && v.Shows(s.a) && v.Shows(s.b) && AtStep(s, k, c, d)
    requires Flat(s) ==> x == Toward(s.a.x, s.b.x, k) && y == Toward(s.a.y, s.b.y, c)
    requires !Flat(s) ==> x == Toward(s.a.x, s.b.x, c) && y == Toward(s.a.y, s.b.y, k)
    requires Painted(v, was, fb[..], Pixels(s)[..k], color)
    modifies fb
    ensures Painted(v, was, fb[..], Pixels(s)[..k + 1], color)
    ensures k == Major(s) ==> Painted(v, was, fb[..], Pixels(s), color)
  {
    PixelAt(v, s, k, c, d);
    PutDot(v, fb, x, y, color, was, Pixels(s)[..k]);
    assert Pixels(s)[..k + 1] == Pixels(s)[..k] + [Point(x, y)];
    assert Pixels(s)[..Major(s) + 1] == Pixels(s);
  }

  lemma NextStep(s: Segment, k: nat, c: nat, d: int)
    requires AtStep(s, k, c, d) && k < Major(s)
    ensures AtStep(s, k + 1, if d >= 0 then c + 1 else c,
                   if d >= 0 then d - 2 * Major(s) + 2 * Minor(s) else d + 2 * Minor(s))
  {
    ErrorStep(k, c, Minor(s), Major(s), d);
    assert (k + 1) * Minor(s) == k * Minor(s) + Minor(s) && (c + 1) * Major(s) == c * Major(s) + Major(s);
  }

  lemma StartStep(s: Segment)
    ensures AtStep(s, 0, 0, 2 * Minor(s) - Major(s))
  {
  }

  /** The loop for lines longer in x than in y. */
  method DrawFlat(v: View, fb: array<int>, s: Segment, color: int)
    requires v.Valid() && v.Shows(s.a) && v.Shows(s.b) && Flat(s) && fb.Length == v.width * v.height
    modifies fb
    ensures Painted(v, old(fb[..]), fb[..], Pixels(s), color)
  {
    var ax, ay := 2 * Abs(s.b.x - s.a.x), 2 * Abs(s.b.y - s.a.y);
    var sx, sy := if s.b.x < s.a.x then -1 else 1, if s.b.y < s.a.y then -1 else 1;
    var x, y, d := s.a.x, s.a.y, ay - ax / 2;
    ghost var k, c: nat := 0, 0;
    StartStep(s);
    while true
      invariant AtStep(s, k, c, d)
      invariant x == Toward(s.a.x, s.b.x, k) && y == Toward(s.a.y, s.b.y, c)
      invariant Painted(v, old(fb[..]), fb[..], Pixels(s)[..k], color)
      decreases Major(s) - k
    {
      Plot(v, fb, s, x, y, color, old(fb[..]), k, c, d);
      if x == s.b.x {
        return;
      }
      NextStep(s, k, c, d);
      if d >= 0 {
        y := y + sy;
        d := d - ax;
        c := c + 1;
      }
      x := x + sx;
      d := d + ay;
      k := k + 1;
    }
  }

  /** The loop for the other lines. */
  method DrawSteep(v: View, fb: array<int>, s: Segment, color: int)
    requires v.Valid() && v.Shows(s.a) && v.Shows(s.b) && !Flat(s) && fb.Length == v.width * v.height
    modifies fb
    ensures Painted(v, old(fb[..]), fb[..], Pixels(s), color)
  {
    var ax, ay := 2 * Abs(s.b.x - s.a.x), 2 * Abs(s.b.y - s.a.y);
    var sx, sy := if s.b.x < s.a.x then -1 else 1, if s.b.y < s.a.y then -1 else 1;
    var x, y, d := s.a.x, s.a.y, ax - ay / 2;
    ghost var k, c: nat := 0, 0;
    StartStep(s);
    while true
      invariant AtStep(s, k, c, d)
      invariant x == Toward(s.a.x, s.b.x, c) && y == Toward(s.a.y, s.b.y, k)
      invariant Painted(v, old(fb[..]), fb[..], Pixels(s)[..k], color)
      decreases Major(s) - k
    {
      Plot(v, fb, s, x, y, color, old(fb[..]), k, c, d);
      if y == s.b.y {
        return;
      }
      NextStep(s, k, c, d);
      if d >= 0 {
        x := x + sx;
        d := d - ay;
        c := c + 1;
      }
      y := y + sy;
      d := d + ax;
      k := k + 1;
    }
  }

  /** AM_drawFline: the pixels of the line, or a complaint when an end is out of the frame. */
  method DrawFline(v: View, fb: array<int>, fl: Segment, color: int) returns (complaint: bool)
    requires v.Valid() && fb.Length == v.width * v.height
    modifies fb
    ensures complaint <==> !(v.Shows(fl.a) && v.Shows(fl.b))
    ensures complaint ==> fb[..] == old(fb[..])
    ensures !complaint ==> Painted(v, old(fb[..]), fb[..], Pixels(fl), color)
  {
    if fl.a.x < 0 || fl.a.x >= v.width || fl.a.y < 0 || fl.a.y >= v.height
       || fl.b.x < 0 || fl.b.x >= v.width || fl.b.y < 0 || fl.b.y >= v.height {
      return true;
    }
    if Flat(fl) {
      DrawFlat(v, fb, fl, color);
    } else {
      DrawSteep(v, fb, fl, color);
    }
    return false;
  }

  /** AM_drawMline: the visible part of the line is drawn, and the drawer never complains. */
  method DrawMline(v: View, fb: array<int>, ml: Segment, color: int)
    requires v.Valid() && fb.Length == v.width * v.height
    modifies fb
    ensures ClipLine(v, ml).None? ==> fb[..] == old(fb[..])
    ensures ClipLine(v, ml).Some? ==> Painted(v, old(fb[..]), fb[..], Pixels(ClipLine(v, ml).value), color)
  {
    var ok, fl, _ := ClipMline(v, ml);
    if ok {
      var complaint := DrawFline(v, fb, fl, color);
      assert !complaint;
    }
  }
}
