/** Which visible lines the clipper drops (AM_clipMline in doom/am_map.c). Each round rounds the line, and after
    two rounds at one end it may miss the frame; the outcodes of the ends tell when that can happen. */
module AutomapDrops {
  import opened Arith
  import opened Options
  import opened AutomapClip

  /** The outcode of some point: not beyond two opposite sides. */
  predicate IsCode(c: Code) { !(c.left && c.right) && !(c.top && c.bottom) }

  /** The first end lies off a corner, and the line goes from above the frame to below it, or back. */
  predicate IsRisky(ca: Code, cb: Code) {
    ca.Bits() == 2 && ((ca.top && cb.bottom) || (ca.bottom && cb.top))
  }

  // ----- the lines that are kept

  /** A line with an end in the frame is never dropped. */
  lemma {:induction false} ShownEndIsKept(v: View, s: Segment)
    requires v.Valid() && (v.Shows(s.a) || v.Shows(s.b))
    ensures Clip(v, s).Some?
    decreases Rank(v, s)
  {
    if Rank(v, s) > 0 {
      ClipProgress(v, s);
      ShownEndIsKept(v, ClipOnce(v, s));
    }
  }

  lemma VisibleIsUndecided(v: View, s: Segment, p: Point)
    requires v.Valid() && IsVisible(v, s, p)
    ensures Undecided(v, s)
  {
    if !Undecided(v, s) {
      RejectIsSound(v, s, p);
    }
  }

  /** A first end beyond just one side comes into the frame in one round. */
  lemma OneSideIsKept(v: View, s: Segment, p: Point)
    requires v.Valid() && IsVisible(v, s, p) && v.CodeOf(s.a).Bits() == 1
    ensures Clip(v, s).Some?
  {
    VisibleIsUndecided(v, s, p);
    RoundKeepsPixel(v, s, p);
    ClipProgress(v, s);
    ShownEndIsKept(v, ClipOnce(v, s));
  }

  /** A first end off a corner comes into the frame in two, if the other end is level with the frame. */
  lemma CornerIsKept(v: View, s: Segment, p: Point)
    requires v.Valid() && IsVisible(v, s, p) && v.CodeOf(s.a).Bits() == 2 && 0 <= s.b.y < v.height
    ensures Clip(v, s).Some?
  {
    VisibleIsUndecided(v, s, p);
    RoundKeepsPixel(v, s, p);
    ClipProgress(v, s);
    var t := ClipOnce(v, s);
    if v.Shows(t.a) {
      ShownEndIsKept(v, t);
    } else {
      ClipProgress(v, t);
      ShownEndIsKept(v, ClipOnce(v, t));
    }
  }

  /** A line with a pixel in the frame is kept, unless its outcodes are risky. */
  lemma SafeIsKept(v: View, s: Segment, p: Point)
    requires v.Valid() && IsVisible(v, s, p) && !IsRisky(v.CodeOf(s.a), v.CodeOf(s.b))
    ensures Clip(v, s).Some?
  {
    VisibleIsUndecided(v, s, p);
    if v.Shows(s.a) {
      ShownEndIsKept(v, s);
    } else if v.CodeOf(s.a).Bits() == 1 {
      OneSideIsKept(v, s, p);
    } else {
      CornerIsKept(v, s, p);
    }
  }

  // ----- the lines that are dropped

  predicate HasCodes(v: View, s: Segment, ca: Code, cb: Code) { v.CodeOf(s.a) == ca && v.CodeOf(s.b) == cb }

  /** The line has a pixel in the frame, and is dropped. */
  ghost predicate IsDropped(v: View, s: Segment, p: Point)
    requires v.Valid()
  {
    IsVisible(v, s, p) && Clip(v, s).None?
  }

  lemma TwoRounds(v: View, s: Segment, p: Point, q: Point, r: Point)
    requires v.Valid() && IsVisible(v, s, p) && v.CodeOf(s.a).Bits() == 2
    requires Undecided(v, s) && Cut(v, s, FirstSide(v.CodeOf(s.a))) == q
    requires v.CodeOf(q).Bits() == 1 && Undecided(v, s.(a := q)) && Cut(v, s.(a := q), FirstSide(v.CodeOf(q))) == r
    requires !Undecided(v, s.(a := r))
    ensures IsDropped(v, s, p)
  {
    assert ClipOnce(v, s) == s.(a := q) && ClipOnce(v, s.(a := q)) == s.(a := r);
    assert Clip(v, s.(a := r)).None?;
    assert Clip(v, s.(a := q)).None?;
  }

  lemma TruncIs(n: int, d: int, t: int, r: int)
    requires 0 <= n && 0 < d && 0 <= t && n == t * d + r && 0 <= r < d
    ensures Trunc(n, d) == t && Trunc(-n, d) == -t && Trunc(n, -d) == -t && Trunc(-n, -d) == t
  {
    DivIs(n, d, t, r);
  }

  /** A cut in numbers: t is the part n of d of the span. */
  lemma CutIs(v: View, s: Segment, side: Side, span: int, n: int, d: int, t: int)
    requires v.Valid() && Crosses(v, s, side) && d != 0 && Trunc(span * n, d) == t
    requires side.Top? || side.Bottom? ==> span == s.b.x - s.a.x && d == s.a.y - s.b.y
    requires side.Left? || side.Right? ==> span == s.b.y - s.a.y && d == s.b.x - s.a.x
    requires side.Top? ==> n == s.a.y
    requires side.Bottom? ==> n == s.a.y - v.height
    requires side.Right? ==> n == v.width - 1 - s.a.x
    requires side.Left? ==> n == -s.a.x
    ensures Cut(v, s, side) ==
            match side
            case Top => Point(s.a.x + t, 0)
            case Bottom => Point(s.a.x + t, v.height - 1)
            case Right => Point(v.width - 1, s.a.y + t)
            case Left => Point(0, s.a.y + t)
  {
  }

  /** Off the left edge, from below the frame to above it: through the top corner pixel. */
  lemma DropsUp(v: View) returns (s: Segment, p: Point)
    requires v.width >= 2 && v.height >= 2
    ensures IsDropped(v, s, p) && HasCodes(v, s, Code(true, false, true, false), Code(false, false, false, true))
  {
    var h := v.height;
    s, p := Segment(Point(-1, h + 1), Point(1, -h - 1)), Point(0, 0);
    TruncIs(2, 2 * h + 2, 0, 2);
    TruncIs(2 * h, 2, h, 0);
    CutIs(v, s, Bottom, 2, 1, 2 * h + 2, 0);
    CutIs(v, s.(a := Point(-1, h - 1)), Left, -2 * h, 1, 2, -h);
    TwoRounds(v, s, p, Point(-1, h - 1), Point(0, -1));
  }

  /** From above the frame to below it: through the bottom corner pixel. */
  lemma DropsDown(v: View) returns (s: Segment, p: Point)
    requires v.width >= 2 && v.height >= 2
    ensures IsDropped(v, s, p) && HasCodes(v, s, Code(true, false, false, true), Code(false, false, true, false))
  {
    var h := v.height;
    s, p := Segment(Point(-1, -2), Point(1, 2 * h)), Point(0, h - 1);
    TruncIs(4, 2 * h + 2, 0, 4);
    TruncIs(2 * h, 2, h, 0);
    TwoRounds(v, s, p, Point(-1, 0), Point(0, h));
  }

  /** The same from corner to corner, with k = w * h. */
  function UpLine(v: View, k: int): Segment { Segment(Point(-v.width, k + 1), Point(v.width, -k - 1)) }

  lemma DropsUpAcross(v: View) returns (s: Segment, p: Point)
    requires v.width >= 2 && v.height >= 2
    ensures IsDropped(v, s, p) && HasCodes(v, s, Code(true, false, true, false), Code(false, true, false, true))
  {
    var k := v.width * v.height;
    assert k >= 2 * v.height by { MulMono(v.height, 2, v.width); }
    s, p := UpLine(v, k), Point(0, 0);
    assert Off(s, p) == 0 by { Diagonal(v.width, k + 1); }
    UpFirst(v, k);
    UpSecond(v, k);
    TwoRounds(v, s, p, Point(-1, v.height - 1), Point(0, -1));
  }

  lemma Diagonal(w: int, n: int)
    ensures (w - -w) * (0 - n) - (-n - n) * (0 - -w) == 0
  {
  }

  lemma UpFirst(v: View, k: int)
    requires v.width >= 2 && v.height >= 2 && k == v.width * v.height && k >= 2 * v.height
    ensures Cut(v, UpLine(v, k), Bottom) == Point(-1, v.height - 1)
  {
    UpPart(v.width, v.height, k);
    CutIs(v, UpLine(v, k), Bottom, 2 * v.width, k + 1 - v.height, 2 * k + 2, v.width - 1);
  }

  lemma UpPart(w: int, h: int, k: int)
    requires w >= 2 && h >= 2 && k == w * h && k >= 2 * h
    ensures Trunc((2 * w) * (k + 1 - h), 2 * k + 2) == w - 1
  {
    var n, m := (2 * w) * (k + 1 - h), (w - 1) * (2 * k + 2);
    assert n == 2 * (w * k) + 2 * w - 2 * k;
    assert m == 2 * (w * k) + 2 * w - 2 * k - 2;
    PartIs(n, m, 2 * k + 2, w - 1, 2);
  }

  lemma PartIs(n: int, m: int, d: int, t: int, r: int)
    requires m == t * d && n == m + r && 0 <= t && 0 <= m && 0 <= r < d
    ensures Trunc(n, d) == t && Trunc(-n, -d) == t
  {
    TruncIs(n, d, t, r);
  }

  lemma UpSecond(v: View, k: int)
    requires v.width >= 2 && v.height >= 2 && k == v.width * v.height && k >= 2 * v.height
    ensures Cut(v, UpLine(v, k).(a := Point(-1, v.height - 1)), Left) == Point(0, -1)
  {
    var w, h := v.width, v.height;
    assert h * (w + 1) == k + h;
    TruncIs(k + h, w + 1, h, 0);
    CutIs(v, UpLine(v, k).(a := Point(-1, h - 1)), Left, -(k + h), 1, w + 1, -h);
  }

  function DownLine(v: View, k: int): Segment { Segment(Point(-v.width, v.height - k - 2), Point(v.width, k + v.height)) }

  lemma DropsDownAcross(v: View) returns (s: Segment, p: Point)
    requires v.width >= 2 && v.height >= 2
    ensures IsDropped(v, s, p) && HasCodes(v, s, Code(true, false, false, true), Code(false, true, true, false))
  {
    var k := v.width * v.height;
    assert k >= 2 * v.height by { MulMono(v.height, 2, v.width); }
    assert k >= 2 * v.width by { MulMono(v.width, 2, v.height); }
    DownDrops(v, k);
    s, p := DownLine(v, k), Point(0, v.height - 1);
  }

  lemma DownDrops(v: View, k: int)
    requires v.width >= 2 && v.height >= 2 && k == v.width * v.height && k >= 2 * v.height && k >= 2 * v.width
    ensures IsDropped(v, DownLine(v, k), Point(0, v.height - 1))
  {
    var s, p := DownLine(v, k), Point(0, v.height - 1);
    DownFirst(v, k);
    DownSecond(v, k);
    assert Off(s, p) == 0 by { Diagonal(v.width, -k - 1); }
    TwoRounds(v, s, p, Point(-1, 0), Point(0, v.height));
  }

  lemma DownFirst(v: View, k: int)
    requires v.width >= 2 && v.height >= 2 && k == v.width * v.height && k >= 2 * v.height && k >= 2 * v.width
    ensures Cut(v, DownLine(v, k), Top) == Point(-1, 0)
  {
    DownPart(v.width, v.height, k);
    CutIs(v, DownLine(v, k), Top, 2 * v.width, v.height - k - 2, -(2 * k + 2), v.width - 1);
  }

  lemma DownPart(w: int, h: int, k: int)
    requires w >= 2 && h >= 2 && k == w * h && k >= 2 * w
    ensures Trunc((2 * w) * (h - k - 2), -(2 * k + 2)) == w - 1
  {
    var n, m := -((2 * w) * (h - k - 2)), (w - 1) * (2 * k + 2);
    assert n == 2 * (w * k) + 4 * w - 2 * k;
    assert m == 2 * (w * k) + 2 * w - 2 * k - 2;
    PartIs(n, m, 2 * k + 2, w - 1, 2 * w + 2);
  }

  lemma DownSecond(v: View, k: int)
    requires v.width >= 2 && v.height >= 2 && k == v.width * v.height && k >= 2 * v.height
    ensures Cut(v, DownLine(v, k).(a := Point(-1, 0)), Left) == Point(0, v.height)
  {
    var w, h := v.width, v.height;
    assert h * (w + 1) == k + h;
    TruncIs(k + h, w + 1, h, 0);
    CutIs(v, DownLine(v, k).(a := Point(-1, 0)), Left, k + h, 1, w + 1, h);
  }

  // ----- mirror images

  function Mirror(v: View, p: Point): Point { Point(v.width - 1 - p.x, p.y) }

  function MirrorLine(v: View, s: Segment): Segment { Segment(Mirror(v, s.a), Mirror(v, s.b)) }

  function MirrorCode(c: Code): Code { c.(left := c.right, right := c.left) }

  function MirrorSide(side: Side): Side {
    match side
    case Left => Right
    case Right => Left
    case _ => side
  }

  lemma TruncNegates(n: int, d: int)
    requires d != 0
    ensures Trunc(-n, d) == -Trunc(n, d) && Trunc(-n, -d) == Trunc(n, d)
  {
    var q, r := Truncated(n, d);
    if n == 0 {
      MulAbs(d, q);
    }
  }

  lemma MirrorCut(v: View, s: Segment, side: Side)
    requires v.Valid() && Crosses(v, s, side)
    ensures Crosses(v, MirrorLine(v, s), MirrorSide(side))
    ensures Cut(v, MirrorLine(v, s), MirrorSide(side)) == Mirror(v, Cut(v, s, side))
  {
    var m, dx, dy := MirrorLine(v, s), s.b.x - s.a.x, s.b.y - s.a.y;
    match side
    case Top => MirrorRow(dx, m.b.x - m.a.x, s.a.y, -dy);
    case Bottom => MirrorRow(dx, m.b.x - m.a.x, s.a.y - v.height, -dy);
    case Right => MirrorColumn(dy, v.width - 1 - s.a.x, -m.a.x, dx, m.b.x - m.a.x);
    case Left => MirrorColumn(dy, -s.a.x, v.width - 1 - m.a.x, dx, m.b.x - m.a.x);
  }

  lemma MirrorRow(span: int, span': int, n: int, d: int)
    requires d != 0 && span' == -span
    ensures Trunc(span' * n, d) == -Trunc(span * n, d)
  {
    TruncNegates(span * n, d);
    assert span' * n == -(span * n);
  }

  lemma MirrorColumn(span: int, n: int, n': int, d: int, d': int)
    requires d != 0 && n' == -n && d' == -d
    ensures Trunc(span * n', d') == Trunc(span * n, d)
  {
    TruncNegates(span * n, d);
    assert span * n' == -(span * n);
  }

  lemma MirrorOnce(v: View, s: Segment)
    requires v.Valid() && Undecided(v, s) && Rank(v, s) > 0
    ensures var m := MirrorLine(v, s);
            Undecided(v, m) && Rank(v, m) > 0 && ClipOnce(v, m) == MirrorLine(v, ClipOnce(v, s))
  {
    MirrorCut(v, s, FirstSide(if v.CodeOf(s.a).Any() then v.CodeOf(s.a) else v.CodeOf(s.b)));
  }

  /** The clipper treats left and right alike. */
  lemma {:induction false} MirrorClip(v: View, s: Segment)
    requires v.Valid()
    ensures Clip(v, MirrorLine(v, s)).Some? == Clip(v, s).Some?
    ensures Clip(v, s).Some? ==> Clip(v, MirrorLine(v, s)).value == MirrorLine(v, Clip(v, s).value)
    decreases Undecided(v, s), Rank(v, s)
  {
    if Undecided(v, s) && Rank(v, s) > 0 {
      ClipProgress(v, s);
      MirrorOnce(v, s);
      MirrorClip(v, ClipOnce(v, s));
    }
  }

  lemma MirrorDropped(v: View, s: Segment, p: Point, ca: Code, cb: Code)
    requires v.Valid() && IsDropped(v, s, p) && HasCodes(v, s, ca, cb)
    ensures IsDropped(v, MirrorLine(v, s), Mirror(v, p)) && HasCodes(v, MirrorLine(v, s), MirrorCode(ca), MirrorCode(cb))
  {
    MirrorClip(v, s);
    var dx, dy, ux, uy := s.b.x - s.a.x, s.b.y - s.a.y, p.x - s.a.x, p.y - s.a.y;
    assert (-dx) * uy - dy * (-ux) == -(dx * uy - dy * ux);
  }

  // ----- the verdict

  lemma LeftIsDropped(v: View, ca: Code, cb: Code) returns (s: Segment, p: Point)
    requires v.width >= 2 && v.height >= 2 && IsCode(ca) && IsCode(cb) && !ca.Meets(cb) && IsRisky(ca, cb) && ca.left
    ensures IsDropped(v, s, p) && HasCodes(v, s, ca, cb)
  {
    if ca.bottom && !cb.right {
      s, p := DropsUp(v);
    } else if ca.bottom {
      s, p := DropsUpAcross(v);
    } else if !cb.right {
      s, p := DropsDown(v);
    } else {
      s, p := DropsDownAcross(v);
    }
  }

  lemma RiskyIsDropped(v: View, ca: Code, cb: Code) returns (s: Segment, p: Point)
    requires v.width >= 2 && v.height >= 2 && IsCode(ca) && IsCode(cb) && !ca.Meets(cb) && IsRisky(ca, cb)
    ensures IsDropped(v, s, p) && HasCodes(v, s, ca, cb)
  {
    if ca.left {
      s, p := LeftIsDropped(v, ca, cb);
    } else {
      s, p := LeftIsDropped(v, MirrorCode(ca), MirrorCode(cb));
      MirrorDropped(v, s, p, MirrorCode(ca), MirrorCode(cb));
      s, p := MirrorLine(v, s), Mirror(v, p);
    }
  }

  /** Every line with these outcodes and a pixel in the frame is kept. */
  ghost predicate KeepsVisible(v: View, ca: Code, cb: Code)
    requires v.Valid()
  {
    forall s: Segment, p: Point :: HasCodes(v, s, ca, cb) && IsVisible(v, s, p) ==> Clip(v, s).Some?
  }

  /** In every frame, whatever its size from two by two pixels on, the outcodes of the ends decide: visible lines
      are dropped with these outcodes if and only if they are risky. */
  lemma DropsExactly(v: View, ca: Code, cb: Code)
    requires v.width >= 2 && v.height >= 2 && IsCode(ca) && IsCode(cb) && !ca.Meets(cb)
    ensures KeepsVisible(v, ca, cb) <==> !IsRisky(ca, cb)
  {
    if IsRisky(ca, cb) {
      var s, p := RiskyIsDropped(v, ca, cb);
      assert HasCodes(v, s, ca, cb) && IsVisible(v, s, p) && Clip(v, s).None?;
    } else {
      forall s: Segment, p: Point | HasCodes(v, s, ca, cb) && IsVisible(v, s, p)
        ensures Clip(v, s).Some?
      {
        SafeIsKept(v, s, p);
      }
    }
  }
}
