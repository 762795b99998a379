/** Clipping a move against lines: the line half of P_CheckPosition and PIT_CheckLine
    (doom/p_map.c) with P_BlockLinesIterator (doom/p_maputl.c). */
module LineClip {
  import opened Distinct
  import opened Fixed
  import opened Options
  import opened Level
  import Side = LineSide
  import opened BlockMap
  import opened BlockScan

  const MAXSPECIALCROSS := 8

  /** A line as the clipping code reads it. */
  datatype Wall = Wall(geo: Side.Divline, bbox: Side.Box, front: nat, back: Option<nat>,
                       blocking: bool, blockmonsters: bool, special: bool)

  /** The level: grid, lines listed in each block, lines and sectors. */
  datatype Terrain = Terrain(grid: Grid, lists: seq<seq<nat>>, walls: seq<Wall>, sectors: seq<Sector>) {
    predicate Valid() {
      && |lists| == grid.width * grid.height
      && (forall k :: 0 <= k < |lists| ==> forall i :: 0 <= i < |lists[k]| ==> lists[k][i] < |walls|)
      && (forall l :: 0 <= l < |walls| ==>
            walls[l].front < |sectors| && (walls[l].back.Some? ==> walls[l].back.value < |sectors|))
    }
  }

  /** What moves: its box at the destination, and whether it is a missile or a player. */
  datatype Body = Body(box: Side.Box, missile: bool, player: bool)

  /** The line is hit: the boxes meet and the body's box crosses the line. */
  predicate Touches(b: Body, w: Wall) {
    && !(b.box.right <= w.bbox.left || b.box.left >= w.bbox.right || b.box.top <= w.bbox.bottom || b.box.bottom >= w.bbox.top)
    && Side.BoxOnLineSide(b.box, w.geo) == -1
  }

  /** A touched line that PIT_CheckLine does not let through. */
  predicate Stops(b: Body, w: Wall) {
    Touches(b, w) && (w.back.None? || (!b.missile && (w.blocking || (!b.player && w.blockmonsters))))
  }

  /** The boxes of the body and of the line overlap, and the body's box reaches to both sides of the line; of a vertical
      one it is enough to touch it with the right edge. */
  lemma TouchesIs(b: Body, w: Wall)
    requires Side.ValidLine(w.geo) && Side.ValidBox(b.box) && Side.BoxNear(w.geo, b.box)
    ensures Touches(b, w) <==>
            && b.box.left < w.bbox.right && w.bbox.left < b.box.right && b.box.bottom < w.bbox.top && w.bbox.bottom < b.box.top
            && if w.geo.dx == 0 then b.box.left < w.geo.x <= b.box.right
               else exists x, y, x', y' :: Side.InBox(b.box, x, y) && Side.InBox(b.box, x', y') &&
                                           Side.PointOnLineSide(x, y, w.geo) != Side.PointOnLineSide(x', y', w.geo)
  {
    if Side.BoxOnLineSide(b.box, w.geo) == -1 {
      Side.BoxCrossingIsReal(b.box, w.geo);
    } else {
      forall x, y | Side.InBox(b.box, x, y)
        ensures Side.PointOnLineSide(x, y, w.geo) == Side.BoxOnLineSide(b.box, w.geo) || (w.geo.dx == 0 && x == w.geo.x)
      {
        Side.BoxSideDecides(b.box, w.geo, x, y);
      }
    }
  }

  /** A line without a second side stops everything that touches it, a blocking one all but missiles, and one that
      blocks monsters all but missiles and players. Lines that are not touched stop nothing. */
  lemma WhoIsStopped(b: Body, w: Wall)
    ensures !Touches(b, w) ==> !Stops(b, w)
    ensures Touches(b, w) && b.missile ==> (Stops(b, w) <==> w.back.None?)
    ensures Touches(b, w) && !b.missile && b.player ==> (Stops(b, w) <==> w.back.None? || w.blocking)
    ensures Touches(b, w) && !b.missile && !b.player ==> (Stops(b, w) <==> w.back.None? || w.blocking || w.blockmonsters)
  {
  }

  function Gap(t: Terrain, w: Wall): Opening
    requires w.front < |t.sectors| && w.back.Some? && w.back.value < |t.sectors|
  {
    OpeningOf(t.sectors[w.front], t.sectors[w.back.value])
  }

  /** tmfloorz, tmceilingz and tmdropoffz. */
  datatype Heights = Heights(floor: int, ceiling: int, dropoff: int)

  /** The lines with an effect on the heights: touched, and let through. */
  predicate Shapes(t: Terrain, b: Body, l: nat) {
    l < |t.walls| && Touches(b, t.walls[l]) && !Stops(b, t.walls[l])
  }

  /** h is the base narrowed by exactly the shaping lines among `seen`: the highest floor, the lowest
      ceiling, the lowest drop, whatever the order. */
  ghost predicate Narrowed(t: Terrain, b: Body, base: Heights, seen: seq<nat>, h: Heights)
    requires t.Valid()
  {
    && base.floor <= h.floor && h.ceiling <= base.ceiling && h.dropoff <= base.dropoff
    && (forall l :: l in seen && Shapes(t, b, l) ==>
          var g := Gap(t, t.walls[l]); g.bottom <= h.floor && h.ceiling <= g.top && h.dropoff <= g.low)
    && (h.floor == base.floor || exists l :: l in seen && Shapes(t, b, l) && Gap(t, t.walls[l]).bottom == h.floor)
    && (h.ceiling == base.ceiling || exists l :: l in seen && Shapes(t, b, l) && Gap(t, t.walls[l]).top == h.ceiling)
    && (h.dropoff == base.dropoff || exists l :: l in seen && Shapes(t, b, l) && Gap(t, t.walls[l]).low == h.dropoff)
  }

  /** The narrowed heights are determined by the SET of lines seen. */
  lemma NarrowedUnique(t: Terrain, b: Body, base: Heights, seen: seq<nat>, h: Heights, seen': seq<nat>, h': Heights)
    requires t.Valid() && Narrowed(t, b, base, seen, h) && Narrowed(t, b, base, seen', h')
    requires forall l :: l in seen <==> l in seen'
    ensures h == h'
  {
  }

  function Narrow(h: Heights, g: Opening): Heights {
    Heights(if g.bottom > h.floor then g.bottom else h.floor,
            if g.top < h.ceiling then g.top else h.ceiling,
            if g.low < h.dropoff then g.low else h.dropoff)
  }

  lemma NarrowedOn(t: Terrain, b: Body, base: Heights, seen: seq<nat>, h: Heights, l: nat)
    requires t.Valid() && Narrowed(t, b, base, seen, h)
    ensures Shapes(t, b, l) ==> Narrowed(t, b, base, seen + [l], Narrow(h, Gap(t, t.walls[l])))
    ensures !Shapes(t, b, l) ==> Narrowed(t, b, base, seen + [l], h)
  {
    var more := seen + [l];
    assert forall k :: k in more <==> k in seen || k == l;
  }

  /** The touched special lines among those seen, in order. */
  function Specials(t: Terrain, b: Body, seen: seq<nat>): seq<nat>
    decreases |seen|
  {
    if seen == [] then []
    else
      var l := seen[|seen| - 1];
      var front := Specials(t, b, seen[..|seen| - 1]);
      if Shapes(t, b, l) && t.walls[l].special then front + [l] else front
  }

  lemma {:induction false} SpecialsOnce(t: Terrain, b: Body, seen: seq<nat>, l: nat)
    requires NoRepeats(seen)
    ensures multiset(Specials(t, b, seen))[l] == if l in seen && Shapes(t, b, l) && t.walls[l].special then 1 else 0
    decreases |seen|
  {
    if seen != [] {
      var n := |seen| - 1;
      var front := seen[..n];
      SpecialsOnce(t, b, front, l);
      assert seen == front + [seen[n]];
      assert forall i :: 0 <= i < |front| ==> front[i] == seen[i];
    }
  }

  lemma {:induction false} SpecialsDistinct(t: Terrain, b: Body, seen: seq<nat>)
    requires NoRepeats(seen)
    ensures NoRepeats(Specials(t, b, seen))
    ensures forall l :: l in Specials(t, b, seen) <==> l in seen && Shapes(t, b, l) && t.walls[l].special
    decreases |seen|
  {
    if seen != [] {
      var n := |seen| - 1;
      SpecialsDistinct(t, b, seen[..n]);
      assert seen == seen[..n] + [seen[n]];
      assert forall i :: 0 <= i < n ==> seen[..n][i] == seen[i];
    }
  }

  /** The line is listed in a scanned block, touched and let through, and is special. */
  ghost predicate IsSpecialHit(t: Terrain, b: Body, l: nat)
    requires t.Valid()
  {
    Listed(t, BoxBlocks(t.grid, b.box), l) && Shapes(t, b, l) && t.walls[l].special
  }

  ghost function SpecialHits(t: Terrain, b: Body): set<nat>
    requires t.Valid()
  {
    set l: nat | l < |t.walls| && IsSpecialHit(t, b, l)
  }

  /** Every special line that is hit is noted, once, and no other. */
  ghost predicate HitOnce(t: Terrain, b: Body, specials: seq<nat>)
    requires t.Valid()
  {
    forall l: nat :: multiset(specials)[l] == if IsSpecialHit(t, b, l) then 1 else 0
  }

  lemma HitsInside(t: Terrain, b: Body, specials: seq<nat>)
    requires t.Valid() && HitOnce(t, b, specials)
    ensures AreHits(t, b, specials) && Inside(t, specials)
  {
    forall l: nat ensures l in specials <==> IsSpecialHit(t, b, l) {
      assert l in specials <==> multiset(specials)[l] > 0;
    }
    forall i | 0 <= i < |specials| ensures specials[i] < |t.walls| {
      assert IsSpecialHit(t, b, specials[i]);
    }
  }

  /** The special lines noted are exactly those that are hit. */
  ghost predicate AreHits(t: Terrain, b: Body, specials: seq<nat>)
    requires t.Valid()
  {
    forall l: nat :: l in specials <==> IsSpecialHit(t, b, l)
  }

  ghost predicate AllListed(t: Terrain, bs: Blocks, seen: seq<nat>)
    requires t.Valid()
  {
    forall k :: k in seen ==> Listed(t, bs, k)
  }

  lemma HitIn(t: Terrain, b: Body, l: nat)
    requires t.Valid()
    ensures l in SpecialHits(t, b) <==> IsSpecialHit(t, b, l)
  {
  }

  /** No more special lines are noted than are hit. */
  lemma SpecialsFit(t: Terrain, b: Body, seen: seq<nat>)
    requires t.Valid() && NoRepeats(seen) && AllListed(t, BoxBlocks(t.grid, b.box), seen)
    ensures |Specials(t, b, seen)| <= |SpecialHits(t, b)|
    ensures ExaminedAll(t, b, seen) ==> |Specials(t, b, seen)| == |SpecialHits(t, b)|
  {
    var specials := Specials(t, b, seen);
    SpecialsDistinct(t, b, seen);
    forall i | 0 <= i < |specials| ensures specials[i] in SpecialHits(t, b) {
      assert specials[i] in specials;
      HitIn(t, b, specials[i]);
    }
    if ExaminedAll(t, b, seen) {
      forall l | l in SpecialHits(t, b) ensures l in specials {
        HitIn(t, b, l);
      }
    }
    Fitting(specials, SpecialHits(t, b));
  }

  lemma HitsOnce(t: Terrain, b: Body, seen: seq<nat>)
    requires t.Valid() && ExaminedAll(t, b, seen)
    ensures HitOnce(t, b, Specials(t, b, seen))
  {
    forall l: nat ensures multiset(Specials(t, b, seen))[l] == if IsSpecialHit(t, b, l) then 1 else 0 {
      SpecialsOnce(t, b, seen, l);
    }
  }

  predicate Inside(t: Terrain, specials: seq<nat>) {
    forall i :: 0 <= i < |specials| ==> specials[i] < |t.walls|
  }

  /** A line that is to be triggered, with the side it is left from. */
  datatype Crossing = Crossing(line: nat, side: int)

  /** The lines crossed between the two points among the first n, last first. */
  function Crossings(t: Terrain, specials: seq<nat>, n: nat, oldx: int, oldy: int, x: int, y: int): seq<Crossing>
    requires n <= |specials| && Inside(t, specials)
  {
    if n == 0 then []
    else
      var l := specials[n - 1];
      var side, oldside := Side.PointOnLineSide(x, y, t.walls[l].geo), Side.PointOnLineSide(oldx, oldy, t.walls[l].geo);
      (if side != oldside then [Crossing(l, oldside)] else []) + Crossings(t, specials, n - 1, oldx, oldy, x, y)
  }

  lemma CrossingsOn(t: Terrain, specials: seq<nat>, n: nat, oldx: int, oldy: int, x: int, y: int,
                    crossed: seq<Crossing>, whole: seq<Crossing>)
    requires 0 < n <= |specials| && Inside(t, specials) && crossed + Crossings(t, specials, n, oldx, oldy, x, y) == whole
    ensures var l := specials[n - 1];
            var side, oldside := Side.PointOnLineSide(x, y, t.walls[l].geo), Side.PointOnLineSide(oldx, oldy, t.walls[l].geo);
            (if side != oldside then crossed + [Crossing(l, oldside)] else crossed)
            + Crossings(t, specials, n - 1, oldx, oldy, x, y) == whole
  {
  }

  /** Exactly the special lines with the two points on different sides are triggered. */
  lemma {:induction false} CrossingsAre(t: Terrain, specials: seq<nat>, n: nat, oldx: int, oldy: int, x: int, y: int, c: Crossing)
    requires n <= |specials| && Inside(t, specials)
    ensures c in Crossings(t, specials, n, oldx, oldy, x, y) <==>
            && c.line in specials[..n] && c.line < |t.walls|
            && c.side == Side.PointOnLineSide(oldx, oldy, t.walls[c.line].geo)
            && c.side != Side.PointOnLineSide(x, y, t.walls[c.line].geo)
    decreases n
  {
    if n > 0 {
      CrossingsAre(t, specials, n - 1, oldx, oldy, x, y, c);
      assert specials[..n] == specials[..n - 1] + [specials[n - 1]];
    }
  }

  /** The lines seen are those stamped with the current count, each seen once. */
  ghost predicate Stamped(stamps: seq<int>, validcount: int, seen: seq<nat>) {
    && (forall l :: 0 <= l < |stamps| ==> stamps[l] <= validcount)
    && (forall l: nat :: l < |stamps| ==> (stamps[l] == validcount <==> l in seen))
    && (forall l :: l in seen ==> l < |stamps|) && NoRepeats(seen)
  }

  lemma StampedOn(stamps: seq<int>, validcount: int, seen: seq<nat>, l: nat)
    requires Stamped(stamps, validcount, seen) && l < |stamps| && stamps[l] != validcount
    ensures Stamped(stamps[l := validcount], validcount, seen + [l])
  {
    var more := seen + [l];
    forall i, j | 0 <= i < j < |more| ensures more[i] != more[j] {
      assert more[i] in seen;
    }
  }

  /** The effect of PIT_CheckLine. */
  function NextHeights(t: Terrain, b: Body, h: Heights, l: nat): Heights
    requires t.Valid()
  {
    if Shapes(t, b, l) then Narrow(h, Gap(t, t.walls[l])) else h
  }

  function NextSpecials(t: Terrain, b: Body, spechit: seq<nat>, l: nat): seq<nat> {
    if Shapes(t, b, l) && t.walls[l].special then spechit + [l] else spechit
  }

  /** The heights once the lines have been examined in this order. */
  function HeightsAfter(t: Terrain, b: Body, base: Heights, seen: seq<nat>): Heights
    requires t.Valid()
    decreases |seen|
  {
    if seen == [] then base
    else NextHeights(t, b, HeightsAfter(t, b, base, seen[..|seen| - 1]), seen[|seen| - 1])
  }

  lemma HeightsOn(t: Terrain, b: Body, base: Heights, seen: seq<nat>, l: nat)
    requires t.Valid()
    ensures HeightsAfter(t, b, base, seen + [l]) == NextHeights(t, b, HeightsAfter(t, b, base, seen), l)
  {
    assert (seen + [l])[..|seen|] == seen;
  }

  /** They are the extremes over the lines. */
  lemma {:induction false} HeightsNarrowed(t: Terrain, b: Body, base: Heights, seen: seq<nat>)
    requires t.Valid()
    ensures Narrowed(t, b, base, seen, HeightsAfter(t, b, base, seen))
    decreases |seen|
  {
    if seen != [] {
      var front, l := seen[..|seen| - 1], seen[|seen| - 1];
      HeightsNarrowed(t, b, base, front);
      NarrowedOn(t, b, base, front, HeightsAfter(t, b, base, front), l);
      assert seen == front + [l];
    }
  }

  lemma SpecialsOn(t: Terrain, b: Body, seen: seq<nat>, l: nat)
    ensures Specials(t, b, seen + [l]) == NextSpecials(t, b, Specials(t, b, seen), l)
  {
    assert (seen + [l])[..|seen|] == seen;
  }

  /** The line is listed in the block. */
  predicate ListedIn(t: Terrain, c: int, r: int, l: nat)
    requires t.Valid()
  {
    t.grid.OnMap(c, r) && l in t.lists[t.grid.Index(c, r)]
  }

  /** The line is listed in some block of the rectangle. */
  ghost predicate Listed(t: Terrain, bs: Blocks, l: nat)
    requires t.Valid()
  {
    exists c, r :: bs.xl <= c <= bs.xh && bs.yl <= r <= bs.yh && ListedIn(t, c, r, l)
  }

  /** The blocks that the body's box lies in. */
  function BoxBlocks(g: Grid, box: Side.Box): Blocks {
    Blocks(g.Column(box.left), g.Column(box.right), g.Row(box.bottom), g.Row(box.top))
  }

  // ----- the order of the scan

  /** The entries of the block lists in the order of the nested loops; a line may come more than once. */
  function Entries(t: Terrain, bs: Blocks): seq<nat>
    requires t.Valid()
  {
    Sweep(t.grid, t.lists, bs, bs.xl)
  }

  lemma EntriesAre(t: Terrain, bs: Blocks, l: nat)
    requires t.Valid()
    ensures l in Entries(t, bs) <==> Listed(t, bs, l)
  {
    SweepHas(t.grid, t.lists, bs, bs.xl, l);
    if l in Entries(t, bs) {
      var c, r :| bs.xl <= c <= bs.xh && bs.yl <= r <= bs.yh && l in InBlock(t.grid, t.lists, c, r);
      assert ListedIn(t, c, r, l);
    }
    if Listed(t, bs, l) {
      var c, r :| bs.xl <= c <= bs.xh && bs.yl <= r <= bs.yh && ListedIn(t, c, r, l);
      assert l in InBlock(t.grid, t.lists, c, r);
    }
  }

  predicate StopsAt(t: Terrain, b: Body, l: nat) {
    l < |t.walls| && Stops(b, t.walls[l])
  }

  /** How many entries are met: up to the first that stops the body. */
  function Reach(t: Terrain, b: Body, entries: seq<nat>): (n: nat)
    ensures n <= |entries|
  {
    if entries == [] then 0 else if StopsAt(t, b, entries[0]) then 1 else 1 + Reach(t, b, entries[1..])
  }

  /** The lines examined, in order: the entries met, each at its first place. */
  function Examined(t: Terrain, b: Body): seq<nat>
    requires t.Valid()
  {
    var entries := Entries(t, BoxBlocks(t.grid, b.box));
    Firsts(entries[..Reach(t, b, entries)])
  }

  /** No entry met stopped the body, save the last if not `ok`. */
  ghost predicate Ended(t: Terrain, b: Body, met: seq<nat>, ok: bool) {
    && (forall i :: 0 <= i < |met| - 1 ==> !StopsAt(t, b, met[i]))
    && (if met == [] then ok else ok == !StopsAt(t, b, met[|met| - 1]))
  }

  /** The first i entries of the list have been met since. */
  ghost predicate MetPart(before: seq<nat>, list: seq<nat>, i: nat, met: seq<nat>) {
    i <= |list| && before <= met <= before + list && |met| == |before| + i
  }

  lemma MetPartOn(before: seq<nat>, list: seq<nat>, i: nat, met: seq<nat>)
    requires MetPart(before, list, i, met) && i < |list|
    ensures MetPart(before, list, i + 1, met + [list[i]])
  {
  }

  lemma EndedOn(t: Terrain, b: Body, met: seq<nat>, l: nat)
    requires Ended(t, b, met, true)
    ensures Ended(t, b, met + [l], !StopsAt(t, b, l))
    ensures l in met ==> !StopsAt(t, b, l)
  {
  }

  lemma {:induction false} ReachIs(t: Terrain, b: Body, entries: seq<nat>, met: seq<nat>, ok: bool)
    requires met <= entries && Ended(t, b, met, ok) && (ok ==> met == entries)
    ensures Reach(t, b, entries) == |met|
    decreases |entries|
  {
    if entries != [] {
      assert met != [] && met[0] == entries[0];
      if |met| > 1 {
        assert !StopsAt(t, b, met[0]);
        ReachIs(t, b, entries[1..], met[1..], ok);
      } else if ok {
        ReachIs(t, b, entries[1..], [], ok);
      }
    }
  }

  /** A scan that has met these entries has examined just the lines it should. */
  lemma ExaminedIs(t: Terrain, b: Body, met: seq<nat>, ok: bool)
    requires t.Valid() && met <= Entries(t, BoxBlocks(t.grid, b.box)) && Ended(t, b, met, ok)
    requires ok ==> met == Entries(t, BoxBlocks(t.grid, b.box))
    ensures Firsts(met) == Examined(t, b)
    ensures NoRepeats(Firsts(met)) && AllListed(t, BoxBlocks(t.grid, b.box), Firsts(met))
    ensures ok ==> ExaminedAll(t, b, Firsts(met))
    ensures ok <==> NothingStops(t, b)
  {
    var bs := BoxBlocks(t.grid, b.box);
    var entries := Entries(t, bs);
    ReachIs(t, b, entries, met, ok);
    assert entries[..|met|] == met;
    FirstsAre(met);
    forall l: nat ensures l in entries <==> Listed(t, bs, l) {
      EntriesAre(t, bs, l);
    }
    forall l | l in met ensures l in entries {
    }
    if !ok {
      var l := met[|met| - 1];
      assert l in met && StopsAt(t, b, l);
    }
  }

  function BoxOf(m: Mover): Side.Box {
    Side.Box(m.y + m.radius, m.y - m.radius, m.x - m.radius, m.x + m.radius)
  }

  function BodyOf(m: Mover, player: bool): Body {
    Body(BoxOf(m), m.missile, player)
  }

  /** The box of a mover: everything no farther than its radius from the destination, along both axes. */
  lemma BoxOfIs(m: Mover, x: int, y: int)
    ensures Side.InBox(BoxOf(m), x, y) <==> m.x <= x + m.radius && x <= m.x + m.radius && m.y <= y + m.radius && y <= m.y + m.radius
  {
  }

  /** The blocks scanned for lines are just those that hold a point of the box. */
  lemma BoxBlocksAre(g: Grid, box: Side.Box, col: int, row: int)
    requires Side.ValidBox(box)
    ensures var bs := BoxBlocks(g, box);
            (bs.xl <= col <= bs.xh && bs.yl <= row <= bs.yh) <==>
            exists x, y :: Side.InBox(box, x, y) && g.Column(x) == col && g.Row(y) == row
  {
    var bs := BoxBlocks(g, box);
    if bs.xl <= col <= bs.xh && bs.yl <= row <= bs.yh {
      var x := Between(box.left, box.right, g.orgx, col);
      var y := Between(box.bottom, box.top, g.orgy, row);
      assert Side.InBox(box, x, y) && g.Column(x) == col && g.Row(y) == row;
    }
    forall x, y | Side.InBox(box, x, y) ensures bs.xl <= g.Column(x) <= bs.xh && bs.yl <= g.Row(y) <= bs.yh {
      DivMonotone(box.left - g.orgx, x - g.orgx);
      DivMonotone(x - g.orgx, box.right - g.orgx);
      DivMonotone(box.bottom - g.orgy, y - g.orgy);
      DivMonotone(y - g.orgy, box.top - g.orgy);
    }
  }

  lemma Between(low: int, high: int, org: int, k: int) returns (x: int)
    requires low <= high && (low - org) / MAPBLOCK <= k <= (high - org) / MAPBLOCK
    ensures low <= x <= high && (x - org) / MAPBLOCK == k
  {
    x := if org + k * MAPBLOCK >= low then org + k * MAPBLOCK else low;
  }

  /** The heights of the sector at the destination. */
  function BaseHeights(t: Terrain, w: Things, m: Mover): Heights
    requires w.sectorAt(m.x, m.y) < |t.sectors|
  {
    var sector := t.sectors[w.sectorAt(m.x, m.y)];
    Heights(sector.floor, sector.ceiling, sector.floor)
  }

  lemma BaseHeightsAre(t: Terrain, w: Things, m: Mover, s: nat)
    requires s == w.sectorAt(m.x, m.y) < |t.sectors|
    ensures BaseHeights(t, w, m).floor == BaseHeights(t, w, m).dropoff == t.sectors[s].floor
    ensures BaseHeights(t, w, m).ceiling == t.sectors[s].ceiling
  {
  }

  ghost predicate NothingStops(t: Terrain, b: Body)
    requires t.Valid()
  {
    forall k: nat :: k < |t.walls| && Listed(t, BoxBlocks(t.grid, b.box), k) ==> !Stops(b, t.walls[k])
  }

  /** `seen` has every line listed in the scanned blocks, each once. */
  ghost predicate ExaminedAll(t: Terrain, b: Body, seen: seq<nat>)
    requires t.Valid()
  {
    NoRepeats(seen) && forall k :: k in seen <==> Listed(t, BoxBlocks(t.grid, b.box), k)
  }

  /** No thing of the scanned blocks and no listed line objects to the position. */
  ghost predicate Clear(t: Terrain, w: Things, m: Mover, player: bool)
    requires t.Valid()
    reads w
  {
    ThingsPass(w, m) && NothingStops(t, BodyOf(m, player))
  }

  /** The height conditions of P_TryMove; `dropoff` stands for MF_DROPOFF or MF_FLOAT. */
  predicate Fits(h: Heights, m: Mover, teleport: bool, dropoff: bool) {
    && h.ceiling - h.floor >= m.height
    && (teleport || h.ceiling - m.z >= m.height)
    && (teleport || h.floor - m.z <= 24 * FRACUNIT)
    && (dropoff || h.floor - h.dropoff <= 24 * FRACUNIT)
  }

  /** The limits of P_TryMove: the thing must fit between floor and ceiling; unless it teleports its head must stay
      below the ceiling and it may step up 24 units; unless it may fall or floats, it may not stand over a drop of
      more than 24. */
  lemma FitsIs(h: Heights, m: Mover)
    ensures Fits(h, m, true, true) <==> h.floor + m.height <= h.ceiling
    ensures Fits(h, m, false, true) <==>
            h.floor + m.height <= h.ceiling && m.z + m.height <= h.ceiling && h.floor <= m.z + 1572864
    ensures Fits(h, m, true, false) <==> h.floor + m.height <= h.ceiling && h.floor <= h.dropoff + 1572864
    ensures Fits(h, m, false, false) <==> Fits(h, m, false, true) && Fits(h, m, true, false)
  {
  }

  class Clipper {
    const t: Terrain
    var validcount: int
    var stamps: seq<int>             // validcount of every line
    var tm: Heights
    var ceilingline: Option<nat>
    const spechit: array<nat>
    var numspechit: nat
    var floatok: bool                // the thing would fit if it were at the right height
    var overrun: bool                // spechit was stored to behind its end
    ghost var specials: seq<nat>     // the special lines to be noted, in order
    ghost var seen: seq<nat>         // the lines examined by this call, in order
    ghost var met: seq<nat>          // the entries of the block lists it has met

    /** spechit holds the special lines as far as it has room. */
    ghost predicate Noted()
      reads this, spechit
    {
      && spechit.Length == MAXSPECIALCROSS && numspechit == |specials| && overrun == (|specials| > MAXSPECIALCROSS)
      && forall i :: 0 <= i < |specials| && i < MAXSPECIALCROSS ==> spechit[i] == specials[i]
    }

    /** No line bears a stamp of the future. */
    ghost predicate Valid()
      reads this, spechit
    {
      t.Valid() && |stamps| == |t.walls| && (forall l :: 0 <= l < |stamps| ==> stamps[l] <= validcount) && Noted()
    }

    constructor (t: Terrain)
      requires t.Valid()
      ensures this.t == t && Valid() && fresh(spechit)
    {
      this.t := t;
      validcount, stamps := 0, seq(|t.walls|, _ => 0);
      tm, ceilingline := Heights(0, 0, 0), None;
      spechit := new nat[MAXSPECIALCROSS];
      numspechit, floatok, overrun, specials, seen, met := 0, false, false, [], [], [];
    }

    /** The call has met some entries, and nothing has stopped the body, save the last entry if not `ok`. */
    ghost predicate Walked(b: Body, base: Heights, ok: bool)
      reads this, spechit
    {
      && t.Valid() && |stamps| == |t.walls|
      && Ended(t, b, met, ok) && seen == Firsts(met)
      && tm == HeightsAfter(t, b, base, seen) && specials == Specials(t, b, seen)
      && Stamped(stamps, validcount, seen) && Noted()
    }

    /** The store into spechit, which the code does not guard. */
    method NoteSpecial(l: nat)
      requires Noted()
      modifies this`numspechit, this`overrun, this`specials, spechit
      ensures Noted() && specials == old(specials) + [l]
    {
      if numspechit < MAXSPECIALCROSS {
        spechit[numspechit] := l;
      } else {
        overrun := true;
      }
      numspechit := numspechit + 1;
      specials := specials + [l];
    }

    /** PIT_CheckLine. */
    method CheckLine(b: Body, l: nat) returns (ok: bool)
      requires t.Valid() && l < |t.walls| && Noted()
      modifies this`tm, this`ceilingline, this`numspechit, this`overrun, this`specials, spechit
      ensures ok == !Stops(b, t.walls[l])
      ensures Noted()
      ensures tm == NextHeights(t, b, old(tm), l) && specials == NextSpecials(t, b, old(specials), l)
      ensures ceilingline == if tm.ceiling < old(tm).ceiling then Some(l) else old(ceilingline)
    {
      var ld := t.walls[l];
      if b.box.right <= ld.bbox.left || b.box.left >= ld.bbox.right || b.box.top <= ld.bbox.bottom || b.box.bottom >= ld.bbox.top {
        return true;
      }
      if Side.BoxOnLineSide(b.box, ld.geo) != -1 {
        return true;
      }
      if ld.back.None? {
        return false;
      }
      if !b.missile {
        if ld.blocking {
          return false;
        }
        if !b.player && ld.blockmonsters {
          return false;
        }
      }
      LetThrough(ld, l);
      return true;
    }

    /** A touched line that is let through narrows the heights, and is noted when special. */
    method LetThrough(ld: Wall, l: nat)
      requires t.Valid() && l < |t.walls| && ld == t.walls[l] && ld.back.Some? && Noted()
      modifies this`tm, this`ceilingline, this`numspechit, this`overrun, this`specials, spechit
      ensures Noted() && tm == Narrow(old(tm), Gap(t, ld)) && specials == if ld.special then old(specials) + [l] else old(specials)
      ensures ceilingline == if tm.ceiling < old(tm).ceiling then Some(l) else old(ceilingline)
    {
      var o := OpeningOf(t.sectors[ld.front], t.sectors[ld.back.value]);
      if o.top < tm.ceiling {
        tm := tm.(ceiling := o.top);
        ceilingline := Some(l);
      }
      if o.bottom > tm.floor {
        tm := tm.(floor := o.bottom);
      }
      if o.low < tm.dropoff {
        tm := tm.(dropoff := o.low);
      }
      if ld.special {
        NoteSpecial(l);
      }
    }

    /** The line is marked as met. */
    method Stamp(l: nat)
      requires Stamped(stamps, validcount, seen) && l < |stamps| && stamps[l] != validcount
      modifies this`stamps, this`seen
      ensures |stamps| == |old(stamps)| && Stamped(stamps, validcount, seen) && seen == old(seen) + [l]
    {
      StampedOn(stamps, validcount, seen, l);
      stamps := stamps[l := validcount];
      seen := seen + [l];
    }

    /** A line met for the first time is stamped and examined. */
    method NewLine(b: Body, base: Heights, l: nat) returns (ok: bool)
      requires Walked(b, base, true) && l < |t.walls| && stamps[l] != validcount
      modifies this`tm, this`ceilingline, this`numspechit, this`overrun, this`specials, spechit, this`stamps, this`seen
      ensures ok == !Stops(b, t.walls[l]) && seen == old(seen) + [l]
      ensures tm == HeightsAfter(t, b, base, seen) && specials == Specials(t, b, seen)
      ensures |stamps| == |t.walls| && Stamped(stamps, validcount, seen) && Noted()
    {
      Stamp(l);
      ok := CheckLine(b, l);
      HeightsOn(t, b, base, old(seen), l);
      SpecialsOn(t, b, old(seen), l);
    }

    /** One round of P_BlockLinesIterator: a line is examined only the first time it is met. */
    method MeetLine(b: Body, base: Heights, l: nat) returns (ok: bool)
      requires Walked(b, base, true) && l < |t.walls|
      modifies this`tm, this`ceilingline, this`numspechit, this`overrun, this`specials, spechit, this`stamps, this`seen, this`met
      ensures met == old(met) + [l] && Walked(b, base, ok)
    {
      FirstsAre(met);
      FirstsOn(met, l);
      EndedOn(t, b, met, l);
      if stamps[l] == validcount {
        ok := true;
      } else {
        ok := NewLine(b, base, l);
      }
      met := met + [l];
    }

    /** The loop of P_BlockLinesIterator over the list of one block. */
    method MeetLines(b: Body, base: Heights, list: seq<nat>) returns (ok: bool)
      requires Walked(b, base, true) && forall i :: 0 <= i < |list| ==> list[i] < |t.walls|
      modifies this`tm, this`ceilingline, this`numspechit, this`overrun, this`specials, spechit, this`stamps, this`seen, this`met
      ensures old(met) <= met <= old(met) + list && (ok ==> met == old(met) + list)
      ensures Walked(b, base, ok)
    {
      for i := 0 to |list|
        invariant MetPart(old(met), list, i, met)
        invariant Walked(b, base, true)
      {
        MetPartOn(old(met), list, i, met);
        ok := MeetLine(b, base, list[i]);
        if !ok {
          return;
        }
      }
      return true;
    }

    /** P_BlockLinesIterator. */
    method BlockLinesIterator(b: Body, base: Heights, col: int, row: int) returns (ok: bool)
      requires Walked(b, base, true)
      modifies this`tm, this`ceilingline, this`numspechit, this`overrun, this`specials, spechit, this`stamps, this`seen, this`met
      ensures old(met) <= met <= old(met) + InBlock(t.grid, t.lists, col, row)
      ensures ok ==> met == old(met) + InBlock(t.grid, t.lists, col, row)
      ensures Walked(b, base, ok)
    {
      if !t.grid.OnMap(col, row) {
        return true;
      }
      ok := MeetLines(b, base, t.lists[t.grid.Index(col, row)]);
    }

    /** One more block of a column. */
    method NextBlock(b: Body, base: Heights, col: int, row: int, yh: int, ghost before: seq<nat>, ghost whole: seq<nat>)
      returns (ok: bool)
      requires Walked(b, base, true) && row <= yh
      requires Toward(before, met, ColumnSweep(t.grid, t.lists, col, row, yh), whole)
      modifies this`tm, this`ceilingline, this`numspechit, this`overrun, this`specials, spechit, this`stamps, this`seen, this`met
      ensures before <= met <= whole
      ensures ok ==> Toward(before, met, ColumnSweep(t.grid, t.lists, col, row + 1, yh), whole)
      ensures Walked(b, base, ok)
    {
      ok := BlockLinesIterator(b, base, col, row);
      TowardOn(before, old(met), InBlock(t.grid, t.lists, col, row), ColumnSweep(t.grid, t.lists, col, row + 1, yh), met, whole);
    }

    /** One column of the nested loops. */
    method CheckColumn(b: Body, base: Heights, col: int, bs: Blocks) returns (ok: bool)
      requires Walked(b, base, true)
      modifies this`tm, this`ceilingline, this`numspechit, this`overrun, this`specials, spechit, this`stamps, this`seen, this`met
      ensures old(met) <= met <= old(met) + ColumnSweep(t.grid, t.lists, col, bs.yl, bs.yh)
      ensures ok ==> met == old(met) + ColumnSweep(t.grid, t.lists, col, bs.yl, bs.yh)
      ensures Walked(b, base, ok)
    {
      ghost var column := ColumnSweep(t.grid, t.lists, col, bs.yl, bs.yh);
      ghost var whole := met + column;
      var row := bs.yl;
      while row <= bs.yh
        invariant bs.yl <= row
        invariant Toward(old(met), met, ColumnSweep(t.grid, t.lists, col, row, bs.yh), whole)
        invariant Walked(b, base, true)
        decreases bs.yh - row
      {
        ok := NextBlock(b, base, col, row, bs.yh, old(met), whole);
        if !ok {
          return;
        }
        row := row + 1;
      }
      TowardEnd(old(met), column, met);
      return true;
    }

    /** One more column of the rectangle. */
    method NextColumn(b: Body, base: Heights, bs: Blocks, col: int, ghost whole: seq<nat>) returns (ok: bool)
      requires Walked(b, base, true) && col <= bs.xh && Toward([], met, Sweep(t.grid, t.lists, bs, col), whole)
      modifies this`tm, this`ceilingline, this`numspechit, this`overrun, this`specials, spechit, this`stamps, this`seen, this`met
      ensures met <= whole && (ok ==> Toward([], met, Sweep(t.grid, t.lists, bs, col + 1), whole))
      ensures Walked(b, base, ok)
    {
      ok := CheckColumn(b, base, col, bs);
      TowardOn([], old(met), ColumnSweep(t.grid, t.lists, col, bs.yl, bs.yh), Sweep(t.grid, t.lists, bs, col + 1), met, whole);
    }

    /** The nested loops over the blocks of the rectangle. */
    method CheckBlocks(b: Body, base: Heights, bs: Blocks) returns (ok: bool)
      requires Walked(b, base, true) && met == []
      modifies this`tm, this`ceilingline, this`numspechit, this`overrun, this`specials, spechit, this`stamps, this`seen, this`met
      ensures met <= Entries(t, bs) && (ok ==> met == Entries(t, bs))
      ensures Walked(b, base, ok)
    {
      ghost var whole := Entries(t, bs);
      var col := bs.xl;
      while col <= bs.xh
        invariant Walked(b, base, true) && Toward([], met, Sweep(t.grid, t.lists, bs, col), whole)
        decreases bs.xh - col
      {
        ok := NextColumn(b, base, bs, col, whole);
        if !ok {
          return;
        }
        col := col + 1;
      }
      return true;
    }

    /** The line half of P_CheckPosition: true iff no listed line stops the body; then every listed
        line has been examined, once, otherwise those up to the first that stops it. */
    method CheckLines(b: Body, base: Heights) returns (ok: bool)
      requires Walked(b, base, true) && met == []
      modifies this`tm, this`ceilingline, this`numspechit, this`overrun, this`specials, spechit, this`stamps, this`seen, this`met
      ensures ok <==> NothingStops(t, b)
      ensures seen == Examined(t, b) && Narrowed(t, b, base, seen, tm) && specials == Specials(t, b, seen)
      ensures NoRepeats(seen) && AllListed(t, BoxBlocks(t.grid, b.box), seen)
      ensures ok ==> ExaminedAll(t, b, seen)
      ensures Valid()
    {
      ok := CheckBlocks(b, base, BoxBlocks(t.grid, b.box));
      ExaminedIs(t, b, met, ok);
      HeightsNarrowed(t, b, base, seen);
    }

    /** A new check begins at the base heights: nothing seen, everything unstamped. */
    method Begin(b: Body, base: Heights)
      requires Valid()
      modifies this
      ensures Walked(b, base, true) && met == [] && tm == base && specials == [] && ceilingline.None?
      ensures validcount == old(validcount) + 1
    {
      tm, ceilingline := base, None;
      numspechit, overrun, specials := 0, false, [];
      validcount := validcount + 1;
      seen, met := [], [];
    }

    /** P_CheckPosition. A clipping body passes iff no thing of the scanned blocks and no listed line objects; then
        every listed line has been examined once, the heights are the highest floor, the lowest ceiling and the
        lowest drop over the base sector and the touched lines, and spechit has each touched special line once.
        Whenever the things let it pass, the lines are examined in order up to the first that stops it, and those
        that are special are stored. The store stays inside spechit iff they are no more than eight. */
    method CheckPosition(w: Things, m: Mover, player: bool, noclip: bool) returns (ok: bool)
      requires Valid() && w.Valid() && w.grid == t.grid && w.sectorAt(m.x, m.y) < |t.sectors|
      modifies this, spechit
      ensures validcount == old(validcount) + 1
      ensures noclip ==> ok && tm == BaseHeights(t, w, m)
      ensures !noclip ==> (ok <==> Clear(t, w, m, player))
      ensures !noclip && ThingsPass(w, m) ==> seen == Examined(t, BodyOf(m, player))
      ensures !noclip && ThingsPass(w, m) ==> Narrowed(t, BodyOf(m, player), BaseHeights(t, w, m), seen, tm)
      ensures specials == if noclip || !ThingsPass(w, m) then [] else Specials(t, BodyOf(m, player), Examined(t, BodyOf(m, player)))
      ensures !noclip && ok ==> ExaminedAll(t, BodyOf(m, player), seen) && HitOnce(t, BodyOf(m, player), specials)
      ensures overrun <==> |specials| > MAXSPECIALCROSS
      ensures !overrun ==> numspechit <= MAXSPECIALCROSS && spechit[..numspechit] == specials
      ensures overrun ==> |SpecialHits(t, BodyOf(m, player))| > MAXSPECIALCROSS
      ensures !noclip && ok ==> (overrun <==> |SpecialHits(t, BodyOf(m, player))| > MAXSPECIALCROSS)
      ensures Valid()
    {
      var b := BodyOf(m, player);
      var sector := t.sectors[w.sectorAt(m.x, m.y)];
      Begin(b, Heights(sector.floor, sector.ceiling, sector.floor));
      if noclip {
        return true;
      }
      ok := CheckThings(w, m);
      if ok {
        ok := CheckLines(b, BaseHeights(t, w, m));
        SpecialsFit(t, b, seen);
      }
      if ok {
        HitsOnce(t, b, seen);
      }
    }

    /** The loop of P_TryMove over the special lines, from the last to the first. */
    method CrossSpecials(oldx: int, oldy: int, x: int, y: int) returns (crossed: seq<Crossing>)
      requires Valid() && !overrun && Inside(t, specials)
      ensures crossed == Crossings(t, specials, |specials|, oldx, oldy, x, y)
    {
      crossed := [];
      ghost var whole := Crossings(t, specials, |specials|, oldx, oldy, x, y);
      var n := numspechit;
      while n > 0
        invariant 0 <= n <= |specials|
        invariant crossed + Crossings(t, specials, n, oldx, oldy, x, y) == whole
      {
        CrossingsOn(t, specials, n, oldx, oldy, x, y, crossed, whole);
        n := n - 1;
        var ld := t.walls[spechit[n]].geo;
        var side, oldside := Side.PointOnLineSide(x, y, ld), Side.PointOnLineSide(oldx, oldy, ld);
        if side != oldside {
          crossed := crossed + [Crossing(spechit[n], oldside)];
        }
      }
    }

    /** The checks of P_TryMove. */
    method MayMove(w: Things, m: Mover, player: bool, noclip: bool, teleport: bool, dropoff: bool) returns (ok: bool)
      requires Valid() && w.Valid() && w.grid == t.grid && w.sectorAt(m.x, m.y) < |t.sectors|
      modifies this, spechit
      ensures ok <==> noclip || (Clear(t, w, m, player) && Fits(tm, m, teleport, dropoff))
      ensures floatok <==> !noclip && Clear(t, w, m, player) && tm.ceiling - tm.floor >= m.height
      ensures noclip ==> tm == BaseHeights(t, w, m)
      ensures ok && !noclip ==> Narrowed(t, BodyOf(m, player), BaseHeights(t, w, m), seen, tm) && ExaminedAll(t, BodyOf(m, player), seen)
      ensures ok && !noclip ==> AreHits(t, BodyOf(m, player), specials)
      ensures ok ==> Inside(t, specials)
      ensures Valid()
    {
      ok := CheckPosition(w, m, player, noclip);
      floatok := false;
      if !ok || noclip {
        return;
      }
      if tm.ceiling - tm.floor < m.height {
        return false;
      }
      HitsInside(t, BodyOf(m, player), specials);
      floatok := true;
      if !teleport && tm.ceiling - m.z < m.height {
        return false;
      }
      if !teleport && tm.floor - m.z > 24 * FRACUNIT {
        return false;
      }
      if !dropoff && tm.floor - tm.dropoff > 24 * FRACUNIT {
        return false;
      }
    }

    /** The second half of P_TryMove: the thing is relinked between the heights found, and the special lines it
        crosses are triggered. */
    method Relocate(w: Things, m: Mover, cross: bool) returns (crossed: seq<Crossing>)
      requires Valid() && w.Valid() && m.id in w.linked && Inside(t, specials)
      modifies w, w.blocks, w.sectors
      ensures w.Valid() && w.linked == old(w.linked) && w.things.Keys == old(w.things).Keys
      ensures w.things[m.id] == old(w.things)[m.id].(x := m.x, y := m.y, floorz := tm.floor, ceilingz := tm.ceiling,
                                                     sector := w.sectorAt(m.x, m.y))
      ensures forall i :: i in w.things && i != m.id ==> w.things[i] == old(w.things)[i]
      ensures !cross ==> crossed == []
      ensures cross && !overrun ==>
                crossed == Crossings(t, specials, |specials|, old(w.things)[m.id].x, old(w.things)[m.id].y, m.x, m.y)
    {
      crossed := [];
      if cross && !overrun {
        crossed := CrossSpecials(w.things[m.id].x, w.things[m.id].y, m.x, m.y);
      }
      w.MoveTo(m.id, m.x, m.y, tm.floor, tm.ceiling);
    }

    /** P_TryMove: the thing moves iff the position is free and it fits; otherwise nothing does. */
    method TryMove(w: Things, m: Mover, player: bool, noclip: bool, teleport: bool, dropoff: bool)
      returns (moved: bool, crossed: seq<Crossing>)
      requires Valid() && w.Valid() && w.grid == t.grid && w.sectorAt(m.x, m.y) < |t.sectors|
      requires m.id in w.linked
      modifies this, spechit, w, w.blocks, w.sectors
      ensures w.linked == old(w.linked) && w.things.Keys == old(w.things).Keys
      ensures moved <==> noclip || (old(Clear(t, w, m, player)) && Fits(tm, m, teleport, dropoff))
      ensures floatok <==> !noclip && old(Clear(t, w, m, player)) && tm.ceiling - tm.floor >= m.height
      ensures moved && !noclip ==> Narrowed(t, BodyOf(m, player), BaseHeights(t, w, m), seen, tm)
      ensures moved ==> w.things[m.id] == old(w.things)[m.id].(x := m.x, y := m.y, floorz := tm.floor, ceilingz := tm.ceiling,
                                                               sector := w.sectorAt(m.x, m.y))
      ensures !moved ==> w.things == old(w.things)
      ensures forall i :: i in w.things && i != m.id ==> w.things[i] == old(w.things)[i]
      ensures !moved || noclip || teleport ==> crossed == []
      ensures moved ==> Inside(t, specials)
      ensures moved && !noclip ==> AreHits(t, BodyOf(m, player), specials)
      ensures moved && !noclip && !teleport && !overrun ==>
                crossed == Crossings(t, specials, |specials|, old(w.things)[m.id].x, old(w.things)[m.id].y, m.x, m.y)
      ensures Valid()
      ensures w.Valid()
    {
      crossed := [];
      moved := MayMove(w, m, player, noclip, teleport, dropoff);
      if moved {
        crossed := Relocate(w, m, !teleport && !noclip);
      }
    }
  }

  // ----- nine lines

  /** A special two-sided line straight through the origin of a level with one block and one sector. */
  function Gate(): Wall {
    Wall(Side.Divline(0, -64 * FRACUNIT, 0, 128 * FRACUNIT), Side.Box(64 * FRACUNIT, -64 * FRACUNIT, 0, 0), 0, Some(0),
         false, false, true)
  }

  function Gates(): Terrain {
    Terrain(Grid(-64 * FRACUNIT, -64 * FRACUNIT, 1, 1), [[0, 1, 2, 3, 4, 5, 6, 7, 8]], seq(9, _ => Gate()),
            [Sector(0, 128 * FRACUNIT, [])])
  }

  /** A player at the origin. */
  function AtGate(): Body {
    Body(Side.Box(16 * FRACUNIT, -16 * FRACUNIT, -16 * FRACUNIT, 16 * FRACUNIT), false, true)
  }

  lemma GateIsTouched()
    ensures Touches(AtGate(), Gate()) && !Stops(AtGate(), Gate())
    ensures BoxBlocks(Gates().grid, AtGate().box) == Blocks(0, 0, 0, 0)
  {
  }

  lemma GatesValid()
    ensures Gates().Valid() && forall l: nat :: l < 9 ==> Gates().walls[l] == Gate()
  {
  }

  lemma GateIsHit(l: nat)
    ensures Gates().Valid() && (IsSpecialHit(Gates(), AtGate(), l) <==> l < 9)
  {
    GatesValid();
    GateIsTouched();
    if l < 9 {
      var list := [0, 1, 2, 3, 4, 5, 6, 7, 8];
      assert list[l] == l;
      assert ListedIn(Gates(), 0, 0, l);
    }
  }

  lemma NoGateStops(l: nat)
    requires l < 9
    ensures Gates().Valid() && !Stops(AtGate(), Gates().walls[l])
  {
    GatesValid();
    GateIsTouched();
  }

  /** Nine special lines at one place: all let the player through, and the ninth has no slot in spechit. */
  lemma NineAreTooMany()
    ensures Gates().Valid() && NothingStops(Gates(), AtGate())
    ensures |SpecialHits(Gates(), AtGate())| == 9 > MAXSPECIALCROSS
  {
    GatesValid();
    forall l: nat ensures IsSpecialHit(Gates(), AtGate(), l) <==> l < 9 {
      GateIsHit(l);
    }
    CountHits(Gates(), AtGate(), 9);
    forall l: nat | l < 9 ensures !Stops(AtGate(), Gates().walls[l]) {
      NoGateStops(l);
    }
  }

  lemma CountHits(t: Terrain, b: Body, n: nat)
    requires t.Valid() && forall l: nat :: IsSpecialHit(t, b, l) <==> l < n
    ensures |SpecialHits(t, b)| == n
  {
    forall l: nat ensures l in SpecialHits(t, b) <==> l in Below(n) {
      HitIn(t, b, l);
    }
    assert SpecialHits(t, b) == Below(n);
  }

  function Ten(): (s: seq<nat>)
    ensures |s| == 10 && forall i :: 0 <= i < 10 ==> s[i] == i
  {
    seq(10, i => i)
  }

  /** The same place with a one-sided line behind the gates. */
  function WalledGates(): (t: Terrain)
    ensures t.Valid()
  {
    Terrain(Gates().grid, [Ten()], seq(10, i => if i < 9 then Gate() else Gate().(back := None)), Gates().sectors)
  }

  lemma WalledLine(l: nat)
    ensures StopsAt(WalledGates(), AtGate(), l) <==> l == 9
    ensures Shapes(WalledGates(), AtGate(), l) <==> l < 9
    ensures l < 9 ==> WalledGates().walls[l].special
  {
    GateIsTouched();
  }

  lemma WalledEntries()
    ensures Entries(WalledGates(), BoxBlocks(WalledGates().grid, AtGate().box)) == Ten()
  {
    GateIsTouched();
    var g, lists := WalledGates().grid, WalledGates().lists;
    assert ColumnSweep(g, lists, 0, 0, 0) == lists[0];
  }

  lemma WalledExamined(t: Terrain, b: Body)
    requires t.Valid() && Entries(t, BoxBlocks(t.grid, b.box)) == Ten() && forall l: nat :: StopsAt(t, b, l) <==> l == 9
    ensures Examined(t, b) == Ten() && !NothingStops(t, b)
  {
    ExaminedIs(t, b, Ten(), false);
    FirstsSame(Ten());
  }

  lemma WalledSpecials(t: Terrain, b: Body)
    requires t.Valid() && forall l: nat :: Shapes(t, b, l) && t.walls[l].special <==> l < 9
    ensures |Specials(t, b, Ten())| == 9
  {
    var ten := Ten();
    SpecialsDistinct(t, b, ten);
    var noted := Specials(t, b, ten);
    assert forall l: nat :: l < 9 ==> ten[l] == l;
    NineOf(noted, ten);
  }

  lemma NineOf(noted: seq<nat>, ten: seq<nat>)
    requires NoRepeats(noted) && forall l :: l in noted <==> l in ten && l < 9
    requires |ten| >= 9 && forall l: nat :: l < 9 ==> ten[l] == l
    ensures |noted| == 9
  {
    forall l: nat | l < 9 ensures l in noted {
      assert ten[l] in ten;
    }
    forall i | 0 <= i < |noted| ensures noted[i] in Below(9) {
      assert noted[i] in noted;
    }
    Fitting(noted, Below(9));
  }

  /** There the move is blocked, and spechit has been left all the same. */
  lemma BlockedIsTooLate()
    ensures !NothingStops(WalledGates(), AtGate())
    ensures |Specials(WalledGates(), AtGate(), Examined(WalledGates(), AtGate()))| == 9 > MAXSPECIALCROSS
  {
    var t, b := WalledGates(), AtGate();
    WalledEntries();
    forall l: nat ensures StopsAt(t, b, l) <==> l == 9 {
      WalledLine(l);
    }
    forall l: nat ensures Shapes(t, b, l) && t.walls[l].special <==> l < 9 {
      WalledLine(l);
    }
    WalledExamined(t, b);
    WalledSpecials(t, b);
  }
}
