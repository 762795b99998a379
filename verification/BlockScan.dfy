/** Looking for things around a position: the block-by-block scan of P_CheckPosition
    (doom/p_map.c) with P_BlockThingsIterator (doom/p_maputl.c), against brute force. */
module BlockScan {
  import opened Arith
  import opened Fixed
  import opened Options
  import opened Chains
  import opened BlockMap

  /** A rectangle of blocks, bounds included; it may stick out of the map. */
  datatype Blocks = Blocks(xl: int, xh: int, yl: int, yh: int)

  function InBlock(g: Grid, chains: seq<seq<nat>>, col: int, row: int): seq<nat>
    requires |chains| == g.width * g.height
  {
    if g.OnMap(col, row) then chains[g.Index(col, row)] else []
  }

  /** The things of a column of blocks, from `row` up. */
  function ColumnSweep(g: Grid, chains: seq<seq<nat>>, col: int, row: int, yh: int): seq<nat>
    requires |chains| == g.width * g.height
    decreases yh - row
  {
    if row > yh then [] else InBlock(g, chains, col, row) + ColumnSweep(g, chains, col, row + 1, yh)
  }

  /** The things of the rectangle, in the order of the two nested loops, from column `col` on. */
  function Sweep(g: Grid, chains: seq<seq<nat>>, b: Blocks, col: int): seq<nat>
    requires |chains| == g.width * g.height
    decreases b.xh - col
  {
    if col > b.xh then [] else ColumnSweep(g, chains, col, b.yl, b.yh) + Sweep(g, chains, b, col + 1)
  }

  lemma {:induction false} ColumnSweepHas(g: Grid, chains: seq<seq<nat>>, col: int, row: int, yh: int, t: nat)
    requires |chains| == g.width * g.height
    ensures t in ColumnSweep(g, chains, col, row, yh) <==> exists r :: row <= r <= yh && t in InBlock(g, chains, col, r)
    decreases yh - row
  {
    if row <= yh {
      var here, above := InBlock(g, chains, col, row), ColumnSweep(g, chains, col, row + 1, yh);
      assert t in ColumnSweep(g, chains, col, row, yh) <==> t in here || t in above;
      ColumnSweepHas(g, chains, col, row + 1, yh, t);
      if r :| row <= r <= yh && t in InBlock(g, chains, col, r) {
        assert r == row || row + 1 <= r;
      }
    }
  }

  lemma {:induction false} SweepHas(g: Grid, chains: seq<seq<nat>>, b: Blocks, col: int, t: nat)
    requires |chains| == g.width * g.height
    ensures t in Sweep(g, chains, b, col) <==>
            exists c, r :: col <= c <= b.xh && b.yl <= r <= b.yh && t in InBlock(g, chains, c, r)
    decreases b.xh - col
  {
    if col <= b.xh {
      var here, right := ColumnSweep(g, chains, col, b.yl, b.yh), Sweep(g, chains, b, col + 1);
      assert t in Sweep(g, chains, b, col) <==> t in here || t in right;
      ColumnSweepHas(g, chains, col, b.yl, b.yh, t);
      SweepHas(g, chains, b, col + 1, t);
      if c, r :| col <= c <= b.xh && b.yl <= r <= b.yh && t in InBlock(g, chains, c, r) {
        assert c == col || col + 1 <= c;
      }
    }
  }

  /** Different blocks have different lists. */
  lemma IndexInjective(g: Grid, c: nat, r: nat, c': nat, r': nat)
    requires g.OnMap(c, r) && g.OnMap(c', r') && g.Index(c, r) == g.Index(c', r')
    ensures c == c' && r == r'
  {
    DivUnique(r * g.width + c, g.width, r, c, r', c');
  }

  lemma BlocksApart(g: Grid, chains: seq<seq<nat>>, c: int, r: int, c': int, r': int, t: nat)
    requires |chains| == g.width * g.height && Apart(chains)
    requires t in InBlock(g, chains, c, r) && t in InBlock(g, chains, c', r')
    ensures c == c' && r == r'
  {
    var k, l := g.Index(c, r), g.Index(c', r');
    var i :| 0 <= i < |chains[k]| && chains[k][i] == t;
    var j :| 0 <= j < |chains[l]| && chains[l][j] == t;
    assert At(chains, k, i) && At(chains, l, j);
    IndexInjective(g, c, r, c', r');
  }

  lemma {:induction false} ChainOnce(chains: seq<seq<nat>>, k: nat, n: nat, t: nat)
    requires Apart(chains) && k < |chains| && n <= |chains[k]|
    ensures multiset(chains[k][..n])[t] <= 1
  {
    if n > 0 {
      ChainOnce(chains, k, n - 1, t);
      var front := chains[k][..n - 1];
      assert chains[k][..n] == front + [chains[k][n - 1]];
      forall i | 0 <= i < |front| ensures front[i] != chains[k][n - 1] {
        assert At(chains, k, i) && At(chains, k, n - 1);
      }
    }
  }

  lemma BlockOnce(g: Grid, chains: seq<seq<nat>>, c: int, r: int, t: nat)
    requires |chains| == g.width * g.height && Apart(chains)
    ensures multiset(InBlock(g, chains, c, r))[t] <= 1
  {
    if g.OnMap(c, r) {
      var k := g.Index(c, r);
      ChainOnce(chains, k, |chains[k]|, t);
      assert chains[k][..|chains[k]|] == chains[k];
    }
  }

  lemma {:induction false} ColumnOnce(g: Grid, chains: seq<seq<nat>>, col: int, row: int, yh: int, t: nat)
    requires |chains| == g.width * g.height && Apart(chains)
    ensures multiset(ColumnSweep(g, chains, col, row, yh))[t] <= 1
    decreases yh - row
  {
    if row <= yh {
      BlockOnce(g, chains, col, row, t);
      ColumnOnce(g, chains, col, row + 1, yh, t);
      ColumnSweepHas(g, chains, col, row + 1, yh, t);
      if t in InBlock(g, chains, col, row) && t in ColumnSweep(g, chains, col, row + 1, yh) {
        var r :| row + 1 <= r <= yh && t in InBlock(g, chains, col, r);
        BlocksApart(g, chains, col, row, col, r, t);
      }
    }
  }

  /** No thing is met twice. */
  lemma {:induction false} SweepOnce(g: Grid, chains: seq<seq<nat>>, b: Blocks, col: int, t: nat)
    requires |chains| == g.width * g.height && Apart(chains)
    ensures multiset(Sweep(g, chains, b, col))[t] <= 1
    decreases b.xh - col
  {
    if col <= b.xh {
      ColumnOnce(g, chains, col, b.yl, b.yh, t);
      SweepOnce(g, chains, b, col + 1, t);
      ColumnSweepHas(g, chains, col, b.yl, b.yh, t);
      SweepHas(g, chains, b, col + 1, t);
      if t in ColumnSweep(g, chains, col, b.yl, b.yh) && t in Sweep(g, chains, b, col + 1) {
        var r :| b.yl <= r <= b.yh && t in InBlock(g, chains, col, r);
        var c', r' :| col + 1 <= c' <= b.xh && b.yl <= r' <= b.yh && t in InBlock(g, chains, c', r');
        BlocksApart(g, chains, col, r, c', r', t);
      }
    }
  }

  // ----- the loops

  /** What was offered to the callback, and how it answered: true up to the last, which decided. */
  predicate Answered(func: seq<nat> -> bool, offered: seq<nat>, ok: bool) {
    && (forall n :: 0 < n < |offered| ==> func(offered[..n]))
    && (if offered == [] then ok else ok == func(offered))
  }

  lemma AnsweredOn(func: seq<nat> -> bool, offered: seq<nat>, t: nat)
    requires Answered(func, offered, true)
    ensures Answered(func, offered + [t], func(offered + [t]))
  {
    var more := offered + [t];
    forall n | 0 < n < |more| ensures func(more[..n]) {
      assert more[..n] == offered[..n];
      assert n == |offered| ==> offered[..n] == offered;
    }
  }

  lemma Joined(sofar: seq<nat>, part: seq<nat>, rest: seq<nat>, now: seq<nat>)
    requires sofar <= now <= sofar + part
    ensures now <= sofar + (part + rest)
    ensures now == sofar + part ==> now + rest == sofar + (part + rest)
  {
  }

  /** What was offered grows from `before` and lacks `rest` of the whole. */
  ghost predicate Toward(before: seq<nat>, offered: seq<nat>, rest: seq<nat>, whole: seq<nat>) {
    before <= offered && offered + rest == whole
  }

  lemma TowardOn(before: seq<nat>, sofar: seq<nat>, part: seq<nat>, rest: seq<nat>, now: seq<nat>, whole: seq<nat>)
    requires Toward(before, sofar, part + rest, whole) && sofar <= now <= sofar + part
    ensures before <= now <= whole && (now == sofar + part ==> Toward(before, now, rest, whole))
  {
    Joined(sofar, part, rest, now);
  }

  lemma TowardEnd(before: seq<nat>, part: seq<nat>, offered: seq<nat>)
    requires Toward(before, offered, [], before + part)
    ensures offered == before + part && before <= offered
  {
  }

  /** The loop along one chain. */
  method OfferChain(next: Links, head: Option<nat>, func: seq<nat> -> bool, before: seq<nat>, ghost prev: Links, ghost chain: seq<nat>)
    returns (ok: bool, offered: seq<nat>)
    requires InChain(chain, next, prev, head) && Answered(func, before, true)
    ensures Answered(func, offered, ok)
    ensures ok ==> offered == before + chain
    ensures before <= offered <= before + chain
  {
    ok, offered := true, before;
    var mobj := head;
    ghost var i := 0;
    while mobj.Some?
      invariant 0 <= i <= |chain| && mobj == Succ(chain, i - 1)
      invariant ok && offered == before + chain[..i] && Answered(func, offered, true)
      decreases |chain| - i
    {
      assert Knit(chain, next, prev, i);
      AnsweredOn(func, offered, mobj.value);
      offered := offered + [mobj.value];
      i := i + 1;
      assert chain[..i] == chain[..i - 1] + [chain[i - 1]];
      if !func(offered) {
        ok := false;
        return;
      }
      mobj := next[mobj.value];
    }
  }

  /** P_BlockThingsIterator, after `before` has been offered. */
  method BlockThingsIterator(w: Things, col: int, row: int, func: seq<nat> -> bool, before: seq<nat>)
    returns (ok: bool, offered: seq<nat>)
    requires w.Valid() && Answered(func, before, true)
    ensures Answered(func, offered, ok)
    ensures ok ==> offered == before + InBlock(w.grid, w.blocks.chains, col, row)
    ensures before <= offered <= before + InBlock(w.grid, w.blocks.chains, col, row)
  {
    if !w.grid.OnMap(col, row) {
      return true, before;
    }
    var k := w.grid.Index(col, row);
    ok, offered := OfferChain(w.blocks.next, w.blocks.heads[k], func, before, w.blocks.prev, w.blocks.chains[k]);
  }

  /** One more block of a column. */
  method ScanBlock(w: Things, col: int, row: int, yh: int, func: seq<nat> -> bool, sofar: seq<nat>, ghost before: seq<nat>, ghost whole: seq<nat>)
    returns (ok: bool, offered: seq<nat>)
    requires w.Valid() && row <= yh && Answered(func, sofar, true)
    requires Toward(before, sofar, ColumnSweep(w.grid, w.blocks.chains, col, row, yh), whole)
    ensures Answered(func, offered, ok) && before <= offered <= whole
    ensures ok ==> Toward(before, offered, ColumnSweep(w.grid, w.blocks.chains, col, row + 1, yh), whole)
  {
    ok, offered := BlockThingsIterator(w, col, row, func, sofar);
    ghost var g, chains := w.grid, w.blocks.chains;
    TowardOn(before, sofar, InBlock(g, chains, col, row), ColumnSweep(g, chains, col, row + 1, yh), offered, whole);
  }

  /** The inner loop over one column. */
  method ScanColumn(w: Things, col: int, b: Blocks, func: seq<nat> -> bool, before: seq<nat>)
    returns (ok: bool, offered: seq<nat>)
    requires w.Valid() && Answered(func, before, true)
    ensures Answered(func, offered, ok)
    ensures ok ==> offered == before + ColumnSweep(w.grid, w.blocks.chains, col, b.yl, b.yh)
    ensures before <= offered <= before + ColumnSweep(w.grid, w.blocks.chains, col, b.yl, b.yh)
  {
    ok, offered := true, before;
    ghost var whole := before + ColumnSweep(w.grid, w.blocks.chains, col, b.yl, b.yh);
    var row := b.yl;
    while row <= b.yh
      invariant b.yl <= row && ok && Answered(func, offered, true)
      invariant Toward(before, offered, ColumnSweep(w.grid, w.blocks.chains, col, row, b.yh), whole)
      decreases b.yh - row
    {
      ok, offered := ScanBlock(w, col, row, b.yh, func, offered, before, whole);
      if !ok {
        return;
      }
      row := row + 1;
    }
  }

  /** The nested loops of P_CheckPosition and P_TeleportMove over the things of a block rectangle. */
  method ScanThings(w: Things, b: Blocks, func: seq<nat> -> bool) returns (ok: bool, offered: seq<nat>)
    requires w.Valid()
    ensures Answered(func, offered, ok)
    ensures offered <= Sweep(w.grid, w.blocks.chains, b, b.xl)
    ensures ok ==> offered == Sweep(w.grid, w.blocks.chains, b, b.xl)
  {
    ok, offered := true, [];
    ghost var whole := Sweep(w.grid, w.blocks.chains, b, b.xl);
    var col := b.xl;
    while col <= b.xh
      invariant b.xl <= col && ok && Answered(func, offered, true)
      invariant Toward([], offered, Sweep(w.grid, w.blocks.chains, b, col), whole)
      decreases b.xh - col
    {
      ghost var sofar := offered;
      ok, offered := ScanColumn(w, col, b, func, offered);
      ghost var g, chains := w.grid, w.blocks.chains;
      TowardOn([], sofar, ColumnSweep(g, chains, col, b.yl, b.yh), Sweep(g, chains, b, col + 1), offered, whole);
      if !ok {
        return;
      }
      col := col + 1;
    }
  }

  // ----- against brute force

  const MT_PLAYER := 0
  const MT_BRUISER := 15
  const MT_KNIGHT := 17
  const MT_SPIDER := 19

  /** The moving thing at its destination, as P_CheckPosition sets it up. */
  datatype Mover = Mover(
    id: nat, x: int, y: int, z: int, radius: nat, height: int,
    skullfly: bool, missile: bool, target: Option<nat>, targetKind: int)

  predicate Overlaps(tm: Mover, m: Mobj) {
    var blockdist := m.radius + tm.radius;
    Abs(m.x - tm.x) < blockdist && Abs(m.y - tm.y) < blockdist
  }

  predicate SameSpecies(tm: Mover, m: Mobj) {
    && tm.target.Some?
    && (|| tm.targetKind == m.kind
        || (tm.targetKind == MT_KNIGHT && m.kind == MT_BRUISER)
        || (tm.targetKind == MT_BRUISER && m.kind == MT_KNIGHT))
  }

  /** The answer of PIT_CheckThing; its effects on the things are not modelled. */
  predicate CheckThing(tm: Mover, t: nat, m: Mobj) {
    if !(m.solid || m.special || m.shootable) then true
    else if !Overlaps(tm, m) then true
    else if t == tm.id then true
    else if tm.skullfly then false
    else if tm.missile then
      if tm.z > m.z + m.height then true
      else if tm.z + tm.height < m.z then true
      else if SameSpecies(tm, m) && tm.target == Some(t) then true
      else if SameSpecies(tm, m) && m.kind != MT_PLAYER then false
      else if !m.shootable then !m.solid
      else false
    else !m.solid
  }

  // ----- what stands in the way

  /** The boxes of the two overlap; to touch is not enough. */
  predicate BoxesMeet(tm: Mover, m: Mobj) {
    && m.x - m.radius < tm.x + tm.radius && tm.x - tm.radius < m.x + m.radius
    && m.y - m.radius < tm.y + tm.radius && tm.y - tm.radius < m.y + m.radius
  }

  /** Neither flies over the other. */
  predicate SameHeight(tm: Mover, m: Mobj) { tm.z <= m.z + m.height && m.z <= tm.z + tm.height }

  /** Monsters of one kind, and the two kinds of hell nobles, do not hurt each other. */
  predicate Kin(a: int, b: int) { a == b || {a, b} == {MT_KNIGHT, MT_BRUISER} }

  /** The shooter of the missile is of the kin of this thing. */
  predicate OfKin(tm: Mover, m: Mobj) { tm.target.Some? && Kin(tm.targetKind, m.kind) }

  /** The thing stops the mover: never itself, and only when the boxes overlap. A walker is stopped by what is solid;
      a missile at its height by what is solid or shootable and by the monsters of its shooter's kin, but not by its
      shooter; a flying skull by anything. */
  predicate InTheWay(tm: Mover, t: nat, m: Mobj) {
    && t != tm.id && BoxesMeet(tm, m)
    && (if tm.skullfly then m.solid || m.special || m.shootable
        else if !tm.missile then m.solid
        else
          && SameHeight(tm, m) && (m.solid || m.special || m.shootable)
          && !(tm.target == Some(t) && OfKin(tm, m))
          && (m.solid || m.shootable || (OfKin(tm, m) && m.kind != MT_PLAYER)))
  }

  /** PIT_CheckThing objects exactly to what is in the way. */
  lemma CheckThingIs(tm: Mover, t: nat, m: Mobj)
    ensures CheckThing(tm, t, m) <==> !InTheWay(tm, t, m)
    ensures Overlaps(tm, m) <==> BoxesMeet(tm, m)
  {
  }

  // ----- the scan

  /** The blocks scanned for things: the destination box grown by MAXRADIUS. */
  function ThingBlocks(g: Grid, tm: Mover): Blocks {
    Blocks(g.Column(tm.x - tm.radius - MAXRADIUS), g.Column(tm.x + tm.radius + MAXRADIUS),
           g.Row(tm.y - tm.radius - MAXRADIUS), g.Row(tm.y + tm.radius + MAXRADIUS))
  }

  lemma DivMonotone(a: int, b: int)
    requires a <= b
    ensures a / MAPBLOCK <= b / MAPBLOCK
  {
  }

  /** The origin of the thing lies in a scanned block. */
  predicate InScan(g: Grid, tm: Mover, m: Mobj) {
    var b := ThingBlocks(g, tm);
    b.xl <= g.Column(m.x) <= b.xh && b.yl <= g.Row(m.y) <= b.yh
  }

  /** A thing that overlaps the destination box has its origin in a scanned block, if it is not too large. */
  lemma OverlapIsScanned(g: Grid, tm: Mover, m: Mobj)
    requires m.radius <= MAXRADIUS + 1 && BoxesMeet(tm, m)
    ensures InScan(g, tm, m)
  {
    DivMonotone(tm.x - tm.radius - MAXRADIUS - g.orgx, m.x - g.orgx);
    DivMonotone(m.x - g.orgx, tm.x + tm.radius + MAXRADIUS - g.orgx);
    DivMonotone(tm.y - tm.radius - MAXRADIUS - g.orgy, m.y - g.orgy);
    DivMonotone(m.y - g.orgy, tm.y + tm.radius + MAXRADIUS - g.orgy);
  }

  /** A player at the left edge of what is scanned reaches the second column of blocks, not the first. */
  function EdgeMover(): Mover {
    Mover(0, 176 * FRACUNIT, 64 * FRACUNIT, 0, 16 * FRACUNIT, 56 * FRACUNIT, false, false, None, 0)
  }

  /** A solid thing just inside the first column. */
  function EdgeThing(radius: int): Mobj {
    Mobj(MAPBLOCK - 1, 64 * FRACUNIT, 0, radius, 100 * FRACUNIT, 0, 128 * FRACUNIT, false, false, true, false, true, MT_SPIDER, 0)
  }

  /** Any larger thing can be overlooked: it overlaps the player and objects, and is in no scanned block. */
  lemma LargeIsMissed(radius: int)
    requires radius > MAXRADIUS + 1
    ensures var g, tm, m := Grid(0, 0, 8, 8), EdgeMover(), EdgeThing(radius);
            BoxesMeet(tm, m) && InTheWay(tm, 1, m) && BlockOf(g, m).Some? && !InScan(g, tm, m)
  {
  }

  /** Overlapping things of this radius are always scanned. */
  ghost predicate AlwaysScanned(radius: int) {
    forall g: Grid, tm: Mover, m: Mobj :: m.radius == radius && BoxesMeet(tm, m) ==> InScan(g, tm, m)
  }

  /** The scan can be relied on for things up to one unit above MAXRADIUS, and for no larger ones. */
  lemma ScanReaches(radius: int)
    ensures AlwaysScanned(radius) <==> radius <= MAXRADIUS + 1
  {
    if radius <= MAXRADIUS + 1 {
      forall g: Grid, tm: Mover, m: Mobj | m.radius == radius && BoxesMeet(tm, m) ensures InScan(g, tm, m) {
        OverlapIsScanned(g, tm, m);
      }
    } else {
      LargeIsMissed(radius);
      var g, tm, m := Grid(0, 0, 8, 8), EdgeMover(), EdgeThing(radius);
      assert m.radius == radius && BoxesMeet(tm, m) && !InScan(g, tm, m);
    }
  }

  /** A linked thing of the blockmap, on the map. */
  ghost predicate Present(w: Things, t: nat)
    reads w
  {
    t in w.linked && t in w.things && BlockOf(w.grid, w.things[t]).Some?
  }

  /** The sweep over the scanned blocks holds exactly the present things of these blocks. */
  lemma SweepIsPresent(w: Things, b: Blocks, t: nat)
    requires w.Valid()
    ensures t in Sweep(w.grid, w.blocks.chains, b, b.xl) <==>
            Present(w, t) && b.xl <= w.grid.Column(w.things[t].x) <= b.xh && b.yl <= w.grid.Row(w.things[t].y) <= b.yh
  {
    SweepHas(w.grid, w.blocks.chains, b, b.xl, t);
    if t in Sweep(w.grid, w.blocks.chains, b, b.xl) {
      var c, r :| b.xl <= c <= b.xh && b.yl <= r <= b.yh && t in InBlock(w.grid, w.blocks.chains, c, r);
      BlockIsHome(w, t, c, r);
    }
    if Present(w, t) {
      HomeIsBlock(w, t);
    }
  }

  lemma BlockIsHome(w: Things, t: nat, c: int, r: int)
    requires w.Valid() && t in InBlock(w.grid, w.blocks.chains, c, r)
    ensures Present(w, t) && w.grid.Column(w.things[t].x) == c && w.grid.Row(w.things[t].y) == r
  {
    var k := w.grid.Index(c, r);
    var home := BlockHomes(w.grid, w.things, w.linked);
    assert t in w.blocks.chains[k] && t in home && home[t] == Some(k);
    IndexInjective(w.grid, c, r, w.grid.Column(w.things[t].x), w.grid.Row(w.things[t].y));
  }

  lemma HomeIsBlock(w: Things, t: nat)
    requires w.Valid() && Present(w, t)
    ensures t in InBlock(w.grid, w.blocks.chains, w.grid.Column(w.things[t].x), w.grid.Row(w.things[t].y))
  {
    var home := BlockHomes(w.grid, w.things, w.linked);
    assert t in home && home[t] == BlockOf(w.grid, w.things[t]);
  }

  /** The things of the scanned blocks are offered, each once, unless an earlier answer stops the scan; those that
      overlap the destination are among them if they are not too large. Nothing else is offered. */
  method OfferThings(w: Things, tm: Mover, func: seq<nat> -> bool) returns (ok: bool, offered: seq<nat>)
    requires w.Valid()
    ensures Answered(func, offered, ok)
    ensures forall t :: multiset(offered)[t] <= 1
    ensures forall t :: t in offered ==> Present(w, t) && InScan(w.grid, tm, w.things[t])
    ensures ok ==> forall t :: Present(w, t) && InScan(w.grid, tm, w.things[t]) ==> t in offered
    ensures ok ==> forall t :: Present(w, t) && BoxesMeet(tm, w.things[t]) && w.things[t].radius <= MAXRADIUS + 1 ==> t in offered
  {
    ghost var b := ThingBlocks(w.grid, tm);
    ghost var whole := Sweep(w.grid, w.blocks.chains, b, b.xl);
    ok, offered := ScanThings(w, ThingBlocks(w.grid, tm), func);
    forall t: nat ensures multiset(offered)[t] <= 1 {
      SweepOnce(w.grid, w.blocks.chains, b, b.xl, t);
      assert whole == offered + whole[|offered|..];
    }
    forall t: nat ensures t in whole <==> Present(w, t) && InScan(w.grid, tm, w.things[t]) {
      SweepIsPresent(w, b, t);
    }
    forall t | Present(w, t) && BoxesMeet(tm, w.things[t]) && w.things[t].radius <= MAXRADIUS + 1
      ensures InScan(w.grid, tm, w.things[t])
    {
      OverlapIsScanned(w.grid, tm, w.things[t]);
    }
  }

  /** No thing of the scanned blocks is in the way. */
  ghost predicate ThingsPass(w: Things, tm: Mover)
    reads w
  {
    forall t :: Present(w, t) && InScan(w.grid, tm, w.things[t]) ==> !InTheWay(tm, t, w.things[t])
  }

  /** Then no thing anywhere is, unless it is too large. */
  lemma PassedThings(w: Things, tm: Mover, t: nat)
    requires ThingsPass(w, tm) && Present(w, t) && w.things[t].radius <= MAXRADIUS + 1
    ensures !InTheWay(tm, t, w.things[t])
  {
    if BoxesMeet(tm, w.things[t]) {
      OverlapIsScanned(w.grid, tm, w.things[t]);
    }
  }

  /** A mover that is alone on the map is never stopped by a thing, and nothing that is not solid stops a walker. */
  lemma AlonePasses(w: Things, tm: Mover)
    requires forall t :: Present(w, t) ==> t == tm.id || (!tm.skullfly && !tm.missile && !w.things[t].solid)
    ensures ThingsPass(w, tm)
  {
  }

  /** PIT_CheckThing as a callback: it answers for the thing offered last. */
  function Answers(things: map<nat, Mobj>, tm: Mover): seq<nat> -> bool {
    (offered: seq<nat>) =>
      offered == [] || (var t := offered[|offered| - 1]; t in things && CheckThing(tm, t, things[t]))
  }

  lemma PassedAll(things: map<nat, Mobj>, tm: Mover, offered: seq<nat>, t: nat)
    requires Answered(Answers(things, tm), offered, true) && t in offered
    ensures t in things && CheckThing(tm, t, things[t])
  {
    var n :| 0 <= n < |offered| && offered[n] == t;
    AllTrue(Answers(things, tm), offered, n);
  }

  lemma LastObjects(things: map<nat, Mobj>, tm: Mover, offered: seq<nat>) returns (t: nat)
    requires Answered(Answers(things, tm), offered, false)
    ensures t in offered && (t in things ==> !CheckThing(tm, t, things[t]))
  {
    t := offered[|offered| - 1];
  }

  /** The thing half of P_CheckPosition: true iff no thing of the scanned blocks objects. */
  method CheckThings(w: Things, tm: Mover) returns (ok: bool)
    requires w.Valid()
    ensures ok <==> ThingsPass(w, tm)
  {
    var offered;
    ok, offered := OfferThings(w, tm, Answers(w.things, tm));
    if ok {
      forall t | Present(w, t) && InScan(w.grid, tm, w.things[t]) ensures !InTheWay(tm, t, w.things[t]) {
        PassedAll(w.things, tm, offered, t);
        CheckThingIs(tm, t, w.things[t]);
      }
    } else {
      ghost var t := LastObjects(w.things, tm, offered);
      CheckThingIs(tm, t, w.things[t]);
    }
  }

  lemma AllTrue(func: seq<nat> -> bool, offered: seq<nat>, n: nat)
    requires Answered(func, offered, true) && n < |offered|
    ensures func(offered[..n + 1])
  {
    if n + 1 == |offered| {
      assert offered[..n + 1] == offered;
    }
  }
}
