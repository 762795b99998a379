/** Where things are: P_SetThingPosition and P_UnsetThingPosition of doom/p_maputl.c keep
    every thing on the list of its blockmap cell and on the list of its sector. */
module BlockMap {
  import opened Arith
  import opened Fixed
  import opened Options
  import opened Chains

  const MAPBLOCK := 128 * FRACUNIT         // 1 << MAPBLOCKSHIFT
  const MAXRADIUS := 32 * FRACUNIT

  datatype Grid = Grid(orgx: int, orgy: int, width: nat, height: nat) {
    /** The column of blocks that x lies in; may be off the map. */
    function Column(x: int): int { (x - orgx) / MAPBLOCK }

    function Row(y: int): int { (y - orgy) / MAPBLOCK }

    predicate OnMap(col: int, row: int) { 0 <= col < width && 0 <= row < height }

    function Index(col: nat, row: nat): (k: nat)
      requires OnMap(col, row)
      ensures k < width * height
    {
      IndexBound(col, row);
      row * width + col
    }

    lemma IndexBound(col: nat, row: nat)
      requires OnMap(col, row)
      ensures row * width + col < width * height
    {
      assert (row + 1) * width <= height * width;
    }
  }

  /** A thing: position, size, the floor and ceiling around it, flags, kind, and the sector of its subsector. */
  datatype Mobj = Mobj(
    x: int, y: int, z: int, radius: int, height: int, floorz: int, ceilingz: int,
    nosector: bool, noblockmap: bool, solid: bool, special: bool, shootable: bool,
    kind: int, sector: nat)

  /** The block list a thing belongs on: none when off the map or not for the blockmap. */
  function BlockOf(g: Grid, m: Mobj): (k: Option<nat>)
    ensures k.Some? ==> k.value < g.width * g.height
  {
    if m.noblockmap || !g.OnMap(g.Column(m.x), g.Row(m.y)) then None
    else Some(g.Index(g.Column(m.x), g.Row(m.y)))
  }

  /** A thing of the blockmap is on the list of the block of 128 units square that its origin lies in. */
  lemma BlockOfIs(g: Grid, m: Mobj, col: nat, row: nat)
    requires col < g.width && row < g.height
    ensures g.OnMap(col, row)
    ensures BlockOf(g, m) == Some(row * g.width + col) <==>
            && !m.noblockmap
            && g.orgx + col * 8388608 <= m.x < g.orgx + (col + 1) * 8388608
            && g.orgy + row * 8388608 <= m.y < g.orgy + (row + 1) * 8388608
  {
    if BlockOf(g, m) == Some(row * g.width + col) {
      DivUnique(row * g.width + col, g.width, row, col, g.Row(m.y), g.Column(m.x));
    }
  }

  function SectorOf(m: Mobj): Option<nat> {
    if m.nosector then None else Some(m.sector)
  }

  /** A thing is on the list of its sector unless it is one that no sector lists. */
  lemma SectorOfIs(m: Mobj, s: nat)
    ensures SectorOf(m) == Some(s) <==> m.sector == s && !m.nosector
  {
  }

  /** `home` gives the list of every linked thing, and every list holds exactly its things. */
  ghost predicate Holds(chains: seq<seq<nat>>, home: map<nat, Option<nat>>) {
    && (forall k, t :: 0 <= k < |chains| ==> (t in chains[k] <==> t in home && home[t] == Some(k)))
    && (forall t :: t in home && home[t].Some? ==> home[t].value < |chains|)
  }

  lemma HoldsPushed(chains: seq<seq<nat>>, home: map<nat, Option<nat>>, t: nat, k: nat)
    requires Holds(chains, home) && t !in home && k < |chains|
    ensures !OnSome(chains, t) && Holds(chains[k := [t] + chains[k]], home[t := Some(k)])
  {
    var after := chains[k := [t] + chains[k]];
    forall l, u | 0 <= l < |after| ensures u in after[l] <==> u in home[t := Some(k)] && home[t := Some(k)][u] == Some(l) {
      assert u in after[l] <==> (u == t && l == k) || u in chains[l];
    }
  }

  lemma HoldsUnlinked(chains: seq<seq<nat>>, home: map<nat, Option<nat>>, t: nat, k: nat, i: nat)
    requires Apart(chains) && Holds(chains, home) && t in home && home[t] == Some(k)
    requires k < |chains| && i < |chains[k]| && chains[k][i] == t
    ensures Holds(chains[k := Without(chains[k], i)], home - {t})
  {
    var after := chains[k := Without(chains[k], i)];
    UnlinkedApart(chains, k, i);
    forall l, u | 0 <= l < |after| ensures u in after[l] <==> u in home - {t} && (home - {t})[u] == Some(l) {
      assert u == t ==> u !in after[l];
      assert u != t ==> (u in after[l] <==> u in chains[l]);
    }
  }

  /** One of the two sets of lists, with the things on it and on none. */
  ghost predicate Kept(lists: Lists, home: map<nat, Option<nat>>)
    reads lists
  {
    && lists.Valid() && Holds(lists.chains, home)
    && (forall t :: t in home ==> t in lists.next && t in lists.prev)
    && (forall t :: t in home && home[t].None? ==> lists.next[t].None? && lists.prev[t].None?)
  }

  lemma NotListed(lists: Lists, home: map<nat, Option<nat>>, t: nat)
    requires Kept(lists, home) && (t in home ==> home[t].None?)
    ensures !OnSome(lists.chains, t)
  {
  }

  /** Linking a thing into list k of a set, or into none. */
  method LinkInto(lists: Lists, t: nat, k: Option<nat>, ghost home: map<nat, Option<nat>>)
    requires Kept(lists, home) && t !in home && (k.Some? ==> k.value < |lists.heads|)
    modifies lists
    ensures Kept(lists, home[t := k]) && |lists.heads| == |old(lists.heads)|
    ensures lists.chains == if k.Some? then old(lists.chains)[k.value := [t] + old(lists.chains)[k.value]] else old(lists.chains)
  {
    ghost var next, prev := lists.next, lists.prev;
    NotListed(lists, home, t);
    forall u | u in home && home[u].None? ensures !OnSome(lists.chains, u) {
      NotListed(lists, home, u);
    }
    if k.Some? {
      HoldsPushed(lists.chains, home, t, k.value);
      lists.Push(t, k.value);
    } else {
      lists.Blank(t);
      assert Holds(lists.chains, home[t := k]);
    }
    forall u | u in home && home[u].None? ensures Same(next, lists.next, u) && Same(prev, lists.prev, u) {
    }
    forall u | u in home && home[u].Some? ensures u in lists.next && u in lists.prev {
      ListedLinked(lists, u, home[u].value);
    }
  }

  lemma ListedLinked(lists: Lists, t: nat, k: nat)
    requires lists.Valid() && k < |lists.chains| && t in lists.chains[k]
    ensures t in lists.next && t in lists.prev
  {
    var i :| 0 <= i < |lists.chains[k]| && lists.chains[k][i] == t;
    assert Knit(lists.chains[k], lists.next, lists.prev, i);
  }

  /** Taking a thing out of its list, if it is on one. */
  method TakeOut(lists: Lists, t: nat, k: Option<nat>, ghost home: map<nat, Option<nat>>)
    requires Kept(lists, home) && t in home && home[t] == k
    modifies lists
    ensures Kept(lists, home - {t}) && |lists.heads| == |old(lists.heads)|
    ensures k.None? ==> lists.chains == old(lists.chains)
    ensures k.Some? ==> Removed(old(lists.chains), lists.chains, k.value, t)
  {
    ghost var next, prev, chains := lists.next, lists.prev, lists.chains;
    forall u | u in home && home[u].None? ensures !OnSome(lists.chains, u) {
      NotListed(lists, home, u);
    }
    lists.Unlink(t, k);
    if k.Some? {
      ghost var i :| 0 <= i < |chains[k.value]| && chains[k.value][i] == t && lists.chains == chains[k.value := Without(chains[k.value], i)];
      HoldsUnlinked(chains, home, t, k.value, i);
    }
    assert Holds(lists.chains, home - {t});
    forall u | u in home && home[u].None? ensures Same(next, lists.next, u) && Same(prev, lists.prev, u) {
    }
    forall u | u in home - {t} && home[u].Some? ensures u in lists.next && u in lists.prev {
      ListedLinked(lists, u, home[u].value);
    }
  }

  /** The block list of each linked thing. */
  ghost function BlockHomes(g: Grid, things: map<nat, Mobj>, linked: set<nat>): map<nat, Option<nat>>
    requires linked <= things.Keys
  {
    map t | t in linked :: BlockOf(g, things[t])
  }

  /** The sector list of each linked thing. */
  ghost function SectorHomes(things: map<nat, Mobj>, linked: set<nat>): map<nat, Option<nat>>
    requires linked <= things.Keys
  {
    map t | t in linked :: SectorOf(things[t])
  }

  lemma HomesPut(g: Grid, things: map<nat, Mobj>, linked: set<nat>, t: nat, m: Mobj)
    requires linked <= things.Keys && t !in linked
    ensures BlockHomes(g, things[t := m], linked) == BlockHomes(g, things, linked)
    ensures SectorHomes(things[t := m], linked) == SectorHomes(things, linked)
    ensures BlockHomes(g, things[t := m], linked + {t}) == BlockHomes(g, things, linked)[t := BlockOf(g, m)]
    ensures SectorHomes(things[t := m], linked + {t}) == SectorHomes(things, linked)[t := SectorOf(m)]
  {
  }

  lemma HomesDrop(g: Grid, things: map<nat, Mobj>, linked: set<nat>, t: nat)
    requires linked <= things.Keys && t in linked
    ensures BlockHomes(g, things, linked - {t}) == BlockHomes(g, things, linked) - {t}
    ensures SectorHomes(things, linked - {t}) == SectorHomes(things, linked) - {t}
  {
  }

  datatype Call = Spawn(t: nat, m: Mobj) | Link(t: nat) | Unlink(t: nat) | Move(t: nat, x: int, y: int, floorz: int, ceilingz: int)

  /** The rules: only the position functions touch the links, a thing is linked once, and flags and
      position of a linked thing do not change behind their back. */
  predicate Allowed(call: Call, known: set<nat>, linked: set<nat>) {
    match call
    case Spawn(t, m) => t !in linked
    case Link(t) => t in known && t !in linked
    case Unlink(t) => t in linked
    case Move(t, _, _, _, _) => t in linked
  }

  function KnownBy(call: Call, known: set<nat>): set<nat> {
    if call.Spawn? then known + {call.t} else known
  }

  function LinkedBy(call: Call, linked: set<nat>): set<nat> {
    match call
    case Link(t) => linked + {t}
    case Unlink(t) => linked - {t}
    case _ => linked
  }

  predicate Honoured(calls: seq<Call>, known: set<nat>, linked: set<nat>)
    decreases |calls|
  {
    calls == [] ||
    (Allowed(calls[0], known, linked) && Honoured(calls[1..], KnownBy(calls[0], known), LinkedBy(calls[0], linked)))
  }

  function LinkedAfter(calls: seq<Call>, linked: set<nat>): set<nat>
    decreases |calls|
  {
    if calls == [] then linked else LinkedAfter(calls[1..], LinkedBy(calls[0], linked))
  }

  class Things {
    const grid: Grid
    const sectorAt: (int, int) -> nat      // R_PointInSubsector, then its sector
    const blocks: Lists                    // blocklinks, bnext, bprev
    const sectors: Lists                   // thinglist, snext, sprev
    var things: map<nat, Mobj>
    ghost var linked: set<nat>

    /** Every linked thing is on exactly the list of its own cell (none if off the map or not for the
        blockmap) and exactly the list of its sector (unless it has none), all lists well formed. */
    ghost predicate Valid()
      reads this, blocks, sectors
    {
      && blocks != sectors && linked <= things.Keys
      && |blocks.heads| == grid.width * grid.height && Kept(blocks, BlockHomes(grid, things, linked))
      && Kept(sectors, SectorHomes(things, linked)) && (forall x, y :: sectorAt(x, y) < |sectors.heads|)
      && forall t :: t in linked ==> things[t].sector == sectorAt(things[t].x, things[t].y)
    }

    constructor (grid: Grid, nsectors: nat, sectorAt: (int, int) -> nat)
      requires forall x, y :: sectorAt(x, y) < nsectors
      ensures Valid() && this.grid == grid && this.sectorAt == sectorAt && things == map[] && linked == {}
      ensures fresh(blocks) && fresh(sectors)
    {
      this.grid, this.sectorAt := grid, sectorAt;
      blocks := new Lists(grid.width * grid.height);
      sectors := new Lists(nsectors);
      things, linked := map[], {};
    }

    /** A thing that is not linked may be created or changed at will. */
    method Put(t: nat, m: Mobj)
      requires Valid() && t !in linked
      modifies this`things
      ensures Valid() && things == old(things)[t := m]
    {
      HomesPut(grid, things, linked, t, m);
      things := things[t := m];
    }

    /** P_SetThingPosition. */
    method SetThingPosition(t: nat)
      requires Valid() && t in things && t !in linked
      modifies this, blocks, sectors
      ensures Valid() && linked == old(linked) + {t}
      ensures things == old(things)[t := old(things)[t].(sector := sectorAt(old(things)[t].x, old(things)[t].y))]
      ensures var k := BlockOf(grid, things[t]);
              blocks.chains == if k.Some? then old(blocks.chains)[k.value := [t] + old(blocks.chains)[k.value]] else old(blocks.chains)
    {
      ghost var blockHome, sectorHome := BlockHomes(grid, things, linked), SectorHomes(things, linked);
      var m := things[t].(sector := sectorAt(things[t].x, things[t].y));
      HomesPut(grid, things, linked, t, m);
      things := things[t := m];
      LinkInto(sectors, t, SectorOf(m), sectorHome);
      LinkInto(blocks, t, BlockOf(grid, m), blockHome);
      linked := linked + {t};
    }

    /** P_UnsetThingPosition. */
    method UnsetThingPosition(t: nat)
      requires Valid() && t in linked
      modifies this`linked, blocks, sectors
      ensures Valid() && linked == old(linked) - {t}
      ensures var k := BlockOf(grid, things[t]);
              if k.Some? then Removed(old(blocks.chains), blocks.chains, k.value, t) else blocks.chains == old(blocks.chains)
    {
      ghost var blockHome, sectorHome := BlockHomes(grid, things, linked), SectorHomes(things, linked);
      HomesDrop(grid, things, linked, t);
      TakeOut(sectors, t, SectorOf(things[t]), sectorHome);
      TakeOut(blocks, t, BlockOf(grid, things[t]), blockHome);
      linked := linked - {t};
    }

    /** The relinking of P_TryMove and P_TeleportMove. */
    method MoveTo(t: nat, x: int, y: int, floorz: int, ceilingz: int)
      requires Valid() && t in linked
      modifies this, blocks, sectors
      ensures Valid() && linked == old(linked) && things.Keys == old(things).Keys
      ensures things[t] == old(things)[t].(x := x, y := y, floorz := floorz, ceilingz := ceilingz, sector := sectorAt(x, y))
      ensures forall u :: u in things && u != t ==> things[u] == old(things)[u]
    {
      UnsetThingPosition(t);
      Put(t, things[t].(x := x, y := y, floorz := floorz, ceilingz := ceilingz));
      SetThingPosition(t);
    }

    method PerformOne(call: Call)
      requires Valid() && Allowed(call, things.Keys, linked)
      modifies this, blocks, sectors
      ensures Valid() && linked == LinkedBy(call, old(linked)) && things.Keys == KnownBy(call, old(things).Keys)
    {
      match call
      case Spawn(t, m) => Put(t, m);
      case Link(t) => SetThingPosition(t);
      case Unlink(t) => UnsetThingPosition(t);
      case Move(t, x, y, floorz, ceilingz) => MoveTo(t, x, y, floorz, ceilingz);
    }

    /** Every sequence of calls that honours the rules of doom/p_mobj.h keeps all lists in order. */
    method Perform(calls: seq<Call>)
      requires Valid() && Honoured(calls, things.Keys, linked)
      modifies this, blocks, sectors
      ensures Valid() && linked == LinkedAfter(calls, old(linked))
    {
      var i := 0;
      while i < |calls|
        invariant 0 <= i <= |calls| && Valid() && Honoured(calls[i..], things.Keys, linked)
        invariant LinkedAfter(calls[i..], linked) == LinkedAfter(calls, old(linked))
      {
        assert calls[i..][1..] == calls[i + 1..];
        PerformOne(calls[i]);
        i := i + 1;
      }
    }
  }
}
