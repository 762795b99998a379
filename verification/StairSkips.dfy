/** Which tagged sectors EV_BuildStairs (doom/p_floor.c) may leave behind: a flight carries the loop index with it,
    and the search for the next tagged sector goes on from where the flight has ended. */
module StairSkips {
  import opened Distinct
  import opened Options
  import opened Stairs

  // ----- flights that pass a sector by

  /** Some line of s leads to t. */
  ghost predicate LeadsTo(w: World, s: nat, t: nat, texture: int)
    requires w.Valid() && s < |w.sectors|
  {
    exists i :: 0 <= i < |w.sectors[s].lines| && Leads(w, s, i, texture) && w.LineOf(s, i).back == t
  }

  /** No line of s before number n leads to t. */
  ghost predicate NotBefore(w: World, s: nat, t: nat, texture: int, n: nat)
    requires w.Valid() && s < |w.sectors| && n <= |w.sectors[s].lines|
  {
    forall j :: 0 <= j < n && Leads(w, s, j, texture) ==> w.LineOf(s, j).back != t
  }

  /** A line of s leads to `next`, and none before it leads to t. */
  ghost predicate Prefers(w: World, s: nat, next: nat, t: nat, texture: int)
    requires w.Valid() && s < |w.sectors|
  {
    exists i :: 0 <= i < |w.sectors[s].lines| && Leads(w, s, i, texture) && w.LineOf(s, i).back == next &&
                NotBefore(w, s, t, texture, i)
  }

  /** A chain of sectors around t: each prefers the next one to t, and the last does not lead to t. */
  ghost predicate PassesBy(w: World, texture: int, t: nat, p: seq<nat>)
    requires w.Valid()
  {
    && |p| > 0 && NoRepeats(p) && (forall k :: 0 <= k < |p| ==> p[k] < |w.sectors| && p[k] != t)
    && (forall k, l :: 0 <= k && l == k + 1 < |p| ==> Prefers(w, p[k], p[l], t, texture))
    && !LeadsTo(w, p[|p| - 1], t, texture)
  }

  /** Such a chain from a tagged sector below t to a sector above it. */
  ghost predicate Bypass(w: World, tag: int, t: nat, p: seq<nat>)
    requires w.Valid()
  {
    && |p| > 0 && p[0] < |w.sectors| && w.sectors[p[0]].tag == tag && p[0] < t < p[|p| - 1]
    && PassesBy(w, w.sectors[p[0]].floorpic, t, p)
  }

  function Sectors(steps: seq<Step>): seq<nat> { seq(|steps|, i requires 0 <= i < |steps| => steps[i].sector) }

  lemma FlightKeeps(w: World, movers: Movers, s: nat, texture: int, height: int, size: nat, speed: int, t: nat)
    requires w.Valid() && |movers| == |w.sectors| && s < |w.sectors| && t < |w.sectors| && movers[t].Some?
    ensures Flight(w, movers, s, texture, height, size, speed).movers[t] == movers[t]
  {
    FlightIsStairway(w, movers, s, texture, height, size, speed);
    ClaimAt(movers, Flight(w, movers, s, texture, height, size, speed).steps, speed, t);
  }

  /** A flight that does not claim t passes it by. */
  lemma {:induction false} FlightPassesBy(w: World, movers: Movers, s: nat, texture: int, height: int, size: nat, speed: int, t: nat)
    requires w.Valid() && |movers| == |w.sectors| && s < |w.sectors| && t < |w.sectors| && movers[s].Some?
    requires Flight(w, movers, s, texture, height, size, speed).movers[t].None?
    ensures PassesBy(w, texture, t, [s] + Sectors(Flight(w, movers, s, texture, height, size, speed).steps))
    decreases |Free(movers)|
  {
    FreeBefore(w, movers, s, texture, height, size, speed, t);
    match Scan(w, movers, s, texture, height, size, 0)
    case Stop =>
      assert Sectors([]) == [] && [s] + [] == [s];
    case Go(i, h) =>
      var next := w.LineOf(s, i).back;
      var movers' := movers[next := Some(Mover(h, speed))];
      FreeShrinks(movers, next, Mover(h, speed));
      FlightPassesBy(w, movers', next, texture, h, size, speed, t);
      var steps := StepsAvoid(w, movers', next, texture, h, size, speed, s);
      GonePrefers(w, movers, s, texture, height, size, t);
      PassesOn(w, texture, t, s, [next] + Sectors(steps));
      SectorsCons(s, Step(next, h), steps);
  }

  lemma FreeBefore(w: World, movers: Movers, s: nat, texture: int, height: int, size: nat, speed: int, t: nat)
    requires w.Valid() && |movers| == |w.sectors| && s < |w.sectors| && t < |w.sectors|
    requires Flight(w, movers, s, texture, height, size, speed).movers[t].None?
    ensures movers[t].None?
  {
    if movers[t].Some? {
      FlightKeeps(w, movers, s, texture, height, size, speed, t);
    }
  }

  /** A flight does not come to a sector that already moves. */
  lemma StepsAvoid(w: World, movers: Movers, s: nat, texture: int, height: int, size: nat, speed: int, t: nat) returns (steps: seq<Step>)
    requires w.Valid() && |movers| == |w.sectors| && s < |w.sectors| && t < |w.sectors| && movers[t].Some?
    ensures steps == Flight(w, movers, s, texture, height, size, speed).steps && t !in Sectors(steps)
  {
    steps := Flight(w, movers, s, texture, height, size, speed).steps;
    FlightIsStairway(w, movers, s, texture, height, size, speed);
  }

  lemma SectorsCons(s: nat, step: Step, steps: seq<Step>)
    ensures [s] + Sectors([step] + steps) == [s] + ([step.sector] + Sectors(steps))
  {
  }

  /** The sector gone to is preferred to any other free one. */
  lemma GonePrefers(w: World, movers: Movers, s: nat, texture: int, height: int, size: nat, t: nat)
    requires w.Valid() && |movers| == |w.sectors| && s < |w.sectors| && t < |w.sectors| && movers[t].None?
    requires Scan(w, movers, s, texture, height, size, 0).Go?
    ensures Prefers(w, s, w.LineOf(s, Scan(w, movers, s, texture, height, size, 0).line).back, t, texture)
  {
    ScanFirst(w, movers, s, texture, height, size, 0);
    assert NotBefore(w, s, t, texture, Scan(w, movers, s, texture, height, size, 0).line);
  }

  lemma PassesOn(w: World, texture: int, t: nat, s: nat, p: seq<nat>)
    requires w.Valid() && s < |w.sectors| && s != t && s !in p && PassesBy(w, texture, t, p) && Prefers(w, s, p[0], t, texture)
    ensures PassesBy(w, texture, t, [s] + p)
  {
    var q := [s] + p;
    forall k, l | 0 <= k && l == k + 1 < |q|
      ensures Prefers(w, q[k], q[l], t, texture)
    {
      if k > 0 {
        assert Prefers(w, p[k - 1], p[l - 1], t, texture);
      }
    }
  }

  // ----- a sector left behind was passed by

  lemma AscentPassesBy(w: World, movers: Movers, s: nat, size: nat, speed: int, t: nat)
    requires w.Valid() && |movers| == |w.sectors| && s < |w.sectors| && t < |w.sectors|
    requires Ascent(w, movers, s, size, speed).movers[t].None?
    ensures var r := Ascent(w, movers, s, size, speed);
            r.steps != [] && r.steps[0].sector == s && PassesBy(w, w.sectors[s].floorpic, t, Sectors(r.steps))
  {
    var height := w.sectors[s].floorheight + size;
    var claimed := movers[s := Some(Mover(height, speed))];
    var texture := w.sectors[s].floorpic;
    FlightPassesBy(w, claimed, s, texture, height, size, speed, t);
    var walk := Flight(w, claimed, s, texture, height, size, speed);
    assert Sectors([Step(s, height)] + walk.steps) == [s] + Sectors(walk.steps);
  }

  /** From its first sector to its last, it goes around every sector between them that it leaves free. */
  lemma AscentBypasses(w: World, movers: Movers, s: nat, size: nat, speed: int, t: nat)
    requires w.Valid() && |movers| == |w.sectors| && s < |w.sectors| && s <= t < |w.sectors| && movers[s].None?
    requires var r := Ascent(w, movers, s, size, speed); r.movers[t].None? && t <= r.last
    ensures Bypass(w, w.sectors[s].tag, t, Sectors(Ascent(w, movers, s, size, speed).steps))
  {
    var r := Ascent(w, movers, s, size, speed);
    AscentPassesBy(w, movers, s, size, speed, t);
    var p := Sectors(r.steps);
    assert p[0] == s;
    assert p[|p| - 1] == r.last by { AscentIsGood(w, movers, s, size, speed); }
    assert p[0] != t && p[|p| - 1] != t;
  }

  /** A flight of the call around t. */
  ghost predicate JumpedBy(w: World, tag: int, flights: seq<seq<Step>>, t: nat, k: int)
    requires w.Valid()
  {
    0 <= k < |flights| && Bypass(w, tag, t, Sectors(flights[k]))
  }

  /** A tagged sector that ends up without a mover was passed by: a flight goes from below it to above it, from
      sector to sector that it prefers. */
  lemma {:induction false} BuildSkips(w: World, movers: Movers, tag: int, size: nat, speed: int, from: nat, t: nat)
    requires w.Valid() && |movers| == |w.sectors| && from <= t < |w.sectors| && w.sectors[t].tag == tag
    requires Build(w, movers, tag, size, speed, from).movers[t].None?
    ensures exists k :: JumpedBy(w, tag, Build(w, movers, tag, size, speed, from).flights, t, k)
    decreases |Free(movers)|, 1 + |w.sectors| - from
  {
    StillFree(w, movers, tag, size, speed, from, t);
    var s := FindTag(w, tag, from).value;
    if movers[s].Some? {
      BuildMoving(w, movers, tag, size, speed, from, s);
      BuildSkips(w, movers, tag, size, speed, s + 1, t);
    } else {
      SkipsAfterFlight(w, movers, tag, size, speed, from, s, t);
    }
  }

  lemma {:induction false} SkipsAfterFlight(w: World, movers: Movers, tag: int, size: nat, speed: int, from: nat, s: nat, t: nat)
    requires w.Valid() && |movers| == |w.sectors| && from <= s <= t < |w.sectors| && w.sectors[t].tag == tag
    requires FindTag(w, tag, from) == Some(s) && movers[s].None?
    requires Build(w, movers, tag, size, speed, from).movers[t].None?
    ensures exists k :: JumpedBy(w, tag, Build(w, movers, tag, size, speed, from).flights, t, k)
    decreases |Free(movers)|, 0
  {
    var r, walk, rest := BuildFlight(w, movers, tag, size, speed, from, s);
    StillFree(w, walk.movers, tag, size, speed, walk.last + 1, t);
    if t > walk.last {
      AscentFrees(w, movers, s, size, speed);
      BuildSkips(w, walk.movers, tag, size, speed, walk.last + 1, t);
    } else {
      AscentBypasses(w, movers, s, size, speed, t);
    }
    JumpedOn(w, tag, r, walk, rest, t);
  }

  /** What is free at the end was free before. */
  lemma StillFree(w: World, movers: Movers, tag: int, size: nat, speed: int, from: nat, t: nat)
    requires w.Valid() && |movers| == |w.sectors| && from <= |w.sectors| && t < |w.sectors|
    requires Build(w, movers, tag, size, speed, from).movers[t].None?
    ensures movers[t].None?
  {
    if movers[t].Some? {
      BuildKeeps(w, movers, tag, size, speed, from, t);
    }
  }

  lemma JumpedOn(w: World, tag: int, r: Built, walk: Walk, rest: Built, t: nat)
    requires w.Valid() && Continues(r, walk, rest)
    requires Bypass(w, tag, t, Sectors(walk.steps)) || exists k :: JumpedBy(w, tag, rest.flights, t, k)
    ensures exists k :: JumpedBy(w, tag, r.flights, t, k)
  {
    if k :| JumpedBy(w, tag, rest.flights, t, k) {
      assert JumpedBy(w, tag, r.flights, t, k + 1);
    } else {
      assert JumpedBy(w, tag, r.flights, t, 0);
    }
  }

  // ----- a chain around t leaves it behind, if nothing else is free

  /** No chain around t is shorter. */
  ghost predicate Shortest(w: World, tag: int, t: nat, p: seq<nat>)
    requires w.Valid()
  {
    Bypass(w, tag, t, p) && forall q :: Bypass(w, tag, t, q) ==> |p| <= |q|
  }

  /** Only t and the given sectors are free. */
  predicate OnlyFree(w: World, movers: Movers, t: nat, p: seq<nat>) {
    |movers| == |w.sectors| && forall x: nat :: x < |movers| ==> (movers[x].None? <==> x == t || x in p)
  }

  /** Every sector of a chain has the texture of the first. */
  lemma SameTexture(w: World, tag: int, t: nat, p: seq<nat>, k: nat)
    requires w.Valid() && Bypass(w, tag, t, p) && k < |p|
    ensures w.sectors[p[k]].floorpic == w.sectors[p[0]].floorpic
  {
    if k > 0 {
      assert Prefers(w, p[k - 1], p[k], t, w.sectors[p[0]].floorpic);
    }
  }

  /** What is left of a chain when sectors between k and l are left out. */
  lemma ShortCut(w: World, tag: int, t: nat, p: seq<nat>, k: nat, l: nat)
    requires w.Valid() && Bypass(w, tag, t, p) && k < l < |p| && Prefers(w, p[k], p[l], t, w.sectors[p[0]].floorpic)
    ensures Bypass(w, tag, t, p[..k + 1] + p[l..])
  {
    var q := p[..k + 1] + p[l..];
    var texture := w.sectors[p[0]].floorpic;
    forall i, j | 0 <= i < j < |q| ensures q[i] != q[j] {
      var i', j' := if i <= k then i else i - (k + 1) + l, if j <= k then j else j - (k + 1) + l;
      assert q[i] == p[i'] && q[j] == p[j'] && i' < j';
    }
    forall i, j | 0 <= i && j == i + 1 < |q| ensures Prefers(w, q[i], q[j], t, texture) {
      if i < k {
        assert Prefers(w, p[i], p[j], t, texture);
      } else if i > k {
        assert Prefers(w, p[i - (k + 1) + l], p[j - (k + 1) + l], t, texture);
      }
    }
  }

  /** A chain may start at any tagged sector below t that it has. */
  lemma TailBypasses(w: World, tag: int, t: nat, p: seq<nat>, k: nat)
    requires w.Valid() && Bypass(w, tag, t, p) && k < |p| && w.sectors[p[k]].tag == tag && p[k] < t
    ensures Bypass(w, tag, t, p[k..])
  {
    var q := p[k..];
    SameTexture(w, tag, t, p, k);
    forall i, j | 0 <= i && j == i + 1 < |q| ensures Prefers(w, q[i], q[j], t, w.sectors[p[0]].floorpic) {
      assert Prefers(w, p[k + i], p[k + j], t, w.sectors[p[0]].floorpic);
    }
  }

  /** From sector k of a shortest chain, with only the rest of it and t free, the flight goes to the next sector. */
  lemma NextOfChain(w: World, tag: int, t: nat, p: seq<nat>, movers: Movers, k: nat, height: int, size: nat)
    requires w.Valid() && t < |w.sectors| && Shortest(w, tag, t, p) && k < |p| && OnlyFree(w, movers, t, p[k + 1..])
    ensures var look := Scan(w, movers, p[k], w.sectors[p[0]].floorpic, height, size, 0);
            && (k + 1 < |p| <==> look.Go?)
            && (look.Go? ==> w.LineOf(p[k], look.line).back == p[k + 1])
  {
    var texture := w.sectors[p[0]].floorpic;
    var look := Scan(w, movers, p[k], texture, height, size, 0);
    if k + 1 < |p| {
      assert Prefers(w, p[k], p[k + 1], t, texture);
      assert movers[p[k + 1]].None? by { assert p[k + 1] == p[k + 1..][0]; }
    }
    if look.Go? {
      GonePrefers(w, movers, p[k], texture, height, size, t);
      var next := w.LineOf(p[k], look.line).back;
      NotTo(w, tag, t, p, movers, k, height, size);
      var l :| k < l < |p| && p[l] == next;
      if l > k + 1 {
        ShortCut(w, tag, t, p, k, l);
      }
    }
  }

  lemma NotTo(w: World, tag: int, t: nat, p: seq<nat>, movers: Movers, k: nat, height: int, size: nat)
    requires w.Valid() && t < |w.sectors| && Bypass(w, tag, t, p) && k < |p| && OnlyFree(w, movers, t, p[k + 1..])
    requires Scan(w, movers, p[k], w.sectors[p[0]].floorpic, height, size, 0).Go?
    ensures w.LineOf(p[k], Scan(w, movers, p[k], w.sectors[p[0]].floorpic, height, size, 0).line).back in p[k + 1..]
  {
    var texture := w.sectors[p[0]].floorpic;
    var look := Scan(w, movers, p[k], texture, height, size, 0);
    ScanFirst(w, movers, p[k], texture, height, size, 0);
    if k + 1 < |p| {
      assert p[k + 1] == p[k + 1..][0];
      assert Prefers(w, p[k], p[k + 1], t, texture);
      var i :| 0 <= i < |w.sectors[p[k]].lines| && Leads(w, p[k], i, texture) && w.LineOf(p[k], i).back == p[k + 1] &&
               NotBefore(w, p[k], t, texture, i);
      assert look.line <= i;
    }
  }

  /** The flight follows the chain to its end and claims all of it. */
  lemma {:induction false} FollowsChain(w: World, tag: int, t: nat, p: seq<nat>, movers: Movers, k: nat, height: int, size: nat, speed: int)
    returns (r: Walk)
    requires w.Valid() && t < |w.sectors| && Shortest(w, tag, t, p) && k < |p| && OnlyFree(w, movers, t, p[k + 1..])
    ensures r == Flight(w, movers, p[k], w.sectors[p[0]].floorpic, height, size, speed)
    ensures r.last == p[|p| - 1] && OnlyFree(w, r.movers, t, [])
    decreases |p| - k
  {
    var texture := w.sectors[p[0]].floorpic;
    NextOfChain(w, tag, t, p, movers, k, height, size);
    match Scan(w, movers, p[k], texture, height, size, 0)
    case Stop =>
      r := Walk(movers, [], p[k]);
    case Go(i, h) =>
      var movers' := movers[p[k + 1] := Some(Mover(h, speed))];
      ClaimedNext(w, tag, t, p, movers, k, Mover(h, speed));
      var rest := FollowsChain(w, tag, t, p, movers', k + 1, h, size, speed);
      r := Walk(rest.movers, [Step(p[k + 1], h)] + rest.steps, rest.last);
  }

  lemma ClaimedNext(w: World, tag: int, t: nat, p: seq<nat>, movers: Movers, k: nat, mover: Mover)
    requires w.Valid() && Bypass(w, tag, t, p) && k + 1 < |p| && OnlyFree(w, movers, t, p[k + 1..])
    ensures OnlyFree(w, movers[p[k + 1] := Some(mover)], t, p[k + 2..])
  {
    assert p[k + 1..] == [p[k + 1]] + p[k + 2..];
    assert forall j :: k + 2 <= j < |p| ==> p[k + 2..][j - (k + 2)] == p[j];
  }

  /** Moving sectors are passed over. */
  lemma {:induction false} BuildPasses(w: World, movers: Movers, tag: int, size: nat, speed: int, from: nat, s: nat)
    requires w.Valid() && |movers| == |w.sectors| && from <= s <= |w.sectors|
    requires forall x :: from <= x < s && w.sectors[x].tag == tag ==> movers[x].Some?
    ensures Build(w, movers, tag, size, speed, from) == Build(w, movers, tag, size, speed, s)
    decreases s - from
  {
    var f := FindTag(w, tag, from);
    if f.Some? && f.value < s {
      BuildMoving(w, movers, tag, size, speed, from, f.value);
      BuildPasses(w, movers, tag, size, speed, f.value + 1, s);
    } else {
      SameTag(w, tag, from, s);
      BuildFrom(w, movers, tag, size, speed, from);
      BuildFrom(w, movers, tag, size, speed, s);
    }
  }

  lemma {:induction false} SameTag(w: World, tag: int, from: nat, s: nat)
    requires from <= s <= |w.sectors| && forall x :: from <= x < s ==> w.sectors[x].tag != tag
    ensures FindTag(w, tag, from) == FindTag(w, tag, s)
    decreases s - from
  {
    if from < s {
      SameTag(w, tag, from + 1, s);
    }
  }

  /** All sectors move but t and those of the chain. */
  function Alone(w: World, t: nat, p: seq<nat>): (movers: Movers)
    ensures OnlyFree(w, movers, t, p)
  {
    seq(|w.sectors|, x requires 0 <= x => if x == t || x in p then None else Some(Mover(0, 0)))
  }

  lemma ChainSkips(w: World, movers: Movers, tag: int, size: nat, speed: int, t: nat, p: seq<nat>)
    requires w.Valid() && t < |w.sectors| && Shortest(w, tag, t, p) && OnlyFree(w, movers, t, p)
    ensures Build(w, movers, tag, size, speed, 0).movers[t].None?
  {
    FirstOfChain(w, movers, tag, t, p);
    var walk := ChainAscent(w, movers, tag, t, p, size, speed);
    OneFlight(w, movers, tag, size, speed, t, p[0], walk);
  }

  /** One flight, from the first free sector with the tag, claims all but t and ends above it. */
  lemma OneFlight(w: World, movers: Movers, tag: int, size: nat, speed: int, t: nat, s: nat, walk: Walk)
    requires w.Valid() && |movers| == |w.sectors| && s < t < |w.sectors| && w.sectors[s].tag == tag && movers[s].None?
    requires forall x :: 0 <= x < s && w.sectors[x].tag == tag ==> movers[x].Some?
    requires walk == Ascent(w, movers, s, size, speed) && t < walk.last < |w.sectors| && OnlyFree(w, walk.movers, t, [])
    ensures Build(w, movers, tag, size, speed, 0).movers[t].None?
  {
    BuildPasses(w, movers, tag, size, speed, 0, s);
    var r, _, rest := BuildFlight(w, movers, tag, size, speed, s, s);
    NothingLeft(w, walk.movers, tag, size, speed, walk.last + 1, t, rest);
  }

  /** When only t is free, the call from behind t does nothing. */
  lemma NothingLeft(w: World, movers: Movers, tag: int, size: nat, speed: int, from: nat, t: nat, rest: Built)
    requires w.Valid() && t < from <= |w.sectors| && OnlyFree(w, movers, t, [])
    requires rest == Build(w, movers, tag, size, speed, from)
    ensures rest.movers == movers
  {
    BuildPasses(w, movers, tag, size, speed, from, |w.sectors|);
  }

  /** The first sector of a shortest chain is the first free one with the tag. */
  lemma FirstOfChain(w: World, movers: Movers, tag: int, t: nat, p: seq<nat>)
    requires w.Valid() && t < |w.sectors| && Shortest(w, tag, t, p) && OnlyFree(w, movers, t, p)
    ensures movers[p[0]].None? && forall x :: 0 <= x < p[0] && w.sectors[x].tag == tag ==> movers[x].Some?
  {
    assert p[0] in p;
    forall x | 0 <= x < p[0] && w.sectors[x].tag == tag ensures x !in p {
      if x in p {
        var k :| 0 <= k < |p| && p[k] == x;
        TailBypasses(w, tag, t, p, k);
      }
    }
  }

  lemma ChainAscent(w: World, movers: Movers, tag: int, t: nat, p: seq<nat>, size: nat, speed: int) returns (walk: Walk)
    requires w.Valid() && t < |w.sectors| && Shortest(w, tag, t, p) && OnlyFree(w, movers, t, p)
    ensures walk == Ascent(w, movers, p[0], size, speed)
    ensures walk.last == p[|p| - 1] && OnlyFree(w, walk.movers, t, [])
  {
    var s := p[0];
    var height := w.sectors[s].floorheight + size;
    var start := movers[s := Some(Mover(height, speed))];
    StartOfChain(w, tag, t, p, movers, Mover(height, speed));
    var r := FollowsChain(w, tag, t, p, start, 0, height, size, speed);
    walk := AscentEnds(w, movers, s, size, speed, start, height, r);
  }

  lemma AscentEnds(w: World, movers: Movers, s: nat, size: nat, speed: int, start: Movers, height: int, r: Walk)
    returns (walk: Walk)
    requires w.Valid() && |movers| == |w.sectors| && s < |w.sectors|
    requires height == w.sectors[s].floorheight + size && start == movers[s := Some(Mover(height, speed))]
    requires r == Flight(w, start, s, w.sectors[s].floorpic, height, size, speed)
    ensures walk == Ascent(w, movers, s, size, speed) && walk.movers == r.movers && walk.last == r.last
  {
    walk := Ascent(w, movers, s, size, speed);
  }

  lemma StartOfChain(w: World, tag: int, t: nat, p: seq<nat>, movers: Movers, mover: Mover)
    requires w.Valid() && Bypass(w, tag, t, p) && OnlyFree(w, movers, t, p)
    ensures OnlyFree(w, movers[p[0] := Some(mover)], t, p[1..])
  {
    assert p == [p[0]] + p[1..];
    assert forall j :: 1 <= j < |p| ==> p[1..][j - 1] == p[j];
  }

  // ----- the verdict

  /** With some movers the call leaves t behind. */
  ghost predicate CanSkip(w: World, tag: int, size: nat, speed: int, t: nat)
    requires w.Valid() && t < |w.sectors|
  {
    exists movers: Movers :: |movers| == |w.sectors| && Build(w, movers, tag, size, speed, 0).movers[t].None?
  }

  lemma {:induction false} BypassCanSkip(w: World, tag: int, size: nat, speed: int, t: nat, p: seq<nat>)
    requires w.Valid() && t < |w.sectors| && Bypass(w, tag, t, p)
    ensures CanSkip(w, tag, size, speed, t)
    decreases |p|
  {
    if q :| Bypass(w, tag, t, q) && |q| < |p| {
      BypassCanSkip(w, tag, size, speed, t, q);
    } else {
      ChainSkips(w, Alone(w, t, p), tag, size, speed, t, p);
    }
  }

  /** Whether the call raises a tagged sector whatever already moves can be read off the level: it does if and only
      if no chain of sectors leads around it. */
  lemma SkipsExactly(w: World, tag: int, size: nat, speed: int, t: nat)
    requires w.Valid() && t < |w.sectors| && w.sectors[t].tag == tag
    ensures CanSkip(w, tag, size, speed, t) <==> exists p :: Bypass(w, tag, t, p)
  {
    if CanSkip(w, tag, size, speed, t) {
      var movers: Movers :| |movers| == |w.sectors| && Build(w, movers, tag, size, speed, 0).movers[t].None?;
      BuildSkips(w, movers, tag, size, speed, 0, t);
      var k :| JumpedBy(w, tag, Build(w, movers, tag, size, speed, 0).flights, t, k);
    }
    if p :| Bypass(w, tag, t, p) {
      BypassCanSkip(w, tag, size, speed, t, p);
    }
  }

  /** No line to a sector of the same texture has a sector of that tag between its two. */
  ghost predicate NoneJumped(w: World, tag: int)
    requires w.Valid()
  {
    forall s: nat, i: nat, t: nat :: s < |w.sectors| && i < |w.sectors[s].lines| && Jumps(w, s, i, t) ==> w.sectors[t].tag != tag
  }

  /** Line i of s leads over t to a sector of the same texture. */
  predicate Jumps(w: World, s: nat, i: nat, t: nat)
    requires w.Valid() && s < |w.sectors| && i < |w.sectors[s].lines|
  {
    Leads(w, s, i, w.sectors[s].floorpic) && s < t < w.LineOf(s, i).back
  }

  lemma {:induction false} StepOver(p: seq<nat>, t: nat) returns (k: nat)
    requires |p| > 0 && p[0] < t < p[|p| - 1] && t !in p
    ensures k + 1 < |p| && p[k] < t < p[k + 1]
    decreases |p|
  {
    if p[1] > t {
      k := 0;
    } else {
      var l := StepOver(p[1..], t);
      k := l + 1;
    }
  }

  lemma BypassJumps(w: World, tag: int, t: nat, p: seq<nat>)
    requires w.Valid() && Bypass(w, tag, t, p) && t < |w.sectors| && w.sectors[t].tag == tag
    ensures !NoneJumped(w, tag)
  {
    var k := StepOver(p, t);
    SameTexture(w, tag, t, p, k);
    var texture := w.sectors[p[0]].floorpic;
    assert Prefers(w, p[k], p[k + 1], t, texture);
    var i :| 0 <= i < |w.sectors[p[k]].lines| && Leads(w, p[k], i, texture) && w.LineOf(p[k], i).back == p[k + 1] &&
             NotBefore(w, p[k], t, texture, i);
    assert Jumps(w, p[k], i, t);
  }

  /** On such a level every tagged sector is raised, whatever already moves. */
  lemma AllRaised(w: World, movers: Movers, tag: int, size: nat, speed: int, t: nat)
    requires w.Valid() && |movers| == |w.sectors| && NoneJumped(w, tag) && t < |w.sectors| && w.sectors[t].tag == tag
    ensures Build(w, movers, tag, size, speed, 0).movers[t].Some?
  {
    if Build(w, movers, tag, size, speed, 0).movers[t].None? {
      SkipsExactly(w, tag, size, speed, t);
      var p :| Bypass(w, tag, t, p);
      BypassJumps(w, tag, t, p);
    }
  }

  /** A single line that jumps over a tagged sector to one that does not lead to it, and comes before any line to
      it, is enough to leave it behind. */
  lemma JumpSkips(w: World, tag: int, size: nat, speed: int, s: nat, next: nat, t: nat)
    requires w.Valid() && s < t < next < |w.sectors| && w.sectors[s].tag == tag
    requires Prefers(w, s, next, t, w.sectors[s].floorpic) && !LeadsTo(w, next, t, w.sectors[s].floorpic)
    ensures CanSkip(w, tag, size, speed, t)
  {
    BypassCanSkip(w, tag, size, speed, t, [s, next]);
  }

  /** It does happen: a flight from sector 0 to sector 2 leaves the tagged sector 1 behind. */
  lemma SkipHappens()
    ensures var w := World([StairSector(0, 5, 7, [0]), StairSector(0, 5, 7, []), StairSector(0, 5, 0, [])], [StairLine(true, 0, 2)]);
            && w.Valid() && w.sectors[1].tag == 7
            && Build(w, [None, None, None], 7, 8, 1, 0).movers[1].None?
  {
    var w := World([StairSector(0, 5, 7, [0]), StairSector(0, 5, 7, []), StairSector(0, 5, 0, [])], [StairLine(true, 0, 2)]);
    var claimed: Movers := [Some(Mover(8, 1)), None, None];
    var both: Movers := [Some(Mover(8, 1)), None, Some(Mover(16, 1))];
    assert FindTag(w, 7, 0) == Some(0);
    assert Scan(w, claimed, 0, 5, 8, 8, 0) == Go(0, 16);
    assert claimed[2 := Some(Mover(16, 1))] == both;
    assert Flight(w, both, 2, 5, 16, 8, 1) == Walk(both, [], 2);
    assert Flight(w, claimed, 0, 5, 8, 8, 1).movers == both && Flight(w, claimed, 0, 5, 8, 8, 1).last == 2;
    var none: Movers := [None, None, None];
    assert none[0 := Some(Mover(8, 1))] == claimed;
    assert Ascent(w, none, 0, 8, 1).movers == both;
    assert Build(w, both, 7, 8, 1, 3) == Built(both, []);
    var _, _, _ := BuildFlight(w, none, 7, 8, 1, 0, 0);
  }
}
