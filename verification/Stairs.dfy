/** Building staircases (EV_BuildStairs of doom/p_floor.c): a walk from sector to
    sector that overwrites the index of the loop it runs in. */
module Stairs {
  import opened Fixed
  import opened Options

  datatype StairLine = StairLine(twosided: bool, front: nat, back: nat)

  datatype StairSector = StairSector(floorheight: int, floorpic: int, tag: int, lines: seq<nat>)

  /** A level; every two-sided line has a back sector. */
  datatype World = World(sectors: seq<StairSector>, lines: seq<StairLine>) {
    predicate Valid() {
      && (forall s :: 0 <= s < |sectors| ==> forall i :: 0 <= i < |sectors[s].lines| ==> sectors[s].lines[i] < |lines|)
      && (forall l :: 0 <= l < |lines| && lines[l].twosided ==> lines[l].back < |sectors|)
    }

    /** The i-th line of a sector. */
    function LineOf(s: nat, i: nat): StairLine
      requires Valid() && s < |sectors| && i < |sectors[s].lines|
    {
      lines[sectors[s].lines[i]]
    }
  }

  /** A floor on its way to a height. */
  datatype Mover = Mover(dest: int, speed: int)

  /** specialdata of every sector. */
  type Movers = seq<Option<Mover>>

  datatype Step = Step(sector: nat, dest: int)

  /** The sectors free to be claimed: the measure that ends both loops. */
  function Free(movers: Movers): set<nat> {
    set s: nat | s < |movers| && movers[s].None?
  }

  lemma FreeShrinks(movers: Movers, s: nat, mover: Mover)
    requires s < |movers| && movers[s].None?
    ensures Free(movers[s := Some(mover)]) < Free(movers)
    ensures |Free(movers[s := Some(mover)])| < |Free(movers)|
  {
    var after := movers[s := Some(mover)];
    assert s in Free(movers) && s !in Free(after);
    assert Free(after) == Free(movers) - {s};
  }

  // ----- one flight

  /** Line i of sector s leads from it to a sector with the floor texture of the flight. */
  predicate Leads(w: World, s: nat, i: nat, texture: int)
    requires w.Valid() && s < |w.sectors| && i < |w.sectors[s].lines|
  {
    var line := w.LineOf(s, i);
    line.twosided && line.front == s && w.sectors[line.back].floorpic == texture
  }

  datatype Look = Stop | Go(line: nat, height: int)

  /** The search for the next sector: every line that leads on raises the height, even to a
      sector that already moves, but only a free one is gone to. */
  function Scan(w: World, movers: Movers, s: nat, texture: int, height: int, size: nat, i: nat): (k: Look)
    requires w.Valid() && |movers| == |w.sectors| && s < |w.sectors| && i <= |w.sectors[s].lines|
    ensures k.Stop? ==> forall j :: i <= j < |w.sectors[s].lines| && Leads(w, s, j, texture) ==> movers[w.LineOf(s, j).back].Some?
    ensures k.Go? ==> i <= k.line < |w.sectors[s].lines| && Leads(w, s, k.line, texture) && movers[w.LineOf(s, k.line).back].None?
    decreases |w.sectors[s].lines| - i
  {
    if i == |w.sectors[s].lines| then Stop
    else if !Leads(w, s, i, texture) then Scan(w, movers, s, texture, height, size, i + 1)
    else if movers[w.LineOf(s, i).back].Some? then Scan(w, movers, s, texture, height + size, size, i + 1)
    else Go(i, height + size)
  }

  datatype Walk = Walk(movers: Movers, steps: seq<Step>, last: nat)

  /** The flight that goes on from sector s, whose floor goes to `height`. */
  function Flight(w: World, movers: Movers, s: nat, texture: int, height: int, size: nat, speed: int): (r: Walk)
    requires w.Valid() && |movers| == |w.sectors| && s < |w.sectors|
    ensures |r.movers| == |movers| && r.last < |movers|
    decreases |Free(movers)|
  {
    match Scan(w, movers, s, texture, height, size, 0)
    case Stop => Walk(movers, [], s)
    case Go(i, h) =>
      var next := w.LineOf(s, i).back;
      FreeShrinks(movers, next, Mover(h, speed));
      var rest := Flight(w, movers[next := Some(Mover(h, speed))], next, texture, h, size, speed);
      Walk(rest.movers, [Step(next, h)] + rest.steps, rest.last)
  }

  /** The whole flight that starts at the free sector s. */
  function Ascent(w: World, movers: Movers, s: nat, size: nat, speed: int): (r: Walk)
    requires w.Valid() && |movers| == |w.sectors| && s < |w.sectors|
    ensures |r.movers| == |movers| && r.last < |movers|
  {
    var height := w.sectors[s].floorheight + size;
    var walk := Flight(w, movers[s := Some(Mover(height, speed))], s, w.sectors[s].floorpic, height, size, speed);
    walk.(steps := [Step(s, height)] + walk.steps)
  }

  // ----- the whole call

  /** P_FindSectorFromLineTag. */
  function FindTag(w: World, tag: int, i: nat): (r: Option<nat>)
    requires i <= |w.sectors|
    ensures r.None? ==> forall s :: i <= s < |w.sectors| ==> w.sectors[s].tag != tag
    ensures r.Some? ==> i <= r.value < |w.sectors| && w.sectors[r.value].tag == tag
    ensures r.Some? ==> forall s :: i <= s < r.value ==> w.sectors[s].tag != tag
    decreases |w.sectors| - i
  {
    if i == |w.sectors| then None
    else if w.sectors[i].tag == tag then Some(i)
    else FindTag(w, tag, i + 1)
  }

  /** The movers at the end, and the flights built, each from its tagged sector on. */
  datatype Built = Built(movers: Movers, flights: seq<seq<Step>>)

  /** EV_BuildStairs from index `from` on; after a flight the search resumes behind its LAST sector. */
  function Build(w: World, movers: Movers, tag: int, size: nat, speed: int, from: nat): (r: Built)
    requires w.Valid() && |movers| == |w.sectors| && from <= |w.sectors|
    ensures |r.movers| == |movers|
    decreases |Free(movers)|, |w.sectors| - from
  {
    match FindTag(w, tag, from)
    case None => Built(movers, [])
    case Some(s) =>
      if movers[s].Some? then Build(w, movers, tag, size, speed, s + 1)
      else
        AscentFrees(w, movers, s, size, speed);
        var walk := Ascent(w, movers, s, size, speed);
        var rest := Build(w, walk.movers, tag, size, speed, walk.last + 1);
        Built(rest.movers, [walk.steps] + rest.flights)
  }

  lemma {:induction false} FlightFrees(w: World, movers: Movers, s: nat, texture: int, height: int, size: nat, speed: int)
    requires w.Valid() && |movers| == |w.sectors| && s < |w.sectors|
    ensures |Free(Flight(w, movers, s, texture, height, size, speed).movers)| <= |Free(movers)|
    decreases |Free(movers)|
  {
    match Scan(w, movers, s, texture, height, size, 0)
    case Stop =>
    case Go(i, h) =>
      var next := w.LineOf(s, i).back;
      FreeShrinks(movers, next, Mover(h, speed));
      FlightFrees(w, movers[next := Some(Mover(h, speed))], next, texture, h, size, speed);
  }

  lemma AscentFrees(w: World, movers: Movers, s: nat, size: nat, speed: int)
    requires w.Valid() && |movers| == |w.sectors| && s < |w.sectors| && movers[s].None?
    ensures |Free(Ascent(w, movers, s, size, speed).movers)| < |Free(movers)|
  {
    var height := w.sectors[s].floorheight + size;
    FreeShrinks(movers, s, Mover(height, speed));
    FlightFrees(w, movers[s := Some(Mover(height, speed))], s, w.sectors[s].floorpic, height, size, speed);
  }

  // ----- claims: each sector at most once, and only free ones

  /** The movers after the steps have been claimed in order. */
  function Claim(movers: Movers, steps: seq<Step>, speed: int): (r: Movers)
    ensures |r| == |movers|
    decreases |steps|
  {
    if steps == [] then movers
    else if steps[0].sector < |movers| then
      Claim(movers[steps[0].sector := Some(Mover(steps[0].dest, speed))], steps[1..], speed)
    else Claim(movers, steps[1..], speed)
  }

  /** The steps name distinct sectors without a mover. */
  predicate Claimable(movers: Movers, steps: seq<Step>) {
    && (forall i :: 0 <= i < |steps| ==> steps[i].sector < |movers| && movers[steps[i].sector].None?)
    && (forall i, j :: 0 <= i < j < |steps| ==> steps[i].sector != steps[j].sector)
  }

  lemma {:induction false} ClaimAt(movers: Movers, steps: seq<Step>, speed: int, s: nat)
    requires Claimable(movers, steps) && s < |movers|
    ensures (forall i :: 0 <= i < |steps| ==> steps[i].sector != s) ==> Claim(movers, steps, speed)[s] == movers[s]
    ensures forall i :: 0 <= i < |steps| && steps[i].sector == s ==>
              Claim(movers, steps, speed)[s] == Some(Mover(steps[i].dest, speed))
    decreases |steps|
  {
    if steps != [] {
      var movers' := movers[steps[0].sector := Some(Mover(steps[0].dest, speed))];
      ClaimAt(movers', steps[1..], speed, s);
      if steps[0].sector == s {
        assert forall i :: 0 <= i < |steps[1..]| ==> steps[1..][i].sector != s;
      } else {
        assert forall i :: 1 <= i < |steps| ==> steps[i] == steps[1..][i - 1];
      }
    }
  }

  lemma ClaimableCons(movers: Movers, step: Step, speed: int, steps: seq<Step>)
    requires step.sector < |movers| && movers[step.sector].None?
    requires Claimable(movers[step.sector := Some(Mover(step.dest, speed))], steps)
    ensures Claimable(movers, [step] + steps)
    ensures Claim(movers, [step] + steps, speed) == Claim(movers[step.sector := Some(Mover(step.dest, speed))], steps, speed)
  {
    assert ([step] + steps)[1..] == steps;
  }

  lemma {:induction false} ClaimCat(movers: Movers, a: seq<Step>, b: seq<Step>, speed: int)
    requires Claimable(movers, a) && Claimable(Claim(movers, a, speed), b)
    ensures Claimable(movers, a + b) && Claim(movers, a + b, speed) == Claim(Claim(movers, a, speed), b, speed)
    decreases |a|
  {
    if a == [] {
      assert a + b == b;
    } else {
      var movers' := movers[a[0].sector := Some(Mover(a[0].dest, speed))];
      ClaimableRest(movers, a, speed);
      ClaimCat(movers', a[1..], b, speed);
      ClaimableCons(movers, a[0], speed, a[1..] + b);
      assert [a[0]] + (a[1..] + b) == a + b;
    }
  }

  lemma ClaimableRest(movers: Movers, a: seq<Step>, speed: int)
    requires Claimable(movers, a) && a != []
    ensures Claimable(movers[a[0].sector := Some(Mover(a[0].dest, speed))], a[1..])
  {
    assert forall i :: 0 <= i < |a[1..]| ==> a[1..][i] == a[i + 1];
  }

  function Multiple(m: nat, size: nat): nat { m * size }

  /** How many of the lines i to n - 1 of sector s have it in front and a sector of that floor texture behind. */
  function LinesOn(w: World, s: nat, texture: int, i: nat, n: nat): nat
    requires w.Valid() && s < |w.sectors| && i <= n <= |w.sectors[s].lines|
    decreases n - i
  {
    if i == n then 0
    else
      var line := w.LineOf(s, i);
      LinesOn(w, s, texture, i + 1, n) +
      if line.twosided && line.front == s && w.sectors[line.back].floorpic == texture then 1 else 0
  }

  /** Line i of sector s is its first with s in front and t behind. */
  predicate FirstTo(w: World, s: nat, t: nat, i: nat)
    requires w.Valid() && s < |w.sectors| && i < |w.sectors[s].lines|
  {
    w.LineOf(s, i) == StairLine(true, s, t) && forall j :: 0 <= j < i ==> w.LineOf(s, j) != StairLine(true, s, t)
  }

  /** Consecutive steps: adjacent through a line from the one to the other, same floor texture; the second is higher
      by a stair for every line of the first that leads on, up to the one gone through. */
  ghost predicate Chained(w: World, texture: int, a: Step, b: Step, size: nat)
    requires w.Valid()
  {
    && a.sector < |w.sectors| && b.sector < |w.sectors| && w.sectors[b.sector].floorpic == texture
    && exists i: nat :: i < |w.sectors[a.sector].lines| && FirstTo(w, a.sector, b.sector, i) &&
                        b.dest == a.dest + Multiple(LinesOn(w, a.sector, texture, 0, i + 1), size)
  }

  ghost predicate Stairway(w: World, texture: int, steps: seq<Step>, size: nat)
    requires w.Valid()
  {
    forall i :: 0 < i < |steps| ==> Chained(w, texture, steps[i - 1], steps[i], size)
  }

  /** No line leads on from sector s to a sector that could still be claimed. */
  predicate Top(w: World, movers: Movers, s: nat, texture: int)
    requires w.Valid() && |movers| == |w.sectors| && s < |w.sectors|
  {
    forall j :: 0 <= j < |w.sectors[s].lines| && Leads(w, s, j, texture) ==> movers[w.LineOf(s, j).back].Some?
  }

  /** Every line that leads on up to the one gone through raises the height by a stair. */
  lemma {:induction false} ScanHeight(w: World, movers: Movers, s: nat, texture: int, height: int, size: nat, i: nat)
    requires w.Valid() && |movers| == |w.sectors| && s < |w.sectors| && i <= |w.sectors[s].lines|
    ensures var k := Scan(w, movers, s, texture, height, size, i);
            k.Go? ==> k.height == height + Multiple(LinesOn(w, s, texture, i, k.line + 1), size)
    decreases |w.sectors[s].lines| - i
  {
    if i < |w.sectors[s].lines| {
      if !Leads(w, s, i, texture) {
        ScanHeight(w, movers, s, texture, height, size, i + 1);
      } else if movers[w.LineOf(s, i).back].Some? {
        ScanHeight(w, movers, s, texture, height + size, size, i + 1);
        var k := Scan(w, movers, s, texture, height + size, size, i + 1);
        if k.Go? {
          var m := LinesOn(w, s, texture, i + 1, k.line + 1);
          assert Multiple(m + 1, size) == Multiple(m, size) + size;
        }
      } else {
        assert LinesOn(w, s, texture, i, i + 1) == 1 && Multiple(1, size) == size;
      }
    }
  }

  /** The line gone through is the first that leads to a free sector. */
  lemma {:induction false} ScanFirst(w: World, movers: Movers, s: nat, texture: int, height: int, size: nat, i: nat)
    requires w.Valid() && |movers| == |w.sectors| && s < |w.sectors| && i <= |w.sectors[s].lines|
    ensures var k := Scan(w, movers, s, texture, height, size, i);
            k.Go? ==> forall j :: i <= j < k.line && Leads(w, s, j, texture) ==> movers[w.LineOf(s, j).back].Some?
    decreases |w.sectors[s].lines| - i
  {
    if i < |w.sectors[s].lines| {
      if !Leads(w, s, i, texture) {
        ScanFirst(w, movers, s, texture, height, size, i + 1);
      } else if movers[w.LineOf(s, i).back].Some? {
        ScanFirst(w, movers, s, texture, height + size, size, i + 1);
      }
    }
  }

  lemma ScanChains(w: World, movers: Movers, s: nat, texture: int, height: int, size: nat)
    requires w.Valid() && |movers| == |w.sectors| && s < |w.sectors|
    ensures var k := Scan(w, movers, s, texture, height, size, 0);
            k.Go? ==> Chained(w, texture, Step(s, height), Step(w.LineOf(s, k.line).back, k.height), size)
  {
    ScanHeight(w, movers, s, texture, height, size, 0);
    ScanFirst(w, movers, s, texture, height, size, 0);
    var k := Scan(w, movers, s, texture, height, size, 0);
    if k.Go? {
      var next := w.LineOf(s, k.line).back;
      assert w.LineOf(s, k.line) == StairLine(true, s, next);
      forall j | 0 <= j < k.line ensures w.LineOf(s, j) != StairLine(true, s, next) {
        if w.LineOf(s, j) == StairLine(true, s, next) {
          assert Leads(w, s, j, texture);
        }
      }
      assert FirstTo(w, s, next, k.line);
    }
  }

  /** A flight claims free sectors once each, rises step by step, and stops only at its top. */
  lemma {:induction false} FlightIsStairway(w: World, movers: Movers, s: nat, texture: int, height: int, size: nat, speed: int)
    requires w.Valid() && |movers| == |w.sectors| && s < |w.sectors|
    ensures var r := Flight(w, movers, s, texture, height, size, speed);
            && Claimable(movers, r.steps) && r.movers == Claim(movers, r.steps, speed)
            && Stairway(w, texture, [Step(s, height)] + r.steps, size)
            && r.last == ([Step(s, height)] + r.steps)[|r.steps|].sector
            && Top(w, r.movers, r.last, texture)
    decreases |Free(movers)|
  {
    match Scan(w, movers, s, texture, height, size, 0)
    case Stop =>
    case Go(i, h) =>
      var next := w.LineOf(s, i).back;
      var movers' := movers[next := Some(Mover(h, speed))];
      FreeShrinks(movers, next, Mover(h, speed));
      FlightIsStairway(w, movers', next, texture, h, size, speed);
      var rest := Flight(w, movers', next, texture, h, size, speed);
      ClaimableCons(movers, Step(next, h), speed, rest.steps);
      ScanChains(w, movers, s, texture, height, size);
      var all := [Step(s, height)] + ([Step(next, h)] + rest.steps);
      var tail := [Step(next, h)] + rest.steps;
      forall k | 0 < k < |all| ensures Chained(w, texture, all[k - 1], all[k], size) {
        if k > 1 {
          assert Chained(w, texture, tail[k - 2], tail[k - 1], size);
        }
      }
  }

  function Flatten(flights: seq<seq<Step>>): seq<Step>
    decreases |flights|
  {
    if flights == [] then [] else flights[0] + Flatten(flights[1..])
  }

  /** A flight as built: from a tagged sector, one stair height above its floor, in its texture. */
  ghost predicate GoodFlight(w: World, tag: int, size: nat, f: seq<Step>)
    requires w.Valid()
  {
    && f != [] && f[0].sector < |w.sectors| && w.sectors[f[0].sector].tag == tag
    && f[0].dest == w.sectors[f[0].sector].floorheight + size
    && Stairway(w, w.sectors[f[0].sector].floorpic, f, size)
  }

  lemma AscentIsGood(w: World, movers: Movers, s: nat, size: nat, speed: int)
    requires w.Valid() && |movers| == |w.sectors| && s < |w.sectors| && movers[s].None?
    ensures var r := Ascent(w, movers, s, size, speed);
            && GoodFlight(w, w.sectors[s].tag, size, r.steps)
            && Claimable(movers, r.steps) && r.movers == Claim(movers, r.steps, speed)
            && r.steps[0].sector == s && r.last == r.steps[|r.steps| - 1].sector
            && Top(w, r.movers, r.last, w.sectors[s].floorpic)
  {
    var height := w.sectors[s].floorheight + size;
    var claimed := movers[s := Some(Mover(height, speed))];
    FlightIsStairway(w, claimed, s, w.sectors[s].floorpic, height, size, speed);
    var walk := Flight(w, claimed, s, w.sectors[s].floorpic, height, size, speed);
    ClaimableCons(movers, Step(s, height), speed, walk.steps);
  }

  /** The result r is that of a flight and of the rest of the call. */
  predicate Continues(r: Built, walk: Walk, rest: Built) {
    r.movers == rest.movers && r.flights == [walk.steps] + rest.flights
  }

  /** The call from a sector it finds free: a flight, then the call from behind its last sector. */
  lemma BuildFlight(w: World, movers: Movers, tag: int, size: nat, speed: int, from: nat, s: nat)
    returns (r: Built, walk: Walk, rest: Built)
    requires w.Valid() && |movers| == |w.sectors| && from <= |w.sectors|
    requires FindTag(w, tag, from) == Some(s) && movers[s].None?
    ensures r == Build(w, movers, tag, size, speed, from) && walk == Ascent(w, movers, s, size, speed)
    ensures rest == Build(w, walk.movers, tag, size, speed, walk.last + 1)
    ensures Continues(r, walk, rest)
  {
    r, walk := Build(w, movers, tag, size, speed, from), Ascent(w, movers, s, size, speed);
    rest := Build(w, walk.movers, tag, size, speed, walk.last + 1);
  }

  /** The call from a sector it finds moving goes on behind it. */
  lemma BuildMoving(w: World, movers: Movers, tag: int, size: nat, speed: int, from: nat, s: nat)
    requires w.Valid() && |movers| == |w.sectors| && from <= |w.sectors|
    requires FindTag(w, tag, from) == Some(s) && movers[s].Some?
    ensures Build(w, movers, tag, size, speed, from) == Build(w, movers, tag, size, speed, s + 1)
  {
  }

  /** The call depends only on the next tagged sector it will find. */
  lemma BuildFrom(w: World, movers: Movers, tag: int, size: nat, speed: int, from: nat)
    requires w.Valid() && |movers| == |w.sectors| && from <= |w.sectors|
    ensures var s := FindTag(w, tag, from);
            Build(w, movers, tag, size, speed, from) ==
            if s.None? then Built(movers, []) else Build(w, movers, tag, size, speed, s.value)
  {
    var s := FindTag(w, tag, from);
    if s.Some? {
      assert FindTag(w, tag, s.value) == s;
    }
  }

  /** The movers of r come from those before by claiming its steps, which are free sectors, each once. */
  predicate Claimed(movers: Movers, r: Built, speed: int) {
    Claimable(movers, Flatten(r.flights)) && r.movers == Claim(movers, Flatten(r.flights), speed)
  }

  /** Whatever the graph: the call claims only free sectors, each once. */
  lemma {:induction false} BuildClaims(w: World, movers: Movers, tag: int, size: nat, speed: int, from: nat) returns (r: Built)
    requires w.Valid() && |movers| == |w.sectors| && from <= |w.sectors|
    ensures r == Build(w, movers, tag, size, speed, from) && Claimed(movers, r, speed)
    decreases |Free(movers)|, |w.sectors| - from, 1
  {
    match FindTag(w, tag, from)
    case None =>
      r := Built(movers, []);
    case Some(s) =>
      if movers[s].Some? {
        BuildMoving(w, movers, tag, size, speed, from, s);
        r := BuildClaims(w, movers, tag, size, speed, s + 1);
      } else {
        r := ClaimsAfterFlight(w, movers, tag, size, speed, from, s);
      }
  }

  lemma {:induction false} ClaimsAfterFlight(w: World, movers: Movers, tag: int, size: nat, speed: int, from: nat, s: nat)
    returns (r: Built)
    requires w.Valid() && |movers| == |w.sectors| && from <= |w.sectors|
    requires FindTag(w, tag, from) == Some(s) && movers[s].None?
    ensures r == Build(w, movers, tag, size, speed, from) && Claimed(movers, r, speed)
    decreases |Free(movers)|, |w.sectors| - from, 0
  {
    var walk, rest;
    r, walk, rest := BuildFlight(w, movers, tag, size, speed, from, s);
    AscentFrees(w, movers, s, size, speed);
    AscentClaims(w, movers, s, size, speed);
    rest := BuildClaims(w, walk.movers, tag, size, speed, walk.last + 1);
    ClaimFlight(movers, r, walk, rest, speed);
  }

  lemma AscentClaims(w: World, movers: Movers, s: nat, size: nat, speed: int)
    requires w.Valid() && |movers| == |w.sectors| && s < |w.sectors| && movers[s].None?
    ensures var r := Ascent(w, movers, s, size, speed);
            Claimable(movers, r.steps) && r.movers == Claim(movers, r.steps, speed)
  {
    AscentIsGood(w, movers, s, size, speed);
  }

  lemma ClaimFlight(movers: Movers, r: Built, walk: Walk, rest: Built, speed: int)
    requires Continues(r, walk, rest) && Claimed(walk.movers, rest, speed)
    requires Claimable(movers, walk.steps) && walk.movers == Claim(movers, walk.steps, speed)
    ensures Claimed(movers, r, speed)
  {
    ClaimCat(movers, walk.steps, Flatten(rest.flights), speed);
    assert r.flights[1..] == rest.flights;
  }

  /** And every flight it builds is a good one. */
  lemma {:induction false} BuildGood(w: World, movers: Movers, tag: int, size: nat, speed: int, from: nat)
    requires w.Valid() && |movers| == |w.sectors| && from <= |w.sectors|
    ensures forall f :: f in Build(w, movers, tag, size, speed, from).flights ==> GoodFlight(w, tag, size, f)
    decreases |Free(movers)|, |w.sectors| - from
  {
    match FindTag(w, tag, from)
    case None =>
    case Some(s) =>
      if movers[s].Some? {
        BuildGood(w, movers, tag, size, speed, s + 1);
      } else {
        var r, walk, rest := BuildFlight(w, movers, tag, size, speed, from, s);
        AscentFrees(w, movers, s, size, speed);
        AscentIsGood(w, movers, s, size, speed);
        BuildGood(w, walk.movers, tag, size, speed, walk.last + 1);
      }
  }

  lemma BuildKeeps(w: World, movers: Movers, tag: int, size: nat, speed: int, from: nat, t: nat)
    requires w.Valid() && |movers| == |w.sectors| && from <= |w.sectors| && t < |movers| && movers[t].Some?
    ensures Build(w, movers, tag, size, speed, from).movers[t] == movers[t]
  {
    var r := BuildClaims(w, movers, tag, size, speed, from);
    ClaimAt(movers, Flatten(r.flights), speed, t);
  }

  // ----- the code

  datatype StairType = Build8 | Turbo16

  const FLOORSPEED := FRACUNIT

  function StairSize(t: StairType): nat {
    if t.Build8? then 8 * FRACUNIT else 16 * FRACUNIT
  }

  function StairSpeed(t: StairType): nat {
    if t.Build8? then FLOORSPEED / 4 else FLOORSPEED * 4
  }

  /** What the outer loop still builds when it has come to secnum (-1: nothing). */
  function Remaining(w: World, movers: Movers, tag: int, kind: StairType, secnum: int): Built
    requires w.Valid() && |movers| == |w.sectors| && secnum < |w.sectors|
  {
    if secnum < 0 then Built(movers, []) else Build(w, movers, tag, StairSize(kind), StairSpeed(kind), secnum)
  }

  /** The movers and the value of secnum after one round of the outer loop. */
  function After(w: World, movers: Movers, kind: StairType, secnum: nat): (r: Walk)
    requires w.Valid() && |movers| == |w.sectors| && secnum < |w.sectors|
    ensures |r.movers| == |movers| && r.last < |movers|
  {
    if movers[secnum].Some? then Walk(movers, [], secnum)
    else Ascent(w, movers, secnum, StairSize(kind), StairSpeed(kind)).(steps := [])
  }

  lemma AfterShrinks(w: World, movers: Movers, kind: StairType, secnum: nat)
    requires w.Valid() && |movers| == |w.sectors| && secnum < |w.sectors|
    ensures var r := After(w, movers, kind, secnum);
            |Free(r.movers)| < |Free(movers)| || (r.movers == movers && r.last == secnum)
  {
    if movers[secnum].None? {
      AscentFrees(w, movers, secnum, StairSize(kind), StairSpeed(kind));
    }
  }

  function Index(r: Option<nat>): int {
    if r.Some? then r.value else -1
  }

  lemma AfterRemains(w: World, movers: Movers, tag: int, kind: StairType, secnum: nat)
    returns (r: Walk, next: int, whole: Built, rest: Built)
    requires w.Valid() && |movers| == |w.sectors| && secnum < |w.sectors| && FindTag(w, tag, secnum) == Some(secnum)
    ensures r == After(w, movers, kind, secnum)
    ensures next == Index(FindTag(w, tag, r.last + 1)) && rest == Remaining(w, r.movers, tag, kind, next)
    ensures whole == Remaining(w, movers, tag, kind, secnum) && SameEnd(whole, rest, movers[secnum].None?)
  {
    if movers[secnum].None? {
      r, next, whole, rest := FlightRemains(w, movers, tag, kind, secnum);
    } else {
      whole, rest := MovingAfter(w, movers, tag, StairSize(kind), StairSpeed(kind), secnum);
      r := Walk(movers, [], secnum);
      next := RestRemains(w, movers, tag, kind, secnum, rest);
    }
  }

  lemma FlightRemains(w: World, movers: Movers, tag: int, kind: StairType, s: nat)
    returns (r: Walk, next: int, whole: Built, rest: Built)
    requires w.Valid() && |movers| == |w.sectors| && s < |w.sectors| && FindTag(w, tag, s) == Some(s) && movers[s].None?
    ensures r == After(w, movers, kind, s)
    ensures next == Index(FindTag(w, tag, r.last + 1)) && rest == Remaining(w, r.movers, tag, kind, next)
    ensures whole == Remaining(w, movers, tag, kind, s) && SameEnd(whole, rest, true)
  {
    var walk;
    whole, walk, rest := BuildFlight(w, movers, tag, StairSize(kind), StairSpeed(kind), s, s);
    r := walk.(steps := []);
    next := RestRemains(w, r.movers, tag, kind, r.last, rest);
  }

  lemma MovingAfter(w: World, movers: Movers, tag: int, size: nat, speed: int, s: nat) returns (whole: Built, rest: Built)
    requires w.Valid() && |movers| == |w.sectors| && s < |w.sectors| && FindTag(w, tag, s) == Some(s) && movers[s].Some?
    ensures whole == Build(w, movers, tag, size, speed, s) && rest == Build(w, movers, tag, size, speed, s + 1)
    ensures whole == rest
  {
    BuildMoving(w, movers, tag, size, speed, s, s);
    whole, rest := Build(w, movers, tag, size, speed, s), Build(w, movers, tag, size, speed, s + 1);
  }

  /** The whole leaves the movers of the rest, and has flights if the rest has any or there was one before. */
  predicate SameEnd(whole: Built, rest: Built, one: bool) {
    whole.movers == rest.movers && (whole.flights != [] <==> one || rest.flights != [])
  }

  lemma RestRemains(w: World, movers: Movers, tag: int, kind: StairType, last: nat, rest: Built) returns (next: int)
    requires w.Valid() && |movers| == |w.sectors| && last < |w.sectors|
    requires rest == Build(w, movers, tag, StairSize(kind), StairSpeed(kind), last + 1)
    ensures next == Index(FindTag(w, tag, last + 1)) && rest == Remaining(w, movers, tag, kind, next)
  {
    next := Index(FindTag(w, tag, last + 1));
    BuildFrom(w, movers, tag, StairSize(kind), StairSpeed(kind), last + 1);
  }

  class Floors {
    const w: World
    var specialdata: Movers

    ghost predicate Valid()
      reads this
    {
      w.Valid() && |specialdata| == |w.sectors|
    }

    /** P_FindSectorFromLineTag, -1 when there is none. */
    method FindSectorFromLineTag(tag: int, start: int) returns (r: int)
      requires -1 <= start < |w.sectors|
      ensures r == Index(FindTag(w, tag, start + 1))
    {
      var i := start + 1;
      while i < |w.sectors|
        invariant start + 1 <= i <= |w.sectors|
        invariant FindTag(w, tag, i) == FindTag(w, tag, start + 1)
      {
        if w.sectors[i].tag == tag {
          return i;
        }
        i := i + 1;
      }
      return -1;
    }

    /** The inner search loop: the line gone through, if any, and the height reached. */
    method FindNext(sec: nat, texture: int, height0: int, stairsize: nat) returns (found: bool, i: nat, height: int)
      requires Valid() && sec < |w.sectors|
      ensures Scan(w, specialdata, sec, texture, height0, stairsize, 0) == if found then Go(i, height) else Stop
      ensures found ==> i < |w.sectors[sec].lines| && w.LineOf(sec, i).back < |w.sectors|
    {
      i, height := 0, height0;
      while i < |w.sectors[sec].lines|
        invariant 0 <= i <= |w.sectors[sec].lines|
        invariant Scan(w, specialdata, sec, texture, height, stairsize, i) ==
                  Scan(w, specialdata, sec, texture, height0, stairsize, 0)
      {
        var line := w.LineOf(sec, i);
        if line.twosided && line.front == sec && w.sectors[line.back].floorpic == texture {
          height := height + stairsize;
          if specialdata[line.back].None? {
            return true, i, height;
          }
        }
        i := i + 1;
      }
      return false, i, height;
    }

    /** The do-while loop that raises one sector after the other. */
    method ClimbFrom(sec: nat, texture: int, height0: int, stairsize: nat, speed: int) returns (last: nat)
      requires Valid() && sec < |w.sectors|
      modifies this`specialdata
      ensures Valid()
      ensures var r := Flight(w, old(specialdata), sec, texture, height0, stairsize, speed);
              specialdata == r.movers && last == r.last
    {
      last := sec;
      var height := height0;
      ghost var goal := Flight(w, specialdata, sec, texture, height0, stairsize, speed);
      var ok := true;
      while ok
        invariant Valid() && last < |w.sectors|
        invariant ok ==> Flight(w, specialdata, last, texture, height, stairsize, speed).movers == goal.movers
        invariant ok ==> Flight(w, specialdata, last, texture, height, stairsize, speed).last == goal.last
        invariant !ok ==> specialdata == goal.movers && last == goal.last
        decreases ok, |Free(specialdata)|
      {
        var i, h;
        ok, i, h := FindNext(last, texture, height, stairsize);
        if ok {
          var next := w.LineOf(last, i).back;
          FreeShrinks(specialdata, next, Mover(h, speed));
          specialdata := specialdata[next := Some(Mover(h, speed))];
          last, height := next, h;
        }
      }
    }

    /** A new staircase from the free sector sec. */
    method NewStaircase(sec: nat, kind: StairType) returns (last: nat)
      requires Valid() && sec < |w.sectors| && specialdata[sec].None?
      modifies this`specialdata
      ensures Valid() && last < |w.sectors| && |Free(specialdata)| < |Free(old(specialdata))|
      ensures var r := Ascent(w, old(specialdata), sec, StairSize(kind), StairSpeed(kind));
              specialdata == r.movers && last == r.last
    {
      AscentFrees(w, specialdata, sec, StairSize(kind), StairSpeed(kind));
      var height := w.sectors[sec].floorheight + StairSize(kind);
      specialdata := specialdata[sec := Some(Mover(height, StairSpeed(kind)))];
      last := ClimbFrom(sec, w.sectors[sec].floorpic, height, StairSize(kind), StairSpeed(kind));
    }

    /** One round of the outer loop: a staircase unless the sector moves; `last` is what secnum has become. */
    method NextRound(kind: StairType, secnum: nat) returns (claimed: bool, last: nat)
      requires Valid() && secnum < |w.sectors|
      modifies this`specialdata
      ensures Valid() && last < |w.sectors| && claimed == old(specialdata)[secnum].None?
      ensures Walk(specialdata, [], last) == After(w, old(specialdata), kind, secnum)
    {
      last, claimed := secnum, specialdata[secnum].None?;
      if claimed {
        last := NewStaircase(secnum, kind);
      }
    }

    /** EV_BuildStairs: secnum is both the loop index and the sector the flight has come to. */
    method BuildStairs(tag: int, kind: StairType) returns (rtn: bool)
      requires Valid()
      modifies this`specialdata
      ensures Valid()
      ensures var r := Build(w, old(specialdata), tag, StairSize(kind), StairSpeed(kind), 0);
              specialdata == r.movers && rtn == (r.flights != [])
    {
      ghost var goal := Build(w, specialdata, tag, StairSize(kind), StairSpeed(kind), 0);
      BuildFrom(w, specialdata, tag, StairSize(kind), StairSpeed(kind), 0);
      rtn := false;
      var secnum := FindSectorFromLineTag(tag, -1);
      while secnum >= 0
        invariant Valid() && -1 <= secnum < |w.sectors|
        invariant secnum >= 0 ==> FindTag(w, tag, secnum) == Some(secnum)
        invariant goal.movers == Remaining(w, specialdata, tag, kind, secnum).movers
        invariant goal.flights != [] <==> rtn || Remaining(w, specialdata, tag, kind, secnum).flights != []
        decreases |Free(specialdata)|, if secnum < 0 then 0 else 1 + |w.sectors| - secnum
      {
        AfterShrinks(w, specialdata, kind, secnum);
        ghost var _, next, _, _ := AfterRemains(w, specialdata, tag, kind, secnum);
        var claimed;
        claimed, secnum := NextRound(kind, secnum);
        rtn := rtn || claimed;
        secnum := FindSectorFromLineTag(tag, secnum);
        assert secnum == next;
      }
    }
  }
}
