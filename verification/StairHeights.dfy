/** Where the steps of a staircase come to rest (EV_BuildStairs of doom/p_floor.c). */
module StairHeights {
  import opened Fixed
  import opened Options
  import opened Stairs

  lemma {:induction false} InFlatten(flights: seq<seq<Step>>, f: seq<Step>, k: nat)
    requires f in flights && k < |f|
    ensures f[k] in Flatten(flights)
    decreases |flights|
  {
    if f == flights[0] {
      assert f[k] in flights[0];
    } else {
      InFlatten(flights[1..], f, k);
    }
  }

  /** Every step of every flight is on its way to its height. */
  lemma StepsMove(w: World, movers: Movers, tag: int, size: nat, speed: int, f: seq<Step>, k: nat) returns (r: Built)
    requires w.Valid() && |movers| == |w.sectors|
    ensures r == Build(w, movers, tag, size, speed, 0)
    ensures f in r.flights && k < |f| ==>
              f[k].sector < |movers| && movers[f[k].sector].None? && r.movers[f[k].sector] == Some(Mover(f[k].dest, speed))
  {
    r := BuildClaims(w, movers, tag, size, speed, 0);
    if f in r.flights && k < |f| {
      InFlatten(r.flights, f, k);
      var steps := Flatten(r.flights);
      var i :| 0 <= i < |steps| && steps[i] == f[k];
      ClaimAt(movers, steps, speed, f[k].sector);
    }
  }

  /** No line of s that leads on comes before the one to t. */
  predicate Directly(w: World, s: nat, t: nat, texture: int)
    requires w.Valid() && s < |w.sectors|
  {
    forall i: nat :: i < |w.sectors[s].lines| && FirstTo(w, s, t, i) ==> LinesOn(w, s, texture, 0, i) == 0
  }

  /** An ordinary staircase: from every step the first line that leads on is the one to the next. */
  predicate IsPlain(w: World, f: seq<Step>)
    requires w.Valid()
  {
    && (forall k :: 0 <= k < |f| ==> f[k].sector < |w.sectors|)
    && (forall k, l :: 0 <= k && l == k + 1 < |f| ==> Directly(w, f[k].sector, f[l].sector, w.sectors[f[0].sector].floorpic))
  }

  lemma {:induction false} LinesSplit(w: World, s: nat, texture: int, i: nat, n: nat)
    requires w.Valid() && s < |w.sectors| && i <= n < |w.sectors[s].lines|
    ensures LinesOn(w, s, texture, i, n + 1) == LinesOn(w, s, texture, i, n) + LinesOn(w, s, texture, n, n + 1)
    decreases n - i
  {
    if i < n {
      LinesSplit(w, s, texture, i + 1, n);
    }
  }

  /** It rises by one stair a step. */
  lemma {:induction false} PlainRises(w: World, tag: int, size: nat, f: seq<Step>, k: nat)
    requires w.Valid() && GoodFlight(w, tag, size, f) && IsPlain(w, f) && k < |f|
    ensures f[k].dest == w.sectors[f[0].sector].floorheight + Multiple(k + 1, size)
    decreases k
  {
    var texture := w.sectors[f[0].sector].floorpic;
    if k == 0 {
      assert Multiple(1, size) == size;
    } else {
      PlainRises(w, tag, size, f, k - 1);
      var a, b := f[k - 1], f[k];
      assert Chained(w, texture, a, b, size);
      var i: nat :| i < |w.sectors[a.sector].lines| && FirstTo(w, a.sector, b.sector, i) &&
                    b.dest == a.dest + Multiple(LinesOn(w, a.sector, texture, 0, i + 1), size);
      assert Directly(w, a.sector, b.sector, texture);
      LinesSplit(w, a.sector, texture, 0, i);
      assert LinesOn(w, a.sector, texture, i, i + 1) == 1;
      assert Multiple(1, size) == size && Multiple(k + 1, size) == Multiple(k, size) + size;
    }
  }

  /** A level of plain staircases: from no sector does more than one line lead on in the same texture. */
  predicate IsPlainLevel(w: World)
    requires w.Valid()
  {
    forall s: nat :: s < |w.sectors| ==> LinesOn(w, s, w.sectors[s].floorpic, 0, |w.sectors[s].lines|) <= 1
  }

  lemma {:induction false} LinesGrow(w: World, s: nat, texture: int, m: nat, n: nat)
    requires w.Valid() && s < |w.sectors| && m <= n <= |w.sectors[s].lines|
    ensures LinesOn(w, s, texture, 0, m) <= LinesOn(w, s, texture, 0, n)
    decreases n
  {
    if m < n {
      LinesGrow(w, s, texture, m, n - 1);
      LinesSplit(w, s, texture, 0, n - 1);
    }
  }

  lemma {:induction false} SameTextures(w: World, tag: int, size: nat, f: seq<Step>, k: nat)
    requires w.Valid() && GoodFlight(w, tag, size, f) && k < |f|
    ensures f[k].sector < |w.sectors| && w.sectors[f[k].sector].floorpic == w.sectors[f[0].sector].floorpic
  {
    if k > 0 {
      assert Chained(w, w.sectors[f[0].sector].floorpic, f[k - 1], f[k], size);
    }
  }

  lemma LineDirect(w: World, s: nat, t: nat, i: nat)
    requires w.Valid() && IsPlainLevel(w) && s < |w.sectors| && i < |w.sectors[s].lines| && FirstTo(w, s, t, i)
    requires t < |w.sectors| && w.sectors[t].floorpic == w.sectors[s].floorpic
    ensures LinesOn(w, s, w.sectors[s].floorpic, 0, i) == 0
  {
    var texture := w.sectors[s].floorpic;
    LinesSplit(w, s, texture, 0, i);
    assert LinesOn(w, s, texture, i, i + 1) == 1;
    LinesGrow(w, s, texture, i + 1, |w.sectors[s].lines|);
  }

  /** On such a level, which can be told beforehand, every flight is an ordinary staircase, whatever already moves. */
  lemma LevelIsPlain(w: World, tag: int, size: nat, f: seq<Step>)
    requires w.Valid() && IsPlainLevel(w) && GoodFlight(w, tag, size, f)
    ensures IsPlain(w, f)
  {
    var texture := w.sectors[f[0].sector].floorpic;
    forall k | 0 <= k < |f| ensures f[k].sector < |w.sectors| && w.sectors[f[k].sector].floorpic == texture {
      SameTextures(w, tag, size, f, k);
    }
    forall k, l | 0 <= k && l == k + 1 < |f| ensures Directly(w, f[k].sector, f[l].sector, texture) {
      forall i: nat | i < |w.sectors[f[k].sector].lines| && FirstTo(w, f[k].sector, f[l].sector, i)
        ensures LinesOn(w, f[k].sector, texture, 0, i) == 0
      {
        LineDirect(w, f[k].sector, f[l].sector, i);
      }
    }
  }

  /** The stairs of a call: step k of an ordinary staircase goes up to k + 1 stairs above the floor of its first
      sector, 8 units each at a quarter unit a tic, or 16 at four. */
  lemma StaircaseRises(w: World, movers: Movers, tag: int, kind: StairType, f: seq<Step>, k: nat) returns (r: Built)
    requires w.Valid() && |movers| == |w.sectors|
    ensures r == Build(w, movers, tag, StairSize(kind), StairSpeed(kind), 0)
    ensures f in r.flights && IsPlain(w, f) && k < |f| ==>
              && w.sectors[f[0].sector].tag == tag
              && r.movers[f[k].sector] ==
                 Some(if kind.Build8? then Mover(w.sectors[f[0].sector].floorheight + (k + 1) * 8 * FRACUNIT, FRACUNIT / 4)
                      else Mover(w.sectors[f[0].sector].floorheight + (k + 1) * 16 * FRACUNIT, 4 * FRACUNIT))
  {
    r := StepsMove(w, movers, tag, StairSize(kind), StairSpeed(kind), f, k);
    BuildGood(w, movers, tag, StairSize(kind), StairSpeed(kind), 0);
    if f in r.flights && IsPlain(w, f) && k < |f| {
      PlainRises(w, tag, StairSize(kind), f, k);
    }
  }
}
