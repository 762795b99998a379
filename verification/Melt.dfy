/** The melting screen (doom/f_wipe.c): the columns of the old image slide down, each at its own time, and
    uncover the new one. The images are kept column by column, the screen row by row. */
module Melt {
  import opened Arith
  import opened Raster

  // ----- where a column is

  /** One tick of a column whose top is at y; a negative y is a delay. */
  function StepY(y: int, h: nat): (r: int)
    ensures y < h ==> y < r <= Max(y + 1, h)
    ensures y >= h ==> r == y
  {
    if y < 0 then y + 1
    else if y < h then y + Min(if y < 16 then y + 1 else 8, h - y)
    else y
  }

  function MeltY(y: int, h: nat, ticks: nat): int
    decreases ticks
  {
    if ticks == 0 then y else StepY(MeltY(y, h, ticks - 1), h)
  }

  lemma {:induction false} MeltCompose(y: int, h: nat, s: nat, t: nat)
    ensures MeltY(MeltY(y, h, s), h, t) == MeltY(y, h, s + t)
    decreases t
  {
    if t > 0 {
      MeltCompose(y, h, s, t - 1);
    }
  }

  lemma {:induction false} StaysFinished(y: int, h: nat, t: nat)
    requires y >= h
    ensures MeltY(y, h, t) == y
    decreases t
  {
    if t > 0 {
      StaysFinished(y, h, t - 1);
    }
  }

  /** Where a column is after t ticks without delay: 1, 3, 7, 15 and 31 rows down, then eight more a tick, and never
      below the screen. */
  lemma {:induction false} MeltPlace(h: nat, t: nat)
    ensures MeltY(0, h, t) == Min(h, if t <= 5 then [0, 1, 3, 7, 15, 31][t] else 31 + 8 * (t - 5))
    decreases t
  {
    if t > 0 {
      MeltPlace(h, t - 1);
    }
  }

  /** A delay only puts it off. */
  lemma {:induction false} MeltLater(delay: nat, h: nat, t: nat)
    ensures MeltY(0 - delay, h, t) == if t <= delay then t - delay else MeltY(0, h, t - delay)
    decreases t
  {
    if t > 0 {
      MeltLater(delay, h, t - 1);
      if t == delay + 1 {
        assert MeltY(0, h, 0) == 0 && MeltY(0, h, 1) == StepY(0, h);
      }
    }
  }

  /** How many ticks a column still needs. */
  function TicksLeft(y: int, h: nat): nat
    decreases h - y
  {
    if y >= h then 0 else 1 + TicksLeft(StepY(y, h), h)
  }

  /** A column has finished exactly when it has had that many ticks. */
  lemma {:induction false} FinishedAfter(y: int, h: nat, t: nat)
    ensures MeltY(y, h, t) >= h <==> t >= TicksLeft(y, h)
    decreases t
  {
    if t > 0 {
      FinishedAfter(StepY(y, h), h, t - 1);
      MeltCompose(y, h, 1, t - 1);
      assert MeltY(y, h, 1) == StepY(MeltY(y, h, 0), h);
    }
  }

  /** The longest that a melt can take: 15 ticks of delay, five of speeding up, and eight rows a tick. */
  function Bound(h: nat): nat { 20 + if h > 31 then (h - 24) / 8 else 0 }

  lemma {:induction false} SteadyFall(y: int, h: nat)
    requires 16 <= y
    ensures TicksLeft(y, h) == if y < h then (h - y + 7) / 8 else 0
    decreases h - y
  {
    if y < h {
      SteadyFall(StepY(y, h), h);
    }
  }

  lemma {:induction false} Delayed(y: int, h: nat)
    requires y <= 0
    ensures TicksLeft(y, h) == TicksLeft(0, h) - y
    decreases -y
  {
    if y < 0 {
      Delayed(y + 1, h);
    }
  }

  /** No column of a melt takes longer than the bound, and on a screen higher than 31 rows the slowest takes
      just that long. */
  lemma MeltBound(y: int, h: nat)
    requires -15 <= y <= 0
    ensures TicksLeft(y, h) <= Bound(h)
    ensures h > 31 ==> TicksLeft(-15, h) == Bound(h)
  {
    Delayed(y, h);
    Delayed(-15, h);
    FreeFall(h);
  }

  lemma FreeFall(h: nat)
    ensures h > 31 ==> TicksLeft(0, h) == 5 + (h - 24) / 8
    ensures h <= 31 ==> TicksLeft(0, h) <= 5
  {
    SteadyFall(31, h);
    assert TicksLeft(31, h) == if h > 31 then (h - 24) / 8 else 0;
    assert TicksLeft(15, h) == if 15 < h then 1 + TicksLeft(Min(31, h), h) else 0;
    assert TicksLeft(7, h) == if 7 < h then 1 + TicksLeft(Min(15, h), h) else 0;
    assert TicksLeft(3, h) == if 3 < h then 1 + TicksLeft(Min(7, h), h) else 0;
    assert TicksLeft(1, h) == if 1 < h then 1 + TicksLeft(Min(3, h), h) else 0;
    assert TicksLeft(0, h) == if 0 < h then 1 + TicksLeft(1, h) else 0;
  }

  // ----- what a column shows

  /** Row r of column x: the new image above the top of the old one, and the old one below, moved down. */
  ghost function Shown(w: nat, h: nat, from: seq<int>, to: seq<int>, x: nat, y: int, r: nat): int
    requires x < w && r < h && |from| == |to| == w * h
  {
    if r < y then to[Cell(w, h, x, r)] else from[Cell(w, h, x, r - Max(y, 0))]
  }

  ghost predicate Column(w: nat, h: nat, scr: seq<int>, from: seq<int>, to: seq<int>, x: nat, y: int)
    requires x < w && |scr| == |from| == |to| == w * h
  {
    forall r: nat {:trigger Shown(w, h, from, to, x, y, r)} ::
      r < h ==> scr[Cell(w, h, x, r)] == Shown(w, h, from, to, x, y, r)
  }

  lemma ColumnDone(w: nat, h: nat, scr: seq<int>, from: seq<int>, to: seq<int>, x: nat, y: int, r: nat)
    requires x < w && |scr| == |from| == |to| == w * h && r < h <= y && Column(w, h, scr, from, to, x, y)
    ensures scr[Cell(w, h, x, r)] == to[Cell(w, h, x, r)]
  {
    assert scr[Cell(w, h, x, r)] == Shown(w, h, from, to, x, y, r);
  }

  /** Every column shows what it should. */
  ghost predicate Columns(w: nat, h: nat, scr: seq<int>, from: seq<int>, to: seq<int>, ys: seq<int>) {
    && |scr| == |from| == |to| == w * h && |ys| >= w
    && forall x: nat :: x < w ==> ys[x] <= h && Column(w, h, scr, from, to, x, ys[x])
  }

  /** When every column has finished, the screen is the new image. */
  lemma AllFinished(w: nat, h: nat, scr: seq<int>, from: seq<int>, to: seq<int>, ys: seq<int>)
    requires Columns(w, h, scr, from, to, ys) && forall x: nat :: x < w ==> ys[x] >= h
    ensures scr == to
  {
    forall i: nat | i < w * h
      ensures scr[i] == to[i]
    {
      var x, r := CellOf(w, h, i);
      ColumnDone(w, h, scr, from, to, x, ys[x], r);
    }
  }

  /** b is the image a turned into columns. */
  ghost predicate Turned(w: nat, h: nat, a: seq<int>, b: seq<int>) {
    && |a| == |b| == w * h
    && forall x: nat, y: nat :: x < w && y < h ==> h * w == w * h && b[Cell(h, w, y, x)] == a[Cell(w, h, x, y)]
  }

  /** Turning the columns back gives the image. */
  lemma TurnedBack(w: nat, h: nat, a: seq<int>, b: seq<int>, c: seq<int>)
    requires Turned(w, h, a, b) && Turned(h, w, b, c)
    ensures a == c
  {
    forall i: nat | i < |a|
      ensures a[i] == c[i]
    {
      var x, y := CellOf(w, h, i);
      assert b[Cell(h, w, y, x)] == a[i] && c[Cell(w, h, x, y)] == b[Cell(h, w, y, x)];
    }
  }
}
