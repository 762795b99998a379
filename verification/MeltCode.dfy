/** doom/f_wipe.c as it is written: loops over the screen, the two images and the column tops. */
module MeltCode {
  import opened Arith
  import opened Raster
  import opened Melt

  /** The rows before y of the copy are done. */
  ghost predicate TurnedRows(w: nat, h: nat, a: seq<int>, b: seq<int>, y: nat)
    requires |a| == |b| == w * h == h * w && y <= h
  {
    forall u: nat, v: nat :: u < w && v < y ==> b[Cell(h, w, v, u)] == a[Cell(w, h, u, v)]
  }

  /** One row of the copy. */
  method TurnRow(image: seq<int>, dest: array<int>, w: nat, h: nat, y: nat)
    requires |image| == dest.Length == w * h == h * w && y < h && TurnedRows(w, h, image, dest[..], y)
    modifies dest
    ensures TurnedRows(w, h, image, dest[..], y + 1)
  {
    var x := 0;
    while x < w
      invariant x <= w && TurnedRows(w, h, image, dest[..], y)
      invariant forall u: nat :: u < x ==> dest[Cell(h, w, y, u)] == image[Cell(w, h, u, y)]
    {
      ghost var before := dest[..];
      CellIs(h, w, y, x);
      CellIs(w, h, x, y);
      dest[x * h + y] := image[y * w + x];
      forall u: nat, v: nat | u < w && v < h && Cell(h, w, v, u) == Cell(h, w, y, x)
        ensures u == x && v == y
      {
        CellApart(h, w, v, u, y, x);
      }
      x := x + 1;
    }
  }

  /** wipe_shittyColMajorXform: the rows of the image become columns. */
  method ColMajorXform(image: array<int>, w: nat, h: nat)
    requires image.Length == w * h == h * w
    modifies image
    ensures Turned(w, h, old(image[..]), image[..])
  {
    var dest := new int[w * h];
    var y := 0;
    while y < h
      invariant y <= h && TurnedRows(w, h, image[..], dest[..], y)
      invariant image[..] == old(image[..])
    {
      TurnRow(image[..], dest, w, h, y);
      y := y + 1;
    }
    forall i | 0 <= i < image.Length {
      image[i] := dest[i];
    }
    assert image[..] == dest[..];
  }

  // ----- the columns of the screen

  /** The cells of column x from row `top` on, n of them, come from s at `at`; the others are as before. */
  ghost predicate Copied(w: nat, h: nat, was: seq<int>, now: seq<int>, x: nat, top: nat, s: seq<int>, at: nat, n: nat)
    requires |was| == |now| == w * h && x < w && top + n <= h && at + n <= |s|
  {
    forall u: nat, r: nat :: u < w && r < h ==>
      now[Cell(w, h, u, r)] == if u == x && top <= r < top + n then s[at + (r - top)] else was[Cell(w, h, u, r)]
  }

  lemma CopyOne(w: nat, h: nat, was: seq<int>, now: seq<int>, x: nat, top: nat, s: seq<int>, at: nat, n: nat)
    requires |was| == |now| == w * h && x < w && top + n < h && at + n < |s|
    requires Copied(w, h, was, now, x, top, s, at, n)
    ensures Copied(w, h, was, now[Cell(w, h, x, top + n) := s[at + n]], x, top, s, at, n + 1)
  {
    var i := Cell(w, h, x, top + n);
    forall u: nat, r: nat | u < w && r < h
      ensures now[i := s[at + n]][Cell(w, h, u, r)]
           == if u == x && top <= r < top + n + 1 then s[at + (r - top)] else was[Cell(w, h, u, r)]
    {
      if Cell(w, h, u, r) == i {
        CellApart(w, h, u, r, x, top + n);
      }
    }
  }

  /** The inner loops of wipe_doMelt. */
  method CopyColumn(scr: array<int>, w: nat, h: nat, x: nat, top: nat, s: array<int>, at: nat, n: nat)
    requires scr.Length == w * h && x < w && top + n <= h && at + n <= s.Length && s != scr
    modifies scr
    ensures Copied(w, h, old(scr[..]), scr[..], x, top, s[..], at, n)
  {
    var j := 0;
    while j < n
      invariant j <= n && Copied(w, h, old(scr[..]), scr[..], x, top, s[..], at, j)
    {
      CopyOne(w, h, old(scr[..]), scr[..], x, top, s[..], at, j);
      ghost var before := scr[..];
      CellIs(w, h, x, top + j);
      scr[(top + j) * w + x] := s[at + j];
      assert scr[..] == before[Cell(w, h, x, top + j) := s[at + j]];
      j := j + 1;
    }
  }

  /** The cells of column x in an image kept by columns. */
  lemma ColumnOf(w: nat, h: nat, image: seq<int>, columns: seq<int>, x: nat, r: nat)
    requires Turned(w, h, image, columns) && x < w && r < h
    ensures x * h + r < |columns| && columns[x * h + r] == image[Cell(w, h, x, r)]
  {
    CellIs(h, w, r, x);
  }

  /** Copying the new image down to row z and the old one below z moves column x from y to z. */
  lemma ColumnMoved(w: nat, h: nat, s0: seq<int>, s1: seq<int>, s2: seq<int>, from: seq<int>, to: seq<int>,
                    start: seq<int>, end: seq<int>, x: nat, base: nat, y: nat, z: nat)
    requires |s0| == |s1| == |s2| == w * h && Turned(w, h, from, start) && Turned(w, h, to, end) && x < w && y < z <= h
    requires base == x * h && base + h <= w * h
    requires Copied(w, h, s0, s1, x, y, end, base + y, z - y)
    requires Copied(w, h, s1, s2, x, z, start, base, h - z)
    requires Column(w, h, s0, from, to, x, y)
    ensures Column(w, h, s2, from, to, x, z)
  {
    forall r: nat | r < h
      ensures s2[Cell(w, h, x, r)] == Shown(w, h, from, to, x, z, r)
    {
      assert s0[Cell(w, h, x, r)] == Shown(w, h, from, to, x, y, r);
      CopiedAt(w, h, s0, s1, x, y, end, base + y, z - y, r);
      CopiedAt(w, h, s1, s2, x, z, start, base, h - z, r);
      if r >= z {
        ColumnOf(w, h, from, start, x, r - z);
      } else if r >= y {
        ColumnOf(w, h, to, end, x, r);
      }
    }
  }

  lemma CopiedAt(w: nat, h: nat, was: seq<int>, now: seq<int>, x: nat, top: nat, s: seq<int>, at: nat, n: nat, r: nat)
    requires |was| == |now| == w * h && x < w && top + n <= h && at + n <= |s| && r < h
    requires Copied(w, h, was, now, x, top, s, at, n)
    ensures now[Cell(w, h, x, r)] == if top <= r < top + n then s[at + (r - top)] else was[Cell(w, h, x, r)]
  {
  }

  lemma OthersStay(w: nat, h: nat, was: seq<int>, now: seq<int>, from: seq<int>, to: seq<int>,
                   x: nat, top: nat, s: seq<int>, at: nat, n: nat, u: nat, yu: int)
    requires |was| == |now| == w * h && x < w && top + n <= h && at + n <= |s|
    requires Copied(w, h, was, now, x, top, s, at, n)
    requires |from| == |to| == w * h && u < w && u != x && Column(w, h, was, from, to, u, yu)
    ensures Column(w, h, now, from, to, u, yu)
  {
  }

  /** All columns after the two copies. */
  lemma ColumnsMoved(w: nat, h: nat, s0: seq<int>, s1: seq<int>, s2: seq<int>, from: seq<int>, to: seq<int>,
                     start: seq<int>, end: seq<int>, ys: seq<int>, x: nat, base: nat, z: nat)
    requires Columns(w, h, s0, from, to, ys) && |s1| == |s2| == w * h && x < w && 0 <= ys[x] < z <= h
    requires Turned(w, h, from, start) && Turned(w, h, to, end) && base == x * h && base + h <= w * h
    requires Copied(w, h, s0, s1, x, ys[x], end, base + ys[x], z - ys[x])
    requires Copied(w, h, s1, s2, x, z, start, base, h - z)
    ensures Columns(w, h, s2, from, to, ys[x := z])
  {
    ColumnMoved(w, h, s0, s1, s2, from, to, start, end, x, base, ys[x], z);
    forall u: nat | u < w && u != x
      ensures ys[u] <= h && Column(w, h, s2, from, to, u, ys[u])
    {
      OthersStay(w, h, s0, s1, from, to, x, ys[x], end, base + ys[x], z - ys[x], u, ys[u]);
      OthersStay(w, h, s1, s2, from, to, x, z, start, base, h - z, u, ys[u]);
    }
  }

  lemma Waiting(w: nat, h: nat, scr: seq<int>, from: seq<int>, to: seq<int>, ys: seq<int>, x: nat)
    requires Columns(w, h, scr, from, to, ys) && x < w && ys[x] < 0
    ensures Columns(w, h, scr, from, to, ys[x := ys[x] + 1])
  {
    forall r: nat | r < h
      ensures scr[Cell(w, h, x, r)] == Shown(w, h, from, to, x, ys[x] + 1, r)
    {
      assert scr[Cell(w, h, x, r)] == Shown(w, h, from, to, x, ys[x], r);
    }
  }

  /** The delays of wipe_initMelt: none longer than 15 ticks, neighbours at most one tick apart. */
  ghost predicate Delays(ys: seq<int>) {
    && (forall i :: 0 <= i < |ys| ==> -15 <= ys[i] <= 0)
    && forall i, j :: 0 <= i < |ys| && j == i + 1 < |ys| ==> ys[i] - 1 <= ys[j] <= ys[i] + 1
  }

  /** The random numbers decide: the first delay is one of sixteen, each next one differs by -1, 0 or 1 from the one
      before, as far as the range allows. */
  ghost predicate Drawn(ys: seq<int>, random: seq<int>)
    requires |ys| <= |random|
  {
    && (|ys| > 0 ==> ys[0] == -(random[0] % 16))
    && forall i, j :: 0 <= i < |ys| && j == i + 1 < |ys| ==> ys[j] == Max(-15, Min(0, ys[i] + random[j] % 3 - 1))
  }

  /** The next delay after y. */
  function NextDelay(y: int, random: int): int { Max(-15, Min(0, y + random % 3 - 1)) }

  lemma DrawOne(ys: seq<int>, random: seq<int>, z: int)
    requires 0 < |ys| < |random| && Delays(ys) && Drawn(ys, random) && z == NextDelay(ys[|ys| - 1], random[|ys|])
    ensures Delays(ys + [z]) && Drawn(ys + [z], random)
  {
  }

  class Wipe {
    const w: nat                                // half the width: the unit is a pair of pixels
    const h: nat
    const start: array<int>
    const end: array<int>
    const scr: array<int>
    const y: array<int>
    ghost var from: seq<int>                    // the two images, row by row
    ghost var to: seq<int>

    ghost predicate Shaped() {
      && h >= 1 && w >= 1 && start.Length == end.Length == scr.Length == w * h == h * w
      && y.Length == 2 * w
      && start != end && start != scr && end != scr && y != start && y != end && y != scr
    }

    ghost predicate Valid()
      reads this, start, end, scr, y
    {
      && Shaped()
      && Turned(w, h, from, start[..]) && Turned(w, h, to, end[..])
      && Columns(w, h, scr[..], from, to, y[..])
    }

    constructor (w: nat, h: nat, start: array<int>, end: array<int>, scr: array<int>)
      requires h >= 1 && w >= 1 && start.Length == end.Length == scr.Length == w * h
      requires start != end && start != scr && end != scr
      ensures Shaped() && fresh(y) && this.start == start && this.end == end && this.scr == scr
      ensures this.w == w && this.h == h
    {
      assert w * h == h * w;
      this.w, this.h, this.start, this.end, this.scr := w, h, start, end, scr;
      y := new int[2 * w];
    }

    /** wipe_initMelt, with the answers of M_Random. */
    method InitMelt(random: seq<int>)
      requires Shaped() && |random| == y.Length && forall i :: 0 <= i < |random| ==> 0 <= random[i]
      modifies this, start, end, scr, y
      ensures Valid() && from == old(start[..]) && to == old(end[..]) && scr[..] == from
      ensures Delays(y[..]) && Drawn(y[..], random)
    {
      from, to := start[..], end[..];
      forall i | 0 <= i < scr.Length {
        scr[i] := start[i];
      }
      assert scr[..] == from;
      ColMajorXform(start, w, h);
      ColMajorXform(end, w, h);
      SetDelays(random);
    }

    /** The initial column positions. */
    method SetDelays(random: seq<int>)
      requires Shaped() && |random| == y.Length && forall i :: 0 <= i < |random| ==> 0 <= random[i]
      modifies y
      ensures Delays(y[..]) && Drawn(y[..], random)
    {
      y[0] := -(random[0] % 16);
      var i := 1;
      while i < y.Length
        invariant 1 <= i <= y.Length && Delays(y[..i]) && Drawn(y[..i], random)
      {
        ghost var ys := y[..i];
        assert y[i - 1] == ys[i - 1];
        var r := random[i] % 3 - 1;
        y[i] := y[i - 1] + r;
        if y[i] > 0 {
          y[i] := 0;
        } else if y[i] == -16 {
          y[i] := -15;
        }
        DrawOne(ys, random, y[i]);
        assert y[..i + 1] == ys + [y[i]];
        i := i + 1;
      }
      assert y[..y.Length] == y[..];
    }

    /** The body of the inner loop of wipe_doMelt. */
    method MeltColumn(x: nat) returns (moved: bool)
      requires Valid() && x < w
      modifies scr, y
      ensures Valid() && moved == (old(y[x]) < h)
      ensures y[..] == old(y[..])[x := StepY(old(y[x]), h)]
    {
      moved := false;
      if y[x] < 0 {
        Waiting(w, h, scr[..], from, to, y[..], x);
        y[x] := y[x] + 1;
        moved := true;
      } else if y[x] < h {
        var dy := if y[x] < 16 then y[x] + 1 else 8;
        if y[x] + dy >= h {
          dy := h - y[x];
        }
        SlideColumn(x, y[x], dy);
        y[x] := y[x] + dy;
        moved := true;
      }
    }

    /** The two copies: dy rows of the new image from row top on, and the old one below. */
    method SlideColumn(x: nat, top: nat, dy: nat)
      requires Valid() && x < w && y[x] == top && 0 < dy && top + dy <= h
      modifies scr
      ensures Columns(w, h, scr[..], from, to, y[..][x := top + dy])
    {
      MulGap(x, w, h);
      ghost var s0 := scr[..];
      CopyColumn(scr, w, h, x, top, end, x * h + top, dy);
      ghost var s1 := scr[..];
      CopyColumn(scr, w, h, x, top + dy, start, x * h, h - (top + dy));
      ColumnsMoved(w, h, s0, s1, scr[..], from, to, start[..], end[..], y[..], x, x * h, top + dy);
    }

    /** One tick for every column. */
    method Tick() returns (still: bool)
      requires Valid()
      modifies scr, y
      ensures Valid() && still == (forall x: nat :: x < w ==> old(y[x]) >= h)
      ensures forall x: nat :: x < w ==> y[x] == StepY(old(y[x]), h)
    {
      still := true;
      var i := 0;
      while i < w
        invariant i <= w && Valid()
        invariant forall x: nat :: x < w ==> y[x] == if x < i then StepY(old(y[x]), h) else old(y[x])
        invariant still == (forall x: nat :: x < i ==> old(y[x]) >= h)
      {
        ghost var ys := y[..];
        var moved := MeltColumn(i);
        assert forall x: nat :: x < w ==> y[x] == if x == i then StepY(ys[i], h) else ys[x];
        if moved {
          still := false;
        }
        i := i + 1;
      }
    }

    /** wipe_doMelt: done when there was nothing left to move. */
    method DoMelt(ticks: nat) returns (done: bool)
      requires Valid()
      modifies scr, y
      ensures Valid() && forall x: nat :: x < w ==> y[x] == MeltY(old(y[x]), h, ticks)
      ensures done <==> ticks == 0 || forall x: nat :: x < w ==> old(y[x]) >= h
      ensures done && ticks > 0 ==> scr[..] == to
    {
      done := true;
      var k := 0;
      while k < ticks
        invariant k <= ticks && Valid()
        invariant forall x: nat :: x < w ==> y[x] == MeltY(old(y[x]), h, k)
        invariant done <==> k == 0 || forall x: nat :: x < w ==> old(y[x]) >= h
      {
        if done {
          forall x: nat | x < w && old(y[x]) >= h
            ensures MeltY(old(y[x]), h, k) == old(y[x])
          {
            StaysFinished(old(y[x]), h, k);
          }
        }
        var still := Tick();
        if !still {
          done := false;
        }
        k := k + 1;
      }
      if done && ticks > 0 {
        forall x: nat | x < w
          ensures y[x] >= h
        {
          StaysFinished(old(y[x]), h, ticks);
        }
        AllFinished(w, h, scr[..], from, to, y[..]);
      }
    }

    /** The loop of D_Display with wipe_ScreenWipe: however the ticks arrive, one or more at a time, the melt
        is over within a fixed number of calls and leaves the new image on the screen. */
    method Display(random: seq<int>, ticks: seq<nat>) returns (calls: nat)
      requires Shaped() && |random| == y.Length && forall i :: 0 <= i < |random| ==> 0 <= random[i]
      requires |ticks| > Bound(h) && forall i :: 0 <= i < |ticks| ==> ticks[i] >= 1
      modifies this, start, end, scr, y
      ensures calls <= Bound(h) + 1
      ensures scr[..] == old(end[..])
    {
      InitMelt(random);
      calls := 0;
      ghost var ys, total: nat := y[..], 0;
      var done := false;
      while !done
        invariant Valid() && to == old(end[..]) && |ys| >= w && Delays(ys) && calls <= total
        invariant forall x: nat :: x < w ==> y[x] == MeltY(ys[x], h, total)
        invariant if done then scr[..] == to && calls <= Bound(h) + 1 else calls <= Bound(h)
        decreases !done, Bound(h) - calls
      {
        ghost var before := y[..];
        done := DoMelt(ticks[calls]);
        if !done {
          ghost var x: nat :| x < w && before[x] < h;
          FinishedAfter(ys[x], h, total);
          MeltBound(ys[x], h);
        }
        forall x: nat | x < w
          ensures y[x] == MeltY(ys[x], h, total + ticks[calls])
        {
          MeltCompose(ys[x], h, total, ticks[calls]);
        }
        total := total + ticks[calls];
        calls := calls + 1;
      }
    }
  }
}
