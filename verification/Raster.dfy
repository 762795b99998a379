/** Row-major addressing of a rectangle of w columns and h rows in one array. */
module Raster {
  import opened Arith

  /** The index of column x in row y. */
  function Cell(w: nat, h: nat, x: nat, y: nat): (i: nat)
    requires x < w && y < h
    ensures i < w * h
  {
    RowsIs(w, y);
    MulGap(y, h, w);
    Rows(w, y) + x
  }

  /** The length of y rows. */
  function Rows(w: nat, y: nat): nat {
    if y == 0 then 0 else Rows(w, y - 1) + w
  }

  lemma {:induction false} RowsIs(w: nat, y: nat)
    ensures Rows(w, y) == y * w
  {
    if y > 0 {
      RowsIs(w, y - 1);
    }
  }

  lemma CellIs(w: nat, h: nat, x: nat, y: nat)
    requires x < w && y < h
    ensures Cell(w, h, x, y) == y * w + x
  {
    RowsIs(w, y);
  }

  lemma CellApart(w: nat, h: nat, x: nat, y: nat, u: nat, v: nat)
    requires x < w && y < h && u < w && v < h && Cell(w, h, x, y) == Cell(w, h, u, v)
    ensures x == u && y == v
  {
    CellIs(w, h, x, y);
    CellIs(w, h, u, v);
    DivUnique(Cell(w, h, x, y), w, y, x, v, u);
  }

  /** Every index is that of a cell. */
  lemma CellOf(w: nat, h: nat, i: nat) returns (x: nat, y: nat)
    requires i < w * h
    ensures x < w && y < h && i == Cell(w, h, x, y)
  {
    assert w > 0;
    x, y := i % w, i / w;
    assert i == y * w + x;
    if y >= h {
      MulGap(h - 1, y, w);
    }
    CellIs(w, h, x, y);
  }
}
