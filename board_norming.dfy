/** Turning a board to one player's point of view (board_norming.py).

    A board is a rectangular grid of cell values; `Rot90` is numpy's
    `rot90` with `k = 1` (a quarter turn counter-clockwise), so the corner
    at the top right moves to the top left. The corners are listed top
    left, top right, bottom right, bottom left, and turning by `k`
    quarters brings corner `k` of that list to the top left. */
module BoardNorming {
  import opened Common

  /** A numpy matrix with at least one cell: every row as long as the first. */
  predicate IsRect(b: Grid) {
    |b| >= 1 && |b[0]| >= 1 && forall i :: 0 <= i < |b| ==> |b[i]| == |b[0]|
  }

  function Width(b: Grid): nat
    requires |b| >= 1
  {
    |b[0]|
  }

  /** The four corner cells, clockwise from the top left. */
  function Corners(b: Grid): (c: seq<int>)
    requires IsRect(b)
    ensures |c| == 4
  {
    [b[0][0], b[0][Width(b) - 1], b[|b| - 1][Width(b) - 1], b[|b| - 1][0]]
  }

  /** `corner_pids.index(p)`, or 0 when `p` is in no corner. */
  function CornerIndex(b: Grid, p: int): (k: nat)
    requires IsRect(b)
    ensures k < 4
    ensures p in Corners(b) ==> Corners(b)[k] == p && forall j :: 0 <= j < k ==> Corners(b)[j] != p
    ensures p !in Corners(b) ==> k == 0
  {
    var c := Corners(b);
    if c[0] == p then 0
    else if c[1] == p then 1
    else if c[2] == p then 2
    else if c[3] == p then 3
    else 0
  }

  /** A quarter turn counter-clockwise: row `i` of the result is column
      `w - 1 - i` of the board, read top to bottom. */
  function Rot90(b: Grid): (r: Grid)
    requires IsRect(b)
    ensures IsRect(r) && |r| == Width(b) && Width(r) == |b|
  {
    var w := Width(b);
    seq(w, i requires 0 <= i < w => seq(|b|, j requires 0 <= j < |b| => b[j][w - 1 - i]))
  }

  /** `np.rot90(b, k)`: `k` quarter turns. */
  function RotateK(b: Grid, k: nat): (r: Grid)
    requires IsRect(b)
    ensures IsRect(r)
  {
    if k == 0 then b else Rot90(RotateK(b, k - 1))
  }

  /** An even number of quarter turns keeps the dimensions; an odd one
      swaps them. */
  lemma {:induction false} RotateKDims(b: Grid, k: nat)
    requires IsRect(b)
    ensures k % 2 == 0 ==> |RotateK(b, k)| == |b| && Width(RotateK(b, k)) == Width(b)
    ensures k % 2 == 1 ==> |RotateK(b, k)| == Width(b) && Width(RotateK(b, k)) == |b|
  {
    if k > 0 {
      RotateKDims(b, k - 1);
    }
  }

  /** `rotate_board_to_perspective`: turn the corner holding `p` to the top left. */
  function Rotate(b: Grid, p: int): (r: Grid)
    requires IsRect(b)
    ensures IsRect(r)
  {
    RotateK(b, CornerIndex(b, p))
  }

  /** `RelabelCell`: the value of one cell after `(v + (4 - p)) mod 4`
      (numpy's `mod` takes the sign of the divisor), empty cells kept. */
  function RelabelCell(v: int, p: int): (r: int)
    ensures -1 <= r <= 3
    ensures r == -1 <==> v == -1
  {
    if v == -1 then -1 else (v + (4 - p)) % 4
  }

  function Relabel(b: Grid, p: int): (r: Grid)
    ensures |r| == |b| && forall i :: 0 <= i < |b| ==> |r[i]| == |b[i]|
    ensures CellsInRange(r)
  {
    seq(|b|, i requires 0 <= i < |b| => seq(|b[i]|, j requires 0 <= j < |b[i]| => RelabelCell(b[i][j], p)))
  }

  /** `normalize_board_to_perspective`: renumber the colours so that `p`
      becomes 0, then turn the corner holding 0 to the top left. */
  function Normalize(b: Grid, p: int): (r: Grid)
    requires IsRect(b)
    ensures IsRect(r) && CellsInRange(r)
  {
    RotateInRange(Relabel(b, p), 0);
    Rotate(Relabel(b, p), 0)
  }

  // ---------------------------------------------------------------------
  // turning

  /** A quarter turn moves every corner one place along the list: the top
      right corner becomes the top left one, and so on. */
  lemma CornersOfRot90(b: Grid)
    requires IsRect(b)
    ensures Corners(Rot90(b)) == Corners(b)[1..] + [Corners(b)[0]]
  {
  }

  /** After `k` quarter turns the corner list has moved `k` places. */
  lemma {:induction false} CornersOfRotateK(b: Grid, k: nat)
    requires IsRect(b) && k < 4
    ensures Corners(RotateK(b, k)) == Corners(b)[k..] + Corners(b)[..k]
  {
    if k > 0 {
      CornersOfRotateK(b, k - 1);
      CornersOfRot90(RotateK(b, k - 1));
    }
  }

  /** The corner holding `p` ends at the top left; a board with `p` in
      no corner is returned unturned. */
  lemma RotateCorner(b: Grid, p: int)
    requires IsRect(b)
    ensures p in Corners(b) ==> Rotate(b, p)[0][0] == p
    ensures p !in Corners(b) ==> Rotate(b, p) == b
  {
    var k := CornerIndex(b, p);
    CornersOfRotateK(b, k);
    if p in Corners(b) {
      assert Rotate(b, p)[0][0] == Corners(RotateK(b, k))[0] == Corners(b)[k];
    }
  }

  /** Turning twice to the same perspective turns only once. */
  lemma RotateIdempotent(b: Grid, p: int)
    requires IsRect(b)
    ensures Rotate(Rotate(b, p), p) == Rotate(b, p)
  {
    RotateCorner(b, p);
  }

  /** Two quarter turns: the cell at `(i, j)` comes from the opposite position. */
  lemma Rot180(b: Grid)
    requires IsRect(b)
    ensures var r := RotateK(b, 2);
            |r| == |b| && Width(r) == Width(b) &&
            forall i, j :: 0 <= i < |b| && 0 <= j < Width(b) ==> r[i][j] == b[|b| - 1 - i][Width(b) - 1 - j]
  {
    var q := Rot90(b);
    assert RotateK(b, 2) == Rot90(q) by { assert RotateK(b, 1) == q; }
    forall i, j | 0 <= i < |b| && 0 <= j < Width(b)
      ensures Rot90(q)[i][j] == b[|b| - 1 - i][Width(b) - 1 - j]
    {
      assert Rot90(q)[i][j] == q[j][|b| - 1 - i];
    }
  }

  /** Four quarter turns give back the board, so a quarter turn only
      moves cells around (three more turns undo it). */
  lemma {:induction false} RotateFour(b: Grid)
    requires IsRect(b)
    ensures RotateK(b, 4) == b
  {
    var h := RotateK(b, 2);
    Rot180(b);
    Rot180(h);
    assert RotateK(b, 4) == RotateK(h, 2) by { RotateKAdd(b, 2, 2); }
    var r := RotateK(h, 2);
    forall i | 0 <= i < |b|
      ensures r[i] == b[i]
    {
      assert |r[i]| == Width(b) == |b[i]|;
      forall j | 0 <= j < Width(b)
        ensures r[i][j] == b[i][j]
      {
        assert r[i][j] == h[|b| - 1 - i][Width(b) - 1 - j];
      }
    }
  }

  /** Turning `m` times and then `k` times is turning `m + k` times. */
  lemma {:induction false} RotateKAdd(b: Grid, m: nat, k: nat)
    requires IsRect(b)
    ensures RotateK(RotateK(b, m), k) == RotateK(b, m + k)
  {
    if k > 0 {
      RotateKAdd(b, m, k - 1);
      assert RotateK(RotateK(b, m), k) == Rot90(RotateK(RotateK(b, m), k - 1));
      assert RotateK(b, m + k) == Rot90(RotateK(b, m + k - 1));
    }
  }

  // ---------------------------------------------------------------------
  // the cells a turn moves around

  /** Every cell value of the board, counted with multiplicity. */
  function Cells(b: Grid): multiset<int> {
    CellsOfRows(b, |b|)
  }

  /** The cells of rows `0 .. m - 1`. */
  function CellsOfRows(b: Grid, m: nat): multiset<int>
    requires m <= |b|
  {
    if m == 0 then multiset{} else CellsOfRows(b, m - 1) + multiset(b[m - 1])
  }

  /** Column `c`, read top to bottom. */
  function Column(b: Grid, c: nat): (col: seq<int>)
    requires IsRect(b) && c < Width(b)
    ensures |col| == |b|
  {
    seq(|b|, j requires 0 <= j < |b| => b[j][c])
  }

  /** The cells of columns `0 .. n - 1`. */
  function CellsOfCols(b: Grid, n: nat): multiset<int>
    requires IsRect(b) && n <= Width(b)
  {
    if n == 0 then multiset{} else CellsOfCols(b, n - 1) + multiset(Column(b, n - 1))
  }

  /** The cells of the top-left `m` by `n` block, row by row. */
  function Block(b: Grid, m: nat, n: nat): multiset<int>
    requires IsRect(b) && m <= |b| && n <= Width(b)
  {
    if m == 0 then multiset{} else Block(b, m - 1, n) + multiset(b[m - 1][..n])
  }

  /** Widening a block by one column adds the top of that column. */
  lemma {:induction false} BlockColumn(b: Grid, m: nat, n: nat)
    requires IsRect(b) && m <= |b| && 1 <= n <= Width(b)
    ensures Block(b, m, n) == Block(b, m, n - 1) + multiset(Column(b, n - 1)[..m])
  {
    if m > 0 {
      BlockColumn(b, m - 1, n);
      assert b[m - 1][..n] == b[m - 1][..n - 1] + [b[m - 1][n - 1]];
      assert Column(b, n - 1)[..m] == Column(b, n - 1)[..m - 1] + [b[m - 1][n - 1]];
    }
  }

  /** The full-height block of `n` columns holds the cells of those columns. */
  lemma {:induction false} BlockOfCols(b: Grid, n: nat)
    requires IsRect(b) && n <= Width(b)
    ensures Block(b, |b|, n) == CellsOfCols(b, n)
  {
    if n > 0 {
      BlockOfCols(b, n - 1);
      BlockColumn(b, |b|, n);
      assert Column(b, n - 1)[..|b|] == Column(b, n - 1);
    } else {
      BlockNoColumns(b, |b|);
    }
  }

  lemma {:induction false} BlockNoColumns(b: Grid, m: nat)
    requires IsRect(b) && m <= |b|
    ensures Block(b, m, 0) == multiset{}
  {
    if m > 0 {
      BlockNoColumns(b, m - 1);
    }
  }

  /** The full-width block of `m` rows holds the cells of those rows. */
  lemma {:induction false} BlockOfRows(b: Grid, m: nat)
    requires IsRect(b) && m <= |b|
    ensures Block(b, m, Width(b)) == CellsOfRows(b, m)
  {
    if m > 0 {
      BlockOfRows(b, m - 1);
      assert b[m - 1][..Width(b)] == b[m - 1];
    }
  }

  /** Counting by rows or by columns gives the same cells. */
  lemma CellsByColumns(b: Grid)
    requires IsRect(b)
    ensures Cells(b) == CellsOfCols(b, Width(b))
  {
    BlockOfRows(b, |b|);
    BlockOfCols(b, Width(b));
  }

  /** The first `n` rows of the turned board are the last `n` columns of
      the board. */
  lemma {:induction false} Rot90Rows(b: Grid, n: nat)
    requires IsRect(b) && n <= Width(b)
    ensures CellsOfRows(Rot90(b), n) + CellsOfCols(b, Width(b) - n) == CellsOfCols(b, Width(b))
  {
    if n > 0 {
      var r, w := Rot90(b), Width(b);
      Rot90Rows(b, n - 1);
      Rot90Row(b, n - 1);
      MoveAcross(CellsOfRows(r, n - 1), multiset(Column(b, w - n)), CellsOfCols(b, w - n), CellsOfCols(b, w));
    }
  }

  /** Moving a part `x` from one side of a union to the other. */
  lemma MoveAcross(a: multiset<int>, x: multiset<int>, c: multiset<int>, t: multiset<int>)
    requires a + (c + x) == t
    ensures (a + x) + c == t
  {
  }

  /** Row `i` of the turned board is column `w - 1 - i` of the board. */
  lemma Rot90Row(b: Grid, i: nat)
    requires IsRect(b) && i < Width(b)
    ensures Rot90(b)[i] == Column(b, Width(b) - 1 - i)
  {
  }

  /** A quarter turn keeps the multiset of cell values. */
  lemma Rot90Cells(b: Grid)
    requires IsRect(b)
    ensures Cells(Rot90(b)) == Cells(b)
  {
    Rot90Rows(b, Width(b));
    CellsByColumns(b);
  }

  /** Any number of quarter turns keeps the multiset of cell values. */
  lemma {:induction false} RotateKCells(b: Grid, k: nat)
    requires IsRect(b)
    ensures Cells(RotateK(b, k)) == Cells(b)
  {
    if k > 0 {
      RotateKCells(b, k - 1);
      Rot90Cells(RotateK(b, k - 1));
    }
  }

  /** `rotate_board_to_perspective` only moves cells: the dimensions of a
      square board and the multiset of its cell values are kept. */
  lemma RotatePreserves(b: Grid, p: int)
    requires IsRect(b)
    ensures |b| == Width(b) ==> |Rotate(b, p)| == |b| && Width(Rotate(b, p)) == Width(b)
    ensures Cells(Rotate(b, p)) == Cells(b)
  {
    RotateKDims(b, CornerIndex(b, p));
    RotateKCells(b, CornerIndex(b, p));
  }

  lemma {:induction false} RotateInRange(b: Grid, p: int)
    requires IsRect(b) && CellsInRange(b)
    ensures CellsInRange(Rotate(b, p))
  {
    RotateKInRange(b, CornerIndex(b, p));
  }

  /** Turning keeps every cell value in -1..3. */
  lemma {:induction false} RotateKInRange(b: Grid, k: nat)
    requires IsRect(b) && CellsInRange(b)
    ensures CellsInRange(RotateK(b, k))
  {
    if k > 0 {
      RotateKInRange(b, k - 1);
    }
  }

  // ---------------------------------------------------------------------
  // renumbering

  /** Seat `p` becomes 0, the seat after it 1, and so on around the table. */
  lemma RelabelOrder(p: int, d: int)
    requires 0 <= p <= 3 && 0 <= d <= 3
    ensures RelabelCell((p + d) % 4, p) == d
  {
  }

  /** Distinct cell values stay distinct, so renumbering loses nothing. */
  lemma RelabelInjective(v: int, w: int, p: int)
    requires -1 <= v <= 3 && -1 <= w <= 3
    requires RelabelCell(v, p) == RelabelCell(w, p)
    ensures v == w
  {
  }

  /** Renumbering from `-p` undoes renumbering from `p`. */
  lemma RelabelInverse(b: Grid, p: int)
    requires CellsInRange(b)
    ensures Relabel(Relabel(b, p), -p) == b
  {
    var r := Relabel(Relabel(b, p), -p);
    forall i | 0 <= i < |b|
      ensures r[i] == b[i]
    {
      forall j | 0 <= j < |b[i]|
        ensures r[i][j] == b[i][j]
      {
        var v := b[i][j];
        if v != -1 {
          var u := (v + (4 - p)) % 4;
          assert (u + (4 + p)) % 4 == v by { ModShift(v, p); }
        }
      }
    }
  }

  lemma ModShift(v: int, p: int)
    requires 0 <= v <= 3
    ensures ((v + (4 - p)) % 4 + (4 + p)) % 4 == v
  {
    var u := (v + (4 - p)) % 4;
    var q := (v + (4 - p)) / 4;
    assert v + 4 - p == 4 * q + u;
    assert u + 4 + p == 4 * (2 - q) + v;
  }

  /** Renumbering from 0 changes no cell of a board over -1..3. */
  lemma RelabelZero(b: Grid)
    requires CellsInRange(b)
    ensures Relabel(b, 0) == b
  {
    var r := Relabel(b, 0);
    forall i | 0 <= i < |b|
      ensures r[i] == b[i]
    {
      forall j | 0 <= j < |b[i]|
        ensures r[i][j] == b[i][j]
      {
      }
    }
  }

  /** Renumbering and a quarter turn commute. */
  lemma RelabelRot90(b: Grid, p: int)
    requires IsRect(b)
    ensures IsRect(Relabel(b, p))
    ensures Rot90(Relabel(b, p)) == Relabel(Rot90(b), p)
  {
    var x := Rot90(Relabel(b, p));
    var y := Relabel(Rot90(b), p);
    forall i | 0 <= i < |x|
      ensures x[i] == y[i]
    {
    }
  }

  /** Renumbering and turning commute: both act on cells independently. */
  lemma {:induction false} RelabelRotateK(b: Grid, p: int, k: nat)
    requires IsRect(b)
    ensures IsRect(Relabel(b, p))
    ensures RotateK(Relabel(b, p), k) == Relabel(RotateK(b, k), p)
  {
    if k > 0 {
      RelabelRotateK(b, p, k - 1);
      RelabelRot90(RotateK(b, k - 1), p);
    }
  }

  /** Renumbering moves the corner of `p` to value 0 and keeps its place
      in the corner list. */
  lemma CornerIndexRelabel(b: Grid, p: int)
    requires IsRect(b) && CellsInRange(b) && 0 <= p <= 3
    ensures IsRect(Relabel(b, p))
    ensures CornerIndex(Relabel(b, p), 0) == CornerIndex(b, p)
  {
    var c := Corners(b);
    var rc := Corners(Relabel(b, p));
    assert rc == seq(4, j requires 0 <= j < 4 => RelabelCell(c[j], p));
    forall j | 0 <= j < 4
      ensures rc[j] == 0 <==> c[j] == p
    {
      assert RelabelCell(p, p) == 0;
      if rc[j] == 0 {
        RelabelInjective(c[j], p, p);
      }
    }
  }

  /** Normalising turns the board exactly as `Rotate` does for `p`, then
      renumbers: the two steps of `normalize_board_to_perspective` give the
      same board in either order. */
  lemma NormalizeIsRotateThenRelabel(b: Grid, p: int)
    requires IsRect(b) && CellsInRange(b) && 0 <= p <= 3
    ensures Normalize(b, p) == Relabel(Rotate(b, p), p)
  {
    CornerIndexRelabel(b, p);
    RelabelRotateK(b, p, CornerIndex(b, p));
  }

  /** When `p` holds a corner, the normalised board has colour 0 at the top left. */
  lemma NormalizeCorner(b: Grid, p: int)
    requires IsRect(b) && CellsInRange(b) && 0 <= p <= 3
    requires p in Corners(b)
    ensures Normalize(b, p)[0][0] == 0
  {
    NormalizeIsRotateThenRelabel(b, p);
    RotateCorner(b, p);
  }

  /** Normalising a normalised board to seat 0 changes nothing. */
  lemma NormalizeIdempotent(b: Grid, p: int)
    requires IsRect(b)
    ensures Normalize(Normalize(b, p), 0) == Normalize(b, p)
  {
    var n := Normalize(b, p);
    RelabelZero(n);
    RotateIdempotent(Relabel(b, p), 0);
  }
}
