/** The board heuristics of evaluations.py: each maps a field to one number
    the bot weighs. They read the grid column by column through the same
    height scan, or row by row. */
module Evaluations {
  import opened Board
  import Seqs

  // ----------------------------------------------------------- column scan

  /** The heuristics' height scan of one column from row `i` on: `h`
      becomes `i + 1` at every block met, so it ends one above the highest. */
  function HeightFrom(img: Grid, col: int, i: nat, h: int): (r: int)
    requires WellFormed(img) && 0 <= col < Width && i <= Height
    decreases Height - i
  {
    if i == Height then h
    else HeightFrom(img, col, i + 1, if img[i][col] != 0 then i + 1 else h)
  }

  /** The scan's result is one above the highest block of the column at or
      above row `i`, and the running value `h` when there is none. */
  lemma {:induction false} HeightFromSpec(img: Grid, col: int, i: nat, h: int)
    requires WellFormed(img) && 0 <= col < Width && i <= Height
    decreases Height - i
    ensures (forall k :: i <= k < Height ==> img[k][col] == 0) ==> HeightFrom(img, col, i, h) == h
    ensures (exists k :: i <= k < Height && img[k][col] != 0) ==>
      var r := HeightFrom(img, col, i, h);
      i < r <= Height && img[r - 1][col] != 0 && forall k :: r <= k < Height ==> img[k][col] == 0
  {
    if i < Height {
      var h' := if img[i][col] != 0 then i + 1 else h;
      HeightFromSpec(img, col, i + 1, h');
      if img[i][col] != 0 && forall k :: i + 1 <= k < Height ==> img[k][col] == 0 {
        assert HeightFrom(img, col, i, h) == i + 1;
      }
    }
  }

  /** The height of column `col` as every heuristic computes it. It agrees
      with `_ground_level` of the field: one above the highest block, 0 for
      an empty column. */
  function ColumnHeight(img: Grid, col: int): (r: int)
    requires WellFormed(img) && 0 <= col < Width
    ensures IsColumnHeight(img, col, r)
  {
    HeightFromSpec(img, col, 0, 0);
    HeightFrom(img, col, 0, 0)
  }

  /** The ten column heights, left to right. */
  function Heights(img: Grid): (hs: seq<int>)
    requires WellFormed(img)
    ensures |hs| == Width
    ensures forall c :: 0 <= c < Width ==> hs[c] == ColumnHeight(img, c) && IsColumnHeight(img, c, hs[c])
  {
    seq(Width, c requires 0 <= c < Width => ColumnHeight(img, c))
  }

  // --------------------------------------------------------------- heights

  /** `max_height`: 1.5 times the tallest column. */
  function MaxHeight(f: Field): (r: real)
    requires WellFormed(f.img)
    ensures 0.0 <= r <= 1.5 * Height as real
    ensures forall c :: 0 <= c < Width ==> 1.5 * Heights(f.img)[c] as real <= r
    ensures exists c :: 0 <= c < Width && r == 1.5 * Heights(f.img)[c] as real
  {
    var hs := Heights(f.img);
    assert 0 <= hs[0];
    1.5 * Seqs.Max(hs) as real
  }

  /** `avg_height`: 1.5 times the mean column height. */
  function AvgHeight(f: Field): (r: real)
    requires WellFormed(f.img)
    ensures r * (Width as real) == 1.5 * Seqs.Sum(Heights(f.img)) as real
  {
    1.5 * (Seqs.Sum(Heights(f.img)) as real / Width as real)
  }

  /** The mean never exceeds the maximum. */
  lemma AvgAtMostMax(f: Field)
    requires WellFormed(f.img)
    ensures AvgHeight(f) <= MaxHeight(f)
  {
    var hs := Heights(f.img);
    var m := Seqs.Max(hs);
    Seqs.SumAtMostLengthTimesMax(hs, m);
    assert (Seqs.Sum(hs) as real) <= (Width * m) as real;
  }

  // ------------------------------------------------------------------ gaps

  /** The cells of column `col`, bottom to top. */
  function Column(img: Grid, col: int): (r: seq<int>)
    requires WellFormed(img) && 0 <= col < Width
    ensures |r| == Height && forall k :: 0 <= k < Height ==> r[k] == img[k][col]
  {
    seq(Height, k requires 0 <= k < Height => img[k][col])
  }

  /** The empty cells of column `col` below its height. */
  function ColumnGaps(img: Grid, col: int): nat
    requires WellFormed(img) && 0 <= col < Width
  {
    Seqs.CountZeros(Column(img, col)[..ColumnHeight(img, col)])
  }

  /** `empty` of `n_gaps` after the columns before `c`. */
  function GapsBefore(img: Grid, c: nat): nat
    requires WellFormed(img) && c <= Width
  {
    if c == 0 then 0 else GapsBefore(img, c - 1) + ColumnGaps(img, c - 1)
  }


  /** `n_gaps`: -3 times the empty cells lying below the top of their column.
      It is never positive, it is a multiple of 3, and it is zero exactly on a
      grid without holes. */
  function NGaps(f: Field): (r: int)
    requires WellFormed(f.img)
    ensures r <= 0 && r % 3 == 0
    ensures r == 0 <==> NoHoles(f.img)
  {
    var empty := GapsBefore(f.img, Width);
    GapsZeroIffSolidBefore(f.img, Width);
    SolidBeforeAll(f.img, Width);
    -3 * empty
  }

  /** Column `col` has no empty cell below its height. */
  predicate Solid(img: Grid, col: int)
    requires WellFormed(img) && 0 <= col < Width
  {
    forall k :: 0 <= k < ColumnHeight(img, col) ==> img[k][col] != 0
  }

  /** No column has an empty cell below its height. */
  predicate NoHoles(img: Grid)
    requires WellFormed(img)
  {
    forall c :: 0 <= c < Width ==> Solid(img, c)
  }

  /** A column counts no gaps exactly when it is solid. */
  lemma ColumnGapsZeroIffSolid(img: Grid, col: int)
    requires WellFormed(img) && 0 <= col < Width
    ensures ColumnGaps(img, col) == 0 <==> Solid(img, col)
  {
    var cells := Column(img, col)[..ColumnHeight(img, col)];
    Seqs.CountZerosNone(cells);
    assert forall k :: 0 <= k < |cells| ==> cells[k] == img[k][col];
  }

  /** None of the first `c` columns has a hole. */
  predicate SolidBefore(img: Grid, c: nat)
    requires WellFormed(img) && c <= Width
  {
    c == 0 || (SolidBefore(img, c - 1) && Solid(img, c - 1))
  }

  /** The count over the first `c` columns is zero exactly when none of them
      has a hole. */
  lemma {:induction false} GapsZeroIffSolidBefore(img: Grid, c: nat)
    requires WellFormed(img) && c <= Width
    ensures GapsBefore(img, c) == 0 <==> SolidBefore(img, c)
  {
    if c > 0 {
      GapsZeroIffSolidBefore(img, c - 1);
      ColumnGapsZeroIffSolid(img, c - 1);
      SumZeroIff(GapsBefore(img, c - 1), ColumnGaps(img, c - 1),
                 SolidBefore(img, c - 1), Solid(img, c - 1), SolidBefore(img, c));
    }
  }

  /** `SolidBefore` says every one of the first `c` columns is solid. */
  lemma {:induction false} SolidBeforeAll(img: Grid, c: nat)
    requires WellFormed(img) && c <= Width
    ensures SolidBefore(img, c) <==> forall c' :: 0 <= c' < c ==> Solid(img, c')
  {
    if c > 0 {
      SolidBeforeAll(img, c - 1);
    }
  }

  lemma SumZeroIff(a: nat, b: nat, p: bool, q: bool, both: bool)
    requires (a == 0 <==> p) && (b == 0 <==> q) && (both <==> p && q)
    ensures a + b == 0 <==> both
  {
  }

  // ------------------------------------------------------------ line score

  /** `lines_cleared`: twice the lines cleared so far. */
  function LinesCleared(f: Field): (r: int)
    ensures r % 2 == 0 && r / 2 == f.score
  {
    2 * f.score
  }

  /** Clearing lines raises `lines_cleared` by two for every full row deleted. */
  lemma LinesClearedByClearing(f: Field)
    requires WellFormed(f.img)
    ensures LinesCleared(CheckClearLine(f)) == LinesCleared(f) + 2 * CountFull(f.img[..Limit + 1])
    ensures LinesCleared(CheckClearLine(f)) >= LinesCleared(f)
  {
  }

  // -------------------------------------------------------- shape of stack

  /** `evenness`: minus the total shortfall of each column below the
      tallest. Never positive, and zero exactly when all columns are equally
      high. */
  function Evenness(f: Field): (r: int)
    requires WellFormed(f.img)
    ensures r <= 0
    ensures r == 0 <==> forall c :: 0 <= c < Width ==> Heights(f.img)[c] == Heights(f.img)[0]
  {
    var hs := Heights(f.img);
    var m := Seqs.Max(hs);
    var shortfalls := seq(Width, c requires 0 <= c < Width => m - hs[c]);
    assert forall c :: 0 <= c < Width ==> shortfalls[c] == m - hs[c];
    Seqs.SumNonNegative(shortfalls);
    assert (forall c :: 0 <= c < Width ==> hs[c] == hs[0]) ==> m == hs[0];
    -1 * Seqs.Sum(shortfalls)
  }

  /** The height differences to the existing neighbours of column `i`. */
  function Neighbors(hs: seq<int>, i: int): (r: seq<int>)
    requires 0 <= i < |hs|
    ensures |hs| >= 2 ==> |r| > 0
    ensures forall k :: 0 <= k < |r| ==>
      (0 < i && r[k] == hs[i - 1] - hs[i]) || (i < |hs| - 1 && r[k] == hs[i + 1] - hs[i])
  {
    (if i > 0 then [hs[i - 1] - hs[i]] else []) + (if i < |hs| - 1 then [hs[i + 1] - hs[i]] else [])
  }

  /** The smallest neighbour difference of every column. */
  function Bumps(hs: seq<int>): (r: seq<int>)
    requires |hs| >= 2
    ensures |r| == |hs| && forall i :: 0 <= i < |hs| ==> r[i] == Seqs.Min(Neighbors(hs, i))
  {
    seq(|hs|, i requires 0 <= i < |hs| => Seqs.Min(Neighbors(hs, i)))
  }

  /** The largest entry of `Bumps` is never negative: the lowest column has
      no neighbour below it. */
  lemma LowestColumnBump(hs: seq<int>)
    requires |hs| >= 2
    ensures Seqs.Max(Bumps(hs)) >= 0
  {
    var low := Seqs.Min(hs);
    var lowest :| 0 <= lowest < |hs| && hs[lowest] == low;
    assert Bumps(hs)[lowest] >= 0;
  }

  /** The inner part of `bumpiness` over a list of heights: -2 times the
      largest, over columns, of how far the lower neighbour rises above the
      column. */
  function BumpinessOf(hs: seq<int>): (r: int)
    requires |hs| >= 2
    ensures r <= 0
    ensures forall i :: 0 <= i < |hs| ==> r <= -2 * Seqs.Min(Neighbors(hs, i))
    ensures exists i :: 0 <= i < |hs| && r == -2 * Seqs.Min(Neighbors(hs, i))
  {
    var bumps := Bumps(hs);
    var m := Seqs.Max(bumps);
    LowestColumnBump(hs);
    -2 * m
  }

  /** `bumpiness` of the field's ten columns: never positive. */
  function Bumpiness(f: Field): (r: int)
    requires WellFormed(f.img)
    ensures r <= 0
  {
    BumpinessOf(Heights(f.img))
  }

  /** `spikiness`: -2 times the spread between the tallest and lowest
      columns. Never positive, and zero exactly when all columns are equally
      high. */
  function Spikiness(f: Field): (r: int)
    requires WellFormed(f.img)
    ensures r <= 0 && r % 2 == 0
    ensures r == 0 <==> forall c :: 0 <= c < Width ==> Heights(f.img)[c] == Heights(f.img)[0]
  {
    var hs := Heights(f.img);
    -2 * (Seqs.Max(hs) - Seqs.Min(hs))
  }

  /** Evenness and spikiness vanish together. */
  lemma EvenIffSmooth(f: Field)
    requires WellFormed(f.img)
    ensures Evenness(f) == 0 <==> Spikiness(f) == 0
  {
  }

  // ------------------------------------------------------------- row sides

  /** The inner loop of `row_sides` with a fixed `prev`: a cell counts when
      it is empty after a non-empty `prev`, and again when it is filled after
      an empty `prev`. */
  function SidesOfRow(row: seq<int>, prev: int): nat
  {
    if |row| == 0 then 0
    else
      var cell := row[0];
      (if cell == 0 && prev != 0 then 1 else 0) + (if cell != 0 && prev == 0 then 1 else 0)
        + SidesOfRow(row[1..], prev)
  }

  /** Because `prev` stays 1, a row's "sides" are its empty cells. */
  lemma {:induction false} SidesAreEmptyCells(row: seq<int>)
    ensures SidesOfRow(row, 1) == Seqs.CountZeros(row)
  {
    if |row| > 0 {
      SidesAreEmptyCells(row[1..]);
    }
  }

  /** The sum over the rows before `i`. */
  function SidesBefore(img: Grid, i: nat): nat
    requires i <= |img|
  {
    if i == 0 then 0 else SidesBefore(img, i - 1) + SidesOfRow(img[i - 1], 1)
  }

  /** The empty cells of the rows before `i`. */
  function EmptyCells(img: Grid, i: nat): nat
    requires i <= |img|
  {
    if i == 0 then 0 else EmptyCells(img, i - 1) + Seqs.CountZeros(img[i - 1])
  }

  /** Over all rows, `SidesBefore` counts empty cells. */
  lemma {:induction false} SidesBeforeAreEmptyCells(img: Grid, i: nat)
    requires i <= |img|
    ensures SidesBefore(img, i) == EmptyCells(img, i)
  {
    if i > 0 {
      SidesBeforeAreEmptyCells(img, i - 1);
      SidesAreEmptyCells(img[i - 1]);
    }
  }

  /** `row_sides`: minus the number of empty cells of the whole grid. */
  function RowSides(f: Field): (r: int)
    requires WellFormed(f.img)
    ensures r + EmptyCells(f.img, Height) == 0
    ensures -(Height * Width) <= r <= 0
  {
    SidesBeforeAreEmptyCells(f.img, Height);
    EmptyCellsBound(f.img, Height);
    -1 * SidesBefore(f.img, Height)
  }

  lemma {:induction false} EmptyCellsBound(img: Grid, i: nat)
    requires WellFormed(img) && i <= Height
    ensures EmptyCells(img, i) <= i * Width
  {
    if i > 0 {
      EmptyCellsBound(img, i - 1);
      CountZerosAtMostLength(img[i - 1]);
    }
  }

  lemma {:induction false} CountZerosAtMostLength(s: seq<int>)
    ensures Seqs.CountZeros(s) <= |s|
  {
    if |s| > 0 {
      CountZerosAtMostLength(s[1..]);
    }
  }

  /** An empty field scores -300 on `row_sides`. */
  lemma NewFieldRowSides()
    ensures RowSides(NewField()) == -(Height * Width)
  {
    var g := NewField().img;
    forall i | 0 <= i < Height ensures Seqs.CountZeros(g[i]) == Width {
      AllZerosCount(g[i]);
    }
    EmptyCellsOfEmptyRows(g, Height);
  }

  lemma {:induction false} AllZerosCount(s: seq<int>)
    requires forall k :: 0 <= k < |s| ==> s[k] == 0
    ensures Seqs.CountZeros(s) == |s|
  {
    if |s| > 0 {
      AllZerosCount(s[1..]);
    }
  }

  lemma {:induction false} EmptyCellsOfEmptyRows(img: Grid, i: nat)
    requires i <= |img|
    requires forall k :: 0 <= k < i ==> Seqs.CountZeros(img[k]) == Width
    ensures EmptyCells(img, i) == i * Width
  {
    if i > 0 {
      EmptyCellsOfEmptyRows(img, i - 1);
    }
  }

  // ------------------------------------------------------------------ death

  /** `death`: 0 while the game goes on, -9999 once it is lost. */
  function Death(f: Field): (r: int)
    ensures r == 0 || r == -9999
    ensures r == 0 <==> f.alive
  {
    if f.alive then 0 else -9999
  }

  /** After the end-of-game check, `death` is -9999 exactly when the game was
      already lost or row 20 holds a block. */
  lemma DeathAfterEndGame(f: Field)
    requires WellFormed(f.img)
    ensures Death(CheckEndGame(f)) == -9999 <==>
      !f.alive || exists c :: 0 <= c < Width && f.img[Limit][c] != 0
  {
  }
}
