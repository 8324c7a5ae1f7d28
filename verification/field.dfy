/** The Tetris field (game/field.py): a 30 x 10 grid of colour codes with a
    stacking limit of 20, piece placement and removal, the drop search,
    line clearing, the game-over test and the move enumeration of a turn.

    The grid is indexed `img[row][column]`; row 0 is the bottom line. */
module Board {
  import opened Wrappers
  import opened Tetrominoes
  import Seqs

  const Width := 10
  const Height := 30
  const Limit := 20

  type Grid = seq<seq<int>>

  /** `Height` rows of `Width` cells. */
  predicate WellFormed(g: Grid)
  {
    |g| == Height && forall r :: 0 <= r < |g| ==> |g[r]| == Width
  }

  /** The state `play_turn` and the heuristics read. The evaluation list is
      not stored: every heuristic is a function of this state. */
  datatype Field = Field(img: Grid, score: int, alive: bool)

  function EmptyRow(): seq<int>
  {
    seq(Width, _ => 0)
  }

  /** `Field.__init__`: an empty 30 x 10 grid, no lines cleared, alive. */
  function NewField(): (f: Field)
    ensures WellFormed(f.img) && f.score == 0 && f.alive
    ensures forall r, c :: 0 <= r < Height && 0 <= c < Width ==> f.img[r][c] == 0
  {
    Field(seq(Height, _ => EmptyRow()), 0, true)
  }

  /** Two well-formed grids with the same cells are equal. */
  lemma GridExt(a: Grid, b: Grid)
    requires WellFormed(a) && WellFormed(b)
    requires forall i, j :: 0 <= i < Height && 0 <= j < Width ==> a[i][j] == b[i][j]
    ensures a == b
  {
    assert forall i :: 0 <= i < Height ==> a[i] == b[i];
  }

  // ---------------------------------------------------------------- regions

  /** The hit-box of `m` with lower-left corner (x, y) lies inside the grid. */
  predicate FitsIn(m: Matrix, x: int, y: int)
  {
    0 <= x && x + Cols(m) <= Width && 0 <= y && y + Rows(m) <= Height
  }

  /** Cell (i, j) of the grid lies under the hit-box of `m` at (x, y). */
  predicate Covers(m: Matrix, x: int, y: int, i: int, j: int)
  {
    y <= i < y + Rows(m) && x <= j < x + Cols(m)
  }

  /** `img[y:y+h, x:x+w] += sign * m` */
  function AddShape(img: Grid, m: Matrix, x: int, y: int, sign: int): (r: Grid)
    requires WellFormed(img) && Rectangular(m) && FitsIn(m, x, y)
    ensures WellFormed(r)
    ensures forall i, j :: 0 <= i < Height && 0 <= j < Width ==>
      r[i][j] == if Covers(m, x, y, i, j) then img[i][j] + sign * m[i - y][j - x] else img[i][j]
  {
    var r := seq(Height, i requires 0 <= i < Height =>
      seq(Width, j requires 0 <= j < Width =>
        if Covers(m, x, y, i, j) then img[i][j] + sign * m[i - y][j - x] else img[i][j]));
    assert forall i :: 0 <= i < Height ==> |r[i]| == Width;
    r
  }

  /** `(img[y:y+h, x:x+w] == m).all()` for a hit-box inside the grid. */
  predicate RegionEquals(img: Grid, m: Matrix, x: int, y: int)
    requires WellFormed(img) && Rectangular(m) && FitsIn(m, x, y)
  {
    forall i, j :: y <= i < y + Rows(m) && x <= j < x + Cols(m) ==> img[i][j] == m[i - y][j - x]
  }

  /** Every cell under the hit-box is empty. */
  predicate RegionEmpty(img: Grid, m: Matrix, x: int, y: int)
    requires WellFormed(img) && Rectangular(m) && FitsIn(m, x, y)
  {
    forall i, j :: y <= i < y + Rows(m) && x <= j < x + Cols(m) ==> img[i][j] == 0
  }

  // --------------------------------------------------------------- slicing

  /** The length of the numpy slice `[s:s + l]` along an axis of `n`
      entries, for a start `s >= 0`: the stop is clipped to the axis, and a
      start past the end gives an empty slice. */
  function SliceLen(s: int, l: nat, n: nat): (k: nat)
    requires 0 <= s
    ensures k <= l
    ensures s + l <= n ==> k == l
    ensures s + l > n ==> k == if s < n then n - s else 0
  {
    if s >= n then 0 else if s + l <= n then l else n - s
  }

  /** numpy can broadcast two axes of lengths `a` and `b` against each other
      in an element-wise operation: they are equal, or one of them is 1. */
  predicate Broadcastable(a: nat, b: nat)
  {
    a == b || a == 1 || b == 1
  }

  /** The length of a broadcast axis of two broadcastable axes. */
  function Broadcast(a: nat, b: nat): nat
  {
    if a == 1 then b else a
  }

  /** Position `i` of a broadcast axis read from an operand axis of length
      `len`: an axis of length 1 repeats its single entry. */
  function Pick(len: nat, i: nat): nat
  {
    if len == 1 then 0 else i
  }

  /** An in-place `view += operand` (or `-=`) keeps the view's shape, so each
      operand axis must equal the view's axis or be 1. */
  predicate InPlaceFits(view: nat, operand: nat)
  {
    operand == view || operand == 1
  }

  /** Rows of the view `img[y:y+h]` under the hit-box of `m`. */
  function ViewRows(m: Matrix, y: int): nat
    requires 0 <= y
  {
    SliceLen(y, Rows(m), Height)
  }

  /** Columns of the view `img[:, x:x+w]` under the hit-box of `m`. */
  function ViewCols(m: Matrix, x: int): nat
    requires 0 <= x
  {
    SliceLen(x, Cols(m), Width)
  }

  /** `img[y:y+h, x:x+w] == m` broadcasts. */
  predicate Comparable(m: Matrix, x: int, y: int)
    requires 0 <= x && 0 <= y
  {
    Broadcastable(ViewRows(m, y), Rows(m)) && Broadcastable(ViewCols(m, x), Cols(m))
  }

  /** `img[y:y+h, x:x+w] -= m` broadcasts into the view. */
  predicate Subtractable(m: Matrix, x: int, y: int)
    requires 0 <= x && 0 <= y
  {
    InPlaceFits(ViewRows(m, y), Rows(m)) && InPlaceFits(ViewCols(m, x), Cols(m))
  }

  /** `(img[y:y+h, x:x+w] == m).all()` under numpy broadcasting: every entry
      of the broadcast comparison holds. An empty broadcast result is
      vacuously all-true. */
  predicate BroadcastEqual(img: Grid, m: Matrix, x: int, y: int)
    requires WellFormed(img) && Rectangular(m) && 0 <= x && 0 <= y && Comparable(m, x, y)
  {
    var rows := ViewRows(m, y);
    var cols := ViewCols(m, x);
    forall i, j :: 0 <= i < Broadcast(rows, Rows(m)) && 0 <= j < Broadcast(cols, Cols(m)) ==>
      img[y + Pick(rows, i)][x + Pick(cols, j)] == m[Pick(Rows(m), i)][Pick(Cols(m), j)]
  }

  /** Inside the grid the view has the shape of `m`, and the broadcast
      comparison is the cell-by-cell one. */
  lemma BroadcastInside(img: Grid, m: Matrix, x: int, y: int)
    requires WellFormed(img) && Rectangular(m) && FitsIn(m, x, y)
    ensures ViewRows(m, y) == Rows(m) && ViewCols(m, x) == Cols(m)
    ensures Comparable(m, x, y) && Subtractable(m, x, y)
    ensures BroadcastEqual(img, m, x, y) <==> RegionEquals(img, m, x, y)
  {
    if RegionEquals(img, m, x, y) {
      forall i, j | 0 <= i < Rows(m) && 0 <= j < Cols(m)
        ensures img[y + Pick(Rows(m), i)][x + Pick(Cols(m), j)] == m[Pick(Rows(m), i)][Pick(Cols(m), j)]
      {
        assert img[y + Pick(Rows(m), i)][x + Pick(Cols(m), j)] == m[Pick(Rows(m), i)][Pick(Cols(m), j)];
      }
    }
    if BroadcastEqual(img, m, x, y) {
      forall i, j | y <= i < y + Rows(m) && x <= j < x + Cols(m) ensures img[i][j] == m[i - y][j - x] {
        assert m[Pick(Rows(m), i - y)][Pick(Cols(m), j - x)] == m[i - y][j - x];
      }
    }
  }

  // ------------------------------------------------------ place and remove

  /** `place_tetromino`: asserts that the piece lies within the ten columns,
      then adds its shape into `img[y:y+h, x:x+w]`. A hit-box reaching past
      the top row clips the view: numpy refuses to add a taller shape into
      it, except that a one-row shape broadcasts into the empty view of a
      row past the top, and then nothing changes. */
  function PlaceTetromino(f: Field, t: Tet): (r: Result<Field>)
    requires WellFormed(f.img) && Valid(t) && 0 <= t.yloc
    ensures r.Err? <==> !(0 <= t.xloc <= Width - Tetrominoes.Width(t)) || (t.yloc + Tetrominoes.Height(t) > Height && Tetrominoes.Height(t) > 1)
    ensures r.Err? ==> r.error == if 0 <= t.xloc <= Width - Tetrominoes.Width(t) then ValueError else AssertionError
    ensures r.Ok? ==> r.value.score == f.score && r.value.alive == f.alive
    ensures r.Ok? && t.yloc + Tetrominoes.Height(t) <= Height ==>
      FitsIn(GetShape(t), t.xloc, t.yloc) && r.value.img == AddShape(f.img, GetShape(t), t.xloc, t.yloc, 1)
    ensures r.Ok? && t.yloc + Tetrominoes.Height(t) > Height ==> r.value == f
  {
    var m := GetShape(t);
    var x := t.xloc;
    var y := t.yloc;
    if !(x >= 0 && x < 10 - Tetrominoes.Width(t) + 1) then Err(AssertionError)
    else if !InPlaceFits(ViewRows(m, y), Rows(m)) then Err(ValueError)
    else if ViewRows(m, y) == Rows(m) then Ok(f.(img := AddShape(f.img, m, x, y, 1)))
    else Ok(f)
  }

  /** `remove_tetromino`: asserts that the cells under the piece hold its
      shape, then subtracts it. Both steps go through numpy broadcasting.
      A view whose shape cannot be broadcast against the piece makes the
      comparison raise; a one-row view compared with a taller piece is
      compared with every row of it; the subtraction then needs the piece
      to fit the view, and into an empty view it changes nothing. */
  function RemoveTetromino(f: Field, t: Tet): (r: Result<Field>)
    requires WellFormed(f.img) && Valid(t) && 0 <= t.xloc && 0 <= t.yloc
    ensures r.Ok? <==>
      Comparable(GetShape(t), t.xloc, t.yloc) && BroadcastEqual(f.img, GetShape(t), t.xloc, t.yloc)
      && Subtractable(GetShape(t), t.xloc, t.yloc)
    ensures r.Err? ==> (r.error == AssertionError <==>
      Comparable(GetShape(t), t.xloc, t.yloc) && !BroadcastEqual(f.img, GetShape(t), t.xloc, t.yloc))
    ensures r.Err? ==> r.error == AssertionError || r.error == ValueError
    ensures FitsIn(GetShape(t), t.xloc, t.yloc) ==>
      (r.Ok? <==> RegionEquals(f.img, GetShape(t), t.xloc, t.yloc)) && (r.Err? ==> r.error == AssertionError)
    ensures r.Ok? && FitsIn(GetShape(t), t.xloc, t.yloc) ==>
      && WellFormed(r.value.img) && r.value.score == f.score && r.value.alive == f.alive
      && RegionEmpty(r.value.img, GetShape(t), t.xloc, t.yloc)
      && forall i, j :: 0 <= i < Height && 0 <= j < Width && !Covers(GetShape(t), t.xloc, t.yloc, i, j) ==>
           r.value.img[i][j] == f.img[i][j]
    ensures r.Ok? && !FitsIn(GetShape(t), t.xloc, t.yloc) ==> r.value == f
  {
    var m := GetShape(t);
    if FitsIn(m, t.xloc, t.yloc) then
      BroadcastInside(f.img, m, t.xloc, t.yloc);
      if !RegionEquals(f.img, m, t.xloc, t.yloc) then Err(AssertionError)
      else Ok(f.(img := AddShape(f.img, m, t.xloc, t.yloc, -1)))
    else if !Comparable(m, t.xloc, t.yloc) then Err(ValueError)
    else if !BroadcastEqual(f.img, m, t.xloc, t.yloc) then Err(AssertionError)
    else if !Subtractable(m, t.xloc, t.yloc) then Err(ValueError)
    else Ok(f)
  }

  /** Placing a piece over empty cells and removing it again restores the field. */
  lemma PlaceThenRemove(f: Field, t: Tet)
    requires WellFormed(f.img) && Valid(t)
    requires FitsIn(GetShape(t), t.xloc, t.yloc)
    requires RegionEmpty(f.img, GetShape(t), t.xloc, t.yloc)
    ensures PlaceTetromino(f, t).Ok?
    ensures RemoveTetromino(PlaceTetromino(f, t).value, t) == Ok(f)
  {
    var p := PlaceTetromino(f, t).value;
    var m := GetShape(t);
    assert RegionEquals(p.img, m, t.xloc, t.yloc);
    var q := RemoveTetromino(p, t).value;
    GridExt(q.img, f.img);
  }

  /** Removing a piece that lies within the ten columns and placing it back
      restores the field, also when the removal was an empty no-op past the
      top row. (Past the right edge removal can succeed where placing fails
      its assertion; see `BroadcastExamples`.) */
  lemma RemoveThenPlace(f: Field, t: Tet)
    requires WellFormed(f.img) && Valid(t) && 0 <= t.xloc && 0 <= t.yloc
    requires t.xloc + Tetrominoes.Width(t) <= Width
    requires RemoveTetromino(f, t).Ok?
    ensures PlaceTetromino(RemoveTetromino(f, t).value, t) == Ok(f)
  {
    var q := RemoveTetromino(f, t).value;
    var m := GetShape(t);
    if FitsIn(m, t.xloc, t.yloc) {
      var p := PlaceTetromino(q, t).value;
      GridExt(p.img, f.img);
    }
  }

  /** numpy's broadcasting at the top row and the right edge: a flat I one
      row past the top is placed and removed as a no-op; an O whose upper
      row is cut off compares its one visible row with both of its rows
      and fails the assertion; a vertical I one column past the right edge
      is removed as a no-op, while placing it there fails the assertion. */
  lemma BroadcastExamples()
    ensures PlaceTetromino(NewField(), Tet(I, 0, 30, 1)) == Ok(NewField())
    ensures RemoveTetromino(NewField(), Tet(I, 0, 30, 1)) == Ok(NewField())
    ensures RemoveTetromino(NewField(), Tet(O, 0, 29, 0)) == Err(AssertionError)
    ensures RemoveTetromino(NewField(), Tet(I, 10, 0, 0)) == Ok(NewField())
    ensures PlaceTetromino(NewField(), Tet(I, 10, 0, 0)) == Err(AssertionError)
  {
    var e := NewField();
    ShapesMatchTable(I);
    ShapesMatchTable(O);
    var o := GetShape(Tet(O, 0, 29, 0));
    assert e.img[29 + Pick(1, 0)][0 + Pick(2, 0)] != o[Pick(2, 0)][Pick(2, 0)];
  }

  // ------------------------------------------------------------- end of game

  /** `check_end_game`: the game is lost once row 20 holds a block; the grid
      and score stay, and a lost game never comes back to life. */
  function CheckEndGame(f: Field): (r: Field)
    requires WellFormed(f.img)
    ensures r.img == f.img && r.score == f.score
    ensures r.alive <==> f.alive && forall c :: 0 <= c < Width ==> f.img[Limit][c] == 0
  {
    if exists c :: 0 <= c < Width && f.img[20][c] != 0 then f.(alive := false) else f
  }

  // ---------------------------------------------------------- column heights

  /** `h` is one more than the highest row of column `col` holding a block,
      or 0 when the column is empty. */
  predicate IsColumnHeight(img: Grid, col: int, h: int)
    requires WellFormed(img) && 0 <= col < Width
  {
    && 0 <= h <= Height
    && (forall r :: h <= r < Height ==> img[r][col] == 0)
    && (h > 0 ==> img[h - 1][col] != 0)
  }

  /** A column has one height. */
  lemma ColumnHeightUnique(img: Grid, col: int, h1: int, h2: int)
    requires WellFormed(img) && 0 <= col < Width
    requires IsColumnHeight(img, col, h1) && IsColumnHeight(img, col, h2)
    ensures h1 == h2
  {
  }

  /** `_ground_level(col)`: scans the column from the top and returns
      `len - i` at the first block met, 0 if there is none. */
  method GroundLevel(img: Grid, col: int) returns (level: int)
    requires WellFormed(img) && 0 <= col < Width
    ensures IsColumnHeight(img, col, level)
  {
    var column := seq(Height, r requires 0 <= r < Height => img[r][col]);
    var n := |column|;
    var i := 0;
    while i < n
      invariant 0 <= i <= n
      invariant forall k :: n - i <= k < n ==> img[k][col] == 0
    {
      if column[n - i - 1] != 0 {
        return n - i;
      }
      i := i + 1;
    }
    return 0;
  }

  // -------------------------------------------------------------- dropping

  /** `valid_range(t, x)`: the piece's left edge at `x` keeps it inside the columns. */
  predicate ValidRange(t: Tet, x: int)
    requires Valid(t)
    ensures ValidRange(t, x) <==> FitsIn(GetShape(t), x, 0)
  {
    x >= 0 && x < Width - Tetrominoes.Width(t) + 1
  }

  /** The inner loop of `drop_tetromino` over one column, from row `i` up:
      `maxH` becomes the index of each block met, so it ends at the highest. */
  function TopIndexFrom(img: Grid, col: int, i: nat, maxH: int): (r: int)
    requires WellFormed(img) && 0 <= col < Width && i <= Height
    decreases Height - i
    ensures r == maxH || (i <= r < Height && img[r][col] != 0)
  {
    if i == Height then maxH
    else TopIndexFrom(img, col, i + 1, if img[i][col] != 0 then i else maxH)
  }

  /** The loop keeps `maxH` over an empty stretch, and otherwise ends at the
      highest block of the stretch. */
  lemma {:induction false} TopIndexFromHighest(img: Grid, col: int, i: nat, maxH: int)
    requires WellFormed(img) && 0 <= col < Width && i <= Height
    decreases Height - i
    ensures (forall k :: i <= k < Height ==> img[k][col] == 0) ==> TopIndexFrom(img, col, i, maxH) == maxH
    ensures (exists k :: i <= k < Height && img[k][col] != 0) ==>
      var r := TopIndexFrom(img, col, i, maxH);
      && i <= r < Height && img[r][col] != 0
      && forall k :: r < k < Height ==> img[k][col] == 0
  {
    if i < Height {
      TopIndexFromHighest(img, col, i + 1, if img[i][col] != 0 then i else maxH);
      assert (exists k :: i <= k < Height && img[k][col] != 0) ==>
        img[i][col] != 0 || exists k :: i + 1 <= k < Height && img[k][col] != 0;
    }
  }

  /** The highest row index of a block in column `col`, 0 for an empty column. */
  function TopIndex(img: Grid, col: int): (r: int)
    requires WellFormed(img) && 0 <= col < Width
    ensures 0 <= r < Height
  {
    TopIndexFrom(img, col, 0, 0)
  }

  /** The top index is one below the column height, and 0 for an empty column. */
  lemma TopIndexIsHeightLessOne(img: Grid, col: int, h: int)
    requires WellFormed(img) && 0 <= col < Width
    requires IsColumnHeight(img, col, h)
    ensures TopIndex(img, col) == if h == 0 then 0 else h - 1
  {
    TopIndexFromHighest(img, col, 0, 0);
    if h > 0 {
      assert img[h - 1][col] != 0;
    }
  }

  /** `min_h` of `drop_tetromino`: the least top index over the piece's columns. */
  function MinTop(img: Grid, x: int, w: int): (r: int)
    requires WellFormed(img) && 0 <= x && 0 < w && x + w <= Width
    ensures 0 <= r < Height
    ensures forall c :: x <= c < x + w ==> r <= TopIndex(img, c)
    ensures exists c :: x <= c < x + w && r == TopIndex(img, c)
    decreases w
  {
    var top := TopIndex(img, x);
    if w == 1 then
      assert x <= x < x + w && top == TopIndex(img, x);
      top
    else
      var rest := MinTop(img, x + 1, w - 1);
      if top <= rest then
        assert x <= x < x + w && top == TopIndex(img, x);
        top
      else
        var c :| x + 1 <= c < x + w && rest == TopIndex(img, c);
        assert x <= c < x + w && rest == TopIndex(img, c);
        rest
  }

  /** `(area * shape == 0).all()`: the shape at row `y` meets no block. */
  predicate NoOverlap(img: Grid, m: Matrix, x: int, y: int)
    requires WellFormed(img) && Rectangular(m) && FitsIn(m, x, y)
  {
    forall i, j :: y <= i < y + Rows(m) && x <= j < x + Cols(m) ==> img[i][j] * m[i - y][j - x] == 0
  }

  /** The rows `Search` tries all have room for a piece of height at most 4. */
  predicate SearchBox(img: Grid, m: Matrix, x: int)
  {
    WellFormed(img) && Rectangular(m) && Rows(m) <= 4 && 0 <= x && x + Cols(m) <= Width
  }

  /** `y` is where the drop search stops when started at `lo`: the first row
      from `lo` where the shape meets no block, or `Limit - 1` if there is none. */
  predicate IsLanding(img: Grid, m: Matrix, x: int, lo: int, y: int)
    requires SearchBox(img, m, x) && 0 <= lo <= y < Limit
  {
    || (NoOverlap(img, m, x, y) && forall y' :: lo <= y' < y ==> !NoOverlap(img, m, x, y'))
    || (y == Limit - 1 && forall y' :: lo <= y' < Limit ==> !NoOverlap(img, m, x, y'))
  }

  /** `for y in range(min_h, limit): if ...: break`, from row `y` on. */
  function Search(img: Grid, m: Matrix, x: int, lo: int, y: int): (r: int)
    requires SearchBox(img, m, x) && 0 <= lo <= y < Limit
    requires forall y' :: lo <= y' < y ==> !NoOverlap(img, m, x, y')
    decreases Limit - y
    ensures y <= r < Limit && IsLanding(img, m, x, lo, r)
  {
    if NoOverlap(img, m, x, y) then y
    else if y == Limit - 1 then y
    else Search(img, m, x, lo, y + 1)
  }

  /** The row `drop_tetromino` leaves the piece on: the search starts at the
      least column top under the piece. When every covered column already
      reaches row 20 the search range is empty and the loop variable `y` is
      read without ever being bound. */
  function LandingRow(img: Grid, t: Tet, x: int): (r: Result<int>)
    requires WellFormed(img) && Valid(t) && ValidRange(t, x)
    ensures r.Err? <==> MinTop(img, x, Tetrominoes.Width(t)) >= Limit
    ensures r.Err? ==> r.error == UnboundLocalError
    ensures r.Ok? ==> var lo := MinTop(img, x, Tetrominoes.Width(t));
      lo <= r.value < Limit && IsLanding(img, GetShape(t), x, lo, r.value)
  {
    var minH := MinTop(img, x, Tetrominoes.Width(t));
    if minH >= Limit then Err(UnboundLocalError)
    else Ok(Search(img, GetShape(t), x, minH, minH))
  }

  /** A piece within the columns whose hit-box starts below row 20 lies
      inside the grid, since it is at most four rows high: placing it succeeds. */
  lemma PlaceBelowLimit(f: Field, t: Tet)
    requires WellFormed(f.img) && Valid(t)
    requires 0 <= t.xloc <= Width - Tetrominoes.Width(t) && 0 <= t.yloc < Limit
    ensures PlaceTetromino(f, t).Ok? && WellFormed(PlaceTetromino(f, t).value.img)
  {
    assert Tetrominoes.Height(t) <= 4;
  }

  /** `drop_tetromino(t, x)`: asserts `valid_range`, moves the piece to its
      landing row at column `x`, places it, clears full lines and checks for
      the end of the game. Returns the new field and the moved piece; the
      placement itself cannot fail, since the landing row is below 20 and a
      piece is at most four rows high. */
  function DropTetromino(f: Field, t: Tet, x: int): (r: Result<(Field, Tet)>)
    requires WellFormed(f.img) && Valid(t)
    ensures !ValidRange(t, x) ==> r == Err(AssertionError)
    ensures ValidRange(t, x) ==> (r.Err? <==> LandingRow(f.img, t, x).Err?)
    ensures ValidRange(t, x) && r.Err? ==> r.error == UnboundLocalError
    ensures r.Ok? ==> ValidRange(t, x) && LandingRow(f.img, t, x).Ok?
    ensures r.Ok? ==> r.value.1 == Place(t, x, LandingRow(f.img, t, x).value)
    ensures r.Ok? ==> PlaceTetromino(f, r.value.1).Ok? && WellFormed(PlaceTetromino(f, r.value.1).value.img)
    ensures r.Ok? ==> r.value.0 == CheckEndGame(CheckClearLine(PlaceTetromino(f, r.value.1).value))
  {
    if !ValidRange(t, x) then Err(AssertionError)
    else
      var y :- LandingRow(f.img, t, x);
      var t' := Place(t, x, y);
      PlaceBelowLimit(f, t');
      var placed := PlaceTetromino(f, t');
      Ok((CheckEndGame(CheckClearLine(placed.value)), t'))
  }

  // ---------------------------------------------------------- line clearing

  /** `all(v != 0 for v in row)` */
  predicate Full(row: seq<int>)
  {
    forall c :: 0 <= c < |row| ==> row[c] != 0
  }

  /** The rows that are not full, in their order. */
  function NotFull(rows: seq<seq<int>>): (r: seq<seq<int>>)
    ensures |r| + CountFull(rows) == |rows|
    ensures forall k :: 0 <= k < |r| ==> !Full(r[k]) && r[k] in rows
  {
    if |rows| == 0 then []
    else
      var last := rows[|rows| - 1];
      var front := rows[..|rows| - 1];
      assert forall row :: row in front ==> row in rows;
      NotFull(front) + (if Full(last) then [] else [last])
  }

  /** The number of full rows. */
  function CountFull(rows: seq<seq<int>>): nat
  {
    if |rows| == 0 then 0
    else CountFull(rows[..|rows| - 1]) + (if Full(rows[|rows| - 1]) then 1 else 0)
  }

  function EmptyRows(n: nat): seq<seq<int>>
  {
    seq(n, _ => EmptyRow())
  }

  /** The loop of `check_clear_line` with rows `k - 1` down to 0 still to
      visit (it starts at `k = Limit + 1`, row `Limit`): when row `k - 1` of
      the current grid is full it is deleted, an empty row is appended on
      top and a line is counted. */
  function ClearRows(img: Grid, score: int, k: nat): (Grid, int)
    requires k <= |img|
    decreases k
  {
    if k == 0 then (img, score)
    else
      var r := k - 1;
      if Full(img[r]) then ClearRows(img[..r] + img[r + 1..] + [EmptyRow()], score + 1, r)
      else ClearRows(img, score, r)
  }

  /** With the rows below `k` still to visit, the loop drops the full ones
      among them, keeps the rest in order, tops the grid up with as many
      empty rows, and counts them. Rows are visited top-down, so a deletion
      never shifts a row still to be visited. */
  lemma {:induction false} ClearRowsDeletesFullRows(img: Grid, score: int, k: nat)
    requires k <= |img|
    decreases k
    ensures ClearRows(img, score, k) == (Cleared(img, k), score + CountFull(img[..k]))
  {
    if k == 0 {
      assert img[..k] == [] && img[k..] == img;
      assert NotFull([]) == [] && CountFull([]) == 0 && EmptyRows(0) == [];
      assert Cleared(img, k) == [] + img + [];
      assert [] + img + [] == img;
    } else {
      var r := k - 1;
      if Full(img[r]) {
        var img' := img[..r] + img[r + 1..] + [EmptyRow()];
        ClearRowsDeletesFullRows(img', score + 1, r);
        DeleteRowShape(img, r);
      } else {
        ClearRowsDeletesFullRows(img, score, r);
        KeepRowShape(img, r);
      }
    }
  }

  /** The grid once the first `k` rows are cleared: their rows that are not
      full, then the rows from `k` on, then one empty row per full row. */
  function Cleared(img: Grid, k: nat): Grid
    requires k <= |img|
  {
    NotFull(img[..k]) + img[k..] + EmptyRows(CountFull(img[..k]))
  }

  /** Deleting full row `r` and topping up leaves the rows below `r` as they
      were, and accounts for the deleted row among the first `r + 1`. */
  lemma DeleteRowShape(img: Grid, r: nat)
    requires r < |img| && Full(img[r])
    ensures var img' := img[..r] + img[r + 1..] + [EmptyRow()];
      CountFull(img'[..r]) + 1 == CountFull(img[..r + 1]) && Cleared(img', r) == Cleared(img, r + 1)
  {
    var img' := img[..r] + img[r + 1..] + [EmptyRow()];
    var c := CountFull(img[..r]);
    assert img[..r + 1][..r] == img[..r];
    assert img'[..r] == img[..r];
    assert img'[r..] == img[r + 1..] + [EmptyRow()];
    assert NotFull(img[..r + 1]) == NotFull(img[..r]);
    assert EmptyRows(c + 1) == [EmptyRow()] + EmptyRows(c);
    calc {
      NotFull(img[..r]) + img'[r..] + EmptyRows(c);
      NotFull(img[..r]) + (img[r + 1..] + [EmptyRow()]) + EmptyRows(c);
      NotFull(img[..r]) + img[r + 1..] + ([EmptyRow()] + EmptyRows(c));
    }
  }

  /** Keeping row `r` moves it from the rows still to visit to the kept ones. */
  lemma KeepRowShape(img: Grid, r: nat)
    requires r < |img| && !Full(img[r])
    ensures CountFull(img[..r]) == CountFull(img[..r + 1]) && Cleared(img, r) == Cleared(img, r + 1)
  {
    var c := CountFull(img[..r]);
    assert img[..r + 1][..r] == img[..r];
    assert NotFull(img[..r + 1]) == NotFull(img[..r]) + [img[r]];
    calc {
      NotFull(img[..r]) + img[r..] + EmptyRows(c);
      { assert img[r..] == [img[r]] + img[r + 1..]; }
      NotFull(img[..r]) + ([img[r]] + img[r + 1..]) + EmptyRows(c);
      NotFull(img[..r]) + [img[r]] + img[r + 1..] + EmptyRows(c);
    }
  }

  /** `check_clear_line`: deletes exactly the full rows among rows 0..20,
      keeps every other row in order, puts as many empty rows on top, and adds
      the number deleted to the score. The grid stays 30 x 10. */
  function CheckClearLine(f: Field): (r: Field)
    requires WellFormed(f.img)
    ensures WellFormed(r.img)
    ensures r.alive == f.alive
    ensures r.score == f.score + CountFull(f.img[..Limit + 1])
    ensures r.img == NotFull(f.img[..Limit + 1]) + f.img[Limit + 1..] + EmptyRows(CountFull(f.img[..Limit + 1]))
  {
    ClearRowsDeletesFullRows(f.img, f.score, Limit + 1);
    var (img, score) := ClearRows(f.img, f.score, Limit + 1);
    var kept := NotFull(f.img[..Limit + 1]);
    assert forall k :: 0 <= k < |kept| ==> |kept[k]| == Width by {
      forall k | 0 <= k < |kept| ensures |kept[k]| == Width {
        assert kept[k] in f.img;
      }
    }
    Field(img, score, f.alive)
  }

  // ------------------------------------------------------------------ turns

  /** The `(x, orientation)` pairs `play_turn` tries from orientation `o` on,
      in its loop order: each orientation, then each left edge that keeps the
      piece inside the columns. */
  function MovesFrom(k: Kind, o: nat): (r: seq<(int, int)>)
    decreases |Shapes(k)| - o
    ensures forall mv :: mv in r <==>
      o <= mv.1 < |Shapes(k)| && 0 <= mv.0 <= Width - Cols(Shapes(k)[mv.1])
    ensures InLoopOrder(r)
  {
    if o >= |Shapes(k)| then []
    else
      ShapeFacts(k, o);
      var here := seq(Width - Cols(Shapes(k)[o]) + 1, x => (x, o));
      assert forall x :: 0 <= x <= Width - Cols(Shapes(k)[o]) ==> here[x] == (x, o);
      var rest := MovesFrom(k, o + 1);
      var r := here + rest;
      forall a, b | 0 <= a < b < |r| ensures Before(r[a], r[b]) {
        if b >= |here| && a < |here| {
          assert r[b] in rest;
        }
      }
      r
  }

  /** Move `a` is tried before move `b`: `play_turn` loops over the
      orientations and, within one, over the columns from the left. */
  predicate Before(a: (int, int), b: (int, int))
  {
    a.1 < b.1 || (a.1 == b.1 && a.0 < b.0)
  }

  /** The moves are listed in the order `play_turn` tries them. */
  predicate InLoopOrder(moves: seq<(int, int)>)
  {
    forall a, b :: 0 <= a < b < |moves| ==> Before(moves[a], moves[b])
  }

  /** Every move `play_turn` tries, in its loop order. */
  function Moves(k: Kind): (r: seq<(int, int)>)
    ensures forall mv :: mv in r <==>
      0 <= mv.1 < |Shapes(k)| && 0 <= mv.0 <= Width - Cols(Shapes(k)[mv.1])
    ensures InLoopOrder(r)
  {
    MovesFrom(k, 0)
  }

  /** Every piece has a move: orientation 0 at the left edge. */
  lemma MovesNonEmpty(k: Kind)
    ensures (0, 0) in Moves(k) && |Moves(k)| > 0
  {
    ShapesNonEmpty(k);
    ShapeFacts(k, 0);
    assert Cols(Shapes(k)[0]) <= 4;
    var moves := MovesFrom(k, 0);
    assert (0, 0) in moves;
  }

  /** The copy of the field after a move: a fresh piece of kind `k`, turned to
      the move's orientation, dropped at its column. */
  function MoveOutcome(f: Field, k: Kind, mv: (int, int)): Result<Field>
    requires WellFormed(f.img)
  {
    var (g, _) :- DropTetromino(f, Rotate(NewTet(k), mv.1), mv.0);
    Ok(g)
  }

  /** The outcome of every move, in order. */
  function Outcomes(f: Field, k: Kind, moves: seq<(int, int)>): (r: seq<Result<Field>>)
    requires WellFormed(f.img)
    ensures |r| == |moves|
    ensures forall i :: 0 <= i < |moves| ==> r[i] == MoveOutcome(f, k, moves[i])
  {
    seq(|moves|, i requires 0 <= i < |moves| => MoveOutcome(f, k, moves[i]))
  }

  /** The bot's score for each outcome; the first failed outcome aborts. */
  function ScoreAll(outs: seq<Result<Field>>, score: Field -> real): (r: Result<seq<real>>)
    ensures r.Ok? <==> forall i :: 0 <= i < |outs| ==> outs[i].Ok?
    ensures r.Err? ==> exists i :: (0 <= i < |outs| && outs[i] == Err(r.error) &&
      forall j :: 0 <= j < i ==> outs[j].Ok?)
    ensures r.Ok? ==> |r.value| == |outs|
    ensures r.Ok? ==> forall i :: 0 <= i < |outs| ==> r.value[i] == score(outs[i].value)
  {
    if |outs| == 0 then Ok([])
    else
      var g :- outs[0];
      var rest :- ScoreAll(outs[1..], score);
      Ok([score(g)] + rest)
  }

  /** Outcome `i` scores highest, and strictly higher than every earlier one. */
  predicate FirstBest(outs: seq<Result<Field>>, score: Field -> real, i: nat)
    requires i < |outs| && forall j :: 0 <= j < |outs| ==> outs[j].Ok?
  {
    && (forall j :: 0 <= j < |outs| ==> score(outs[j].value) <= score(outs[i].value))
    && (forall j :: 0 <= j < i ==> score(outs[j].value) < score(outs[i].value))
  }

  /** `max(possible_moves, key=score)` over moves paired with their outcomes:
      the first move whose outcome scores highest, or the first failure. */
  function ChooseBest(moves: seq<(int, int)>, outs: seq<Result<Field>>, score: Field -> real): (r: Result<(int, int)>)
    requires |moves| == |outs| > 0
    ensures r.Ok? <==> forall i :: 0 <= i < |outs| ==> outs[i].Ok?
    ensures r.Ok? ==> exists i :: 0 <= i < |outs| && moves[i] == r.value && FirstBest(outs, score, i)
    ensures r.Ok? && InLoopOrder(moves) ==> exists i :: (0 <= i < |outs| && moves[i] == r.value &&
      forall j :: 0 <= j < |outs| && Before(moves[j], r.value) ==> score(outs[j].value) < score(outs[i].value))
  {
    var scores :- ScoreAll(outs, score);
    var best := Seqs.ArgMaxFirst(scores);
    assert FirstBest(outs, score, best);
    if InLoopOrder(moves) then
      FirstBestBefore(moves, outs, score, best);
      Ok(moves[best])
    else
      Ok(moves[best])
  }

  /** `play_turn` with the bot's scoring of a resulting field given as `score`:
      every move is tried on a copy of the field, and the first move with the
      largest score is returned as `(x, orientation)`. A failing drop aborts
      the turn with its error. */
  function PlayTurn(f: Field, k: Kind, score: Field -> real): (r: Result<(int, int)>)
    requires WellFormed(f.img)
    ensures var outs := Outcomes(f, k, Moves(k));
      r.Ok? <==> forall i :: 0 <= i < |outs| ==> outs[i].Ok?
    ensures var outs := Outcomes(f, k, Moves(k));
      r.Ok? ==> exists i :: 0 <= i < |outs| && Moves(k)[i] == r.value && FirstBest(outs, score, i)
    ensures var outs := Outcomes(f, k, Moves(k));
      r.Ok? ==> exists i :: (0 <= i < |outs| && Moves(k)[i] == r.value &&
        forall j :: 0 <= j < |outs| && Before(Moves(k)[j], r.value) ==> score(outs[j].value) < score(outs[i].value))
  {
    MovesNonEmpty(k);
    var moves := Moves(k);
    var outs := Outcomes(f, k, moves);
    ChooseBest(moves, outs, score)
  }

  /** In loop order every move listed before the first best one scores lower. */
  lemma FirstBestBefore(moves: seq<(int, int)>, outs: seq<Result<Field>>, score: Field -> real, i: nat)
    requires |moves| == |outs| && i < |outs|
    requires forall l :: 0 <= l < |outs| ==> outs[l].Ok?
    requires InLoopOrder(moves) && FirstBest(outs, score, i)
    ensures forall j :: 0 <= j < |outs| && Before(moves[j], moves[i]) ==> score(outs[j].value) < score(outs[i].value)
  {
    forall j | 0 <= j < |outs| && Before(moves[j], moves[i]) ensures score(outs[j].value) < score(outs[i].value) {
      if j >= i {
        assert false;
      }
    }
  }
}
