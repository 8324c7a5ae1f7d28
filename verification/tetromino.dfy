/** The seven Tetris pieces (game/tetromino.py): their shape matrices per
    orientation, modular rotation, placement and per-column bottom gaps, and
    the bag that hands them out by letter or by a random index.

    A shape matrix is indexed `[row][column]`; row 0 is the row the field
    puts on its lowest line `yloc`. */
module Tetrominoes {
  import opened Wrappers

  type Matrix = seq<seq<int>>

  /** A non-empty matrix whose rows all have the same non-zero length. */
  predicate Rectangular(m: Matrix)
  {
    |m| > 0 && |m[0]| > 0 && forall i :: 0 <= i < |m| ==> |m[i]| == |m[0]|
  }

  /** `m.shape[0]` */
  function Rows(m: Matrix): nat
  {
    |m|
  }

  /** `m.shape[1]` */
  function Cols(m: Matrix): nat
  {
    if |m| == 0 then 0 else |m[0]|
  }

  /** `np.rot90(m)`: a quarter turn counter-clockwise. Entry (i, j) of the
      result is entry (j, Cols(m) - 1 - i) of `m`, so the two dimensions swap. */
  function Rot90(m: Matrix): (r: Matrix)
    requires Rectangular(m)
    ensures Rectangular(r)
    ensures Rows(r) == Cols(m) && Cols(r) == Rows(m)
  {
    var r := seq(Cols(m), i requires 0 <= i < Cols(m) =>
      seq(Rows(m), j requires 0 <= j < Rows(m) => m[j][Cols(m) - 1 - i]));
    assert forall i :: 0 <= i < |r| ==> |r[i]| == Rows(m);
    r
  }

  /** Two quarter turns are the half turn that reverses rows and columns. */
  lemma Rot90Twice(m: Matrix)
    requires Rectangular(m)
    ensures var r := Rot90(Rot90(m));
      && Rows(r) == Rows(m) && Cols(r) == Cols(m)
      && forall i, j :: 0 <= i < Rows(m) && 0 <= j < Cols(m) ==>
           r[i][j] == m[Rows(m) - 1 - i][Cols(m) - 1 - j]
  {
  }

  /** Four quarter turns give the matrix back. */
  lemma Rot90FourTimes(m: Matrix)
    requires Rectangular(m)
    ensures Rot90(Rot90(Rot90(Rot90(m)))) == m
  {
    var h := Rot90(Rot90(m));
    Rot90Twice(m);
    Rot90Twice(h);
    var r := Rot90(Rot90(h));
    assert forall i :: 0 <= i < |m| ==> r[i] == m[i];
  }

  /** `c * m` for a numpy integer array. */
  function Scale(c: int, m: Matrix): Matrix
  {
    seq(|m|, i requires 0 <= i < |m| => seq(|m[i]|, j requires 0 <= j < |m[i]| => c * m[i][j]))
  }

  /** `np.ones([h, w])` */
  function Ones(h: nat, w: nat): Matrix
  {
    seq(h, _ => seq(w, _ => 1))
  }

  /** `[m, rot90(m), rot90(rot90(m)), ...]` with `n` rotations, as the
      constructors' `for i in range(n): shapes.append(np.rot90(shapes[i]))`. */
  function Orbit(m: Matrix, n: nat): seq<Matrix>
    requires Rectangular(m)
    decreases n
  {
    if n == 0 then [m] else [m] + Orbit(Rot90(m), n - 1)
  }

  datatype Kind = I | J | L | O | S | T | Z

  /** `color_list` */
  function Color(k: Kind): int
  {
    match k
    case I => 2
    case J => 3
    case L => 4
    case O => 5
    case S => 6
    case T => 7
    case Z => 8
  }

  /** The `type` letter of each piece class. */
  function Letter(k: Kind): string
  {
    match k
    case I => "I"
    case J => "J"
    case L => "L"
    case O => "O"
    case S => "S"
    case T => "T"
    case Z => "Z"
  }

  /** `self.shapes` as each piece class's constructor builds it. */
  function Shapes(k: Kind): seq<Matrix>
  {
    var c := Color(k);
    match k
    case I => [Scale(c, Ones(4, 1)), Scale(c, Ones(1, 4))]
    case J => Orbit(Scale(c, [[1, 1], [0, 1], [0, 1]]), 3)
    case L => Orbit(Scale(c, [[1, 1], [1, 0], [1, 0]]), 3)
    case O => [Scale(c, Ones(2, 2))]
    case S => Orbit(Scale(c, [[0, 1], [1, 1], [1, 0]]), 1)
    case T => Orbit(Scale(c, [[0, 1], [1, 1], [0, 1]]), 3)
    case Z => Orbit(Scale(c, [[1, 0], [1, 1], [0, 1]]), 1)
  }

  /** The orientation tables the constructors above produce, written out. */
  function ShapeTable(k: Kind): seq<Matrix>
  {
    match k
    case I => [[[2], [2], [2], [2]], [[2, 2, 2, 2]]]
    case J => [[[3, 3], [0, 3], [0, 3]], [[3, 3, 3], [3, 0, 0]], [[3, 0], [3, 0], [3, 3]], [[0, 0, 3], [3, 3, 3]]]
    case L => [[[4, 4], [4, 0], [4, 0]], [[4, 0, 0], [4, 4, 4]], [[0, 4], [0, 4], [4, 4]], [[4, 4, 4], [0, 0, 4]]]
    case O => [[[5, 5], [5, 5]]]
    case S => [[[0, 6], [6, 6], [6, 0]], [[6, 6, 0], [0, 6, 6]]]
    case T => [[[0, 7], [7, 7], [0, 7]], [[7, 7, 7], [0, 7, 0]], [[7, 0], [7, 7], [7, 0]], [[0, 7, 0], [7, 7, 7]]]
    case Z => [[[8, 0], [8, 8], [0, 8]], [[0, 8, 8], [8, 8, 0]]]
  }

  // Entry-wise forms of `Rot90` and `Scale` for the sizes the pieces use.

  lemma Rot3x2(m: Matrix)
    requires Rectangular(m) && Rows(m) == 3 && Cols(m) == 2
    ensures Rot90(m) == [[m[0][1], m[1][1], m[2][1]], [m[0][0], m[1][0], m[2][0]]]
  {
    var r := Rot90(m);
    assert r[0] == [m[0][1], m[1][1], m[2][1]];
    assert r[1] == [m[0][0], m[1][0], m[2][0]];
  }

  lemma Rot2x3(m: Matrix)
    requires Rectangular(m) && Rows(m) == 2 && Cols(m) == 3
    ensures Rot90(m) == [[m[0][2], m[1][2]], [m[0][1], m[1][1]], [m[0][0], m[1][0]]]
  {
    var r := Rot90(m);
    assert r[0] == [m[0][2], m[1][2]];
    assert r[1] == [m[0][1], m[1][1]];
    assert r[2] == [m[0][0], m[1][0]];
  }

  lemma Rot2x2(m: Matrix)
    requires Rectangular(m) && Rows(m) == 2 && Cols(m) == 2
    ensures Rot90(m) == [[m[0][1], m[1][1]], [m[0][0], m[1][0]]]
  {
    var r := Rot90(m);
    assert r[0] == [m[0][1], m[1][1]];
    assert r[1] == [m[0][0], m[1][0]];
  }

  lemma Rot4x1(m: Matrix)
    requires Rectangular(m) && Rows(m) == 4 && Cols(m) == 1
    ensures Rot90(m) == [[m[0][0], m[1][0], m[2][0], m[3][0]]]
  {
    var r := Rot90(m);
    assert r[0] == [m[0][0], m[1][0], m[2][0], m[3][0]];
  }

  lemma Rot1x4(m: Matrix)
    requires Rectangular(m) && Rows(m) == 1 && Cols(m) == 4
    ensures Rot90(m) == [[m[0][3]], [m[0][2]], [m[0][1]], [m[0][0]]]
  {
    var r := Rot90(m);
    assert r[0] == [m[0][3]];
    assert r[1] == [m[0][2]];
    assert r[2] == [m[0][1]];
    assert r[3] == [m[0][0]];
  }

  lemma Scale3x2(c: int, m: Matrix)
    requires |m| == 3 && |m[0]| == 2 && |m[1]| == 2 && |m[2]| == 2
    ensures Scale(c, m) == [[c * m[0][0], c * m[0][1]], [c * m[1][0], c * m[1][1]], [c * m[2][0], c * m[2][1]]]
  {
    var r := Scale(c, m);
    assert r[0] == [c * m[0][0], c * m[0][1]];
    assert r[1] == [c * m[1][0], c * m[1][1]];
    assert r[2] == [c * m[2][0], c * m[2][1]];
  }

  lemma ScaledOnes()
    ensures Scale(2, Ones(4, 1)) == [[2], [2], [2], [2]]
    ensures Scale(2, Ones(1, 4)) == [[2, 2, 2, 2]]
    ensures Scale(5, Ones(2, 2)) == [[5, 5], [5, 5]]
  {
    var a := Scale(2, Ones(4, 1));
    assert a[0] == [2] && a[1] == [2] && a[2] == [2] && a[3] == [2];
    var b := Scale(2, Ones(1, 4));
    assert b[0] == [2, 2, 2, 2];
    var c := Scale(5, Ones(2, 2));
    assert c[0] == [5, 5] && c[1] == [5, 5];
  }

  lemma TableJ()
    ensures Shapes(J) == ShapeTable(J)
  {
    var t := ShapeTable(J);
    Scale3x2(3, [[1, 1], [0, 1], [0, 1]]);
    Rot3x2(t[0]);
    Rot2x3(t[1]);
    Rot3x2(t[2]);
  }

  lemma TableL()
    ensures Shapes(L) == ShapeTable(L)
  {
    var t := ShapeTable(L);
    Scale3x2(4, [[1, 1], [1, 0], [1, 0]]);
    Rot3x2(t[0]);
    Rot2x3(t[1]);
    Rot3x2(t[2]);
  }

  lemma TableT()
    ensures Shapes(T) == ShapeTable(T)
  {
    var t := ShapeTable(T);
    Scale3x2(7, [[0, 1], [1, 1], [0, 1]]);
    Rot3x2(t[0]);
    Rot2x3(t[1]);
    Rot3x2(t[2]);
  }

  lemma TableS()
    ensures Shapes(S) == ShapeTable(S)
  {
    Scale3x2(6, [[0, 1], [1, 1], [1, 0]]);
    Rot3x2(ShapeTable(S)[0]);
  }

  lemma TableZ()
    ensures Shapes(Z) == ShapeTable(Z)
  {
    Scale3x2(8, [[1, 0], [1, 1], [0, 1]]);
    Rot3x2(ShapeTable(Z)[0]);
  }

  /** The constructors build exactly the orientation tables written out in `ShapeTable`. */
  lemma ShapesMatchTable(k: Kind)
    ensures Shapes(k) == ShapeTable(k)
  {
    match k
    case I => ScaledOnes();
    case O => ScaledOnes();
    case J => TableJ();
    case L => TableL();
    case T => TableT();
    case S => TableS();
    case Z => TableZ();
  }

  /** Number of orientations of each piece: I 2, J/L/T 4, O 1, S/Z 2. */
  lemma OrientationCounts()
    ensures |Shapes(I)| == 2 && |Shapes(O)| == 1 && |Shapes(S)| == 2 && |Shapes(Z)| == 2
    ensures |Shapes(J)| == 4 && |Shapes(L)| == 4 && |Shapes(T)| == 4
  {
    ShapesMatchTable(I); ShapesMatchTable(O); ShapesMatchTable(S); ShapesMatchTable(Z);
    ShapesMatchTable(J); ShapesMatchTable(L); ShapesMatchTable(T);
  }

  /** Number of nonzero entries of a row. */
  function RowCells(row: seq<int>): nat
  {
    if |row| == 0 then 0 else (if row[0] != 0 then 1 else 0) + RowCells(row[1..])
  }

  /** Number of nonzero entries of a matrix: the blocks of a piece. */
  function CellCount(m: Matrix): nat
  {
    if |m| == 0 then 0 else RowCells(m[0]) + CellCount(m[1..])
  }

  /** Every entry of `m` is either empty or the colour `c`. */
  predicate OnlyColor(m: Matrix, c: int)
  {
    forall i, j :: 0 <= i < |m| && 0 <= j < |m[i]| ==> m[i][j] == 0 || m[i][j] == c
  }

  /** One pass of the inner loop of `get_bottom_gap` over the shape row `row`:
      an empty cell extends the column's gap, a block resets it. */
  function GapStep(g: seq<int>, row: seq<int>): (r: seq<int>)
    requires |g| == |row|
    ensures |r| == |g|
  {
    seq(|g|, j requires 0 <= j < |g| => if row[j] == 0 then g[j] + 1 else 0)
  }

  /** The gap counters after the outer loop of `get_bottom_gap` has visited the
      `i` rows `Rows(m) - 1`, ..., `Rows(m) - i` (it walks the array from its last row). */
  function GapsAfter(m: Matrix, i: nat): (r: seq<int>)
    requires Rectangular(m) && i <= Rows(m)
    ensures |r| == Cols(m)
  {
    if i == 0 then seq(Cols(m), _ => 0)
    else GapStep(GapsAfter(m, i - 1), m[Rows(m) - i])
  }

  /** After `i` rows, each counter is the length of the run of empty cells that
      starts at row `Rows(m) - i` of its column. */
  lemma {:induction false} GapsAfterRun(m: Matrix, i: nat)
    requires Rectangular(m) && i <= Rows(m)
    ensures forall j :: 0 <= j < Cols(m) ==>
      var g := GapsAfter(m, i)[j];
      && 0 <= g <= i
      && (forall k :: Rows(m) - i <= k < Rows(m) - i + g ==> m[k][j] == 0)
      && (g < i ==> m[Rows(m) - i + g][j] != 0)
  {
    if i > 0 {
      GapsAfterRun(m, i - 1);
    }
  }

  /** `get_bottom_gap` of a shape: for each column, the index of its first
      block counted from shape row 0, or the height when the column is empty. */
  function BottomGapOf(m: Matrix): (r: seq<int>)
    requires Rectangular(m)
    ensures |r| == Cols(m)
    ensures forall j :: 0 <= j < Cols(m) ==>
      && 0 <= r[j] <= Rows(m)
      && (forall k :: 0 <= k < r[j] ==> m[k][j] == 0)
      && (r[j] < Rows(m) ==> m[r[j]][j] != 0)
  {
    GapsAfterRun(m, Rows(m));
    GapsAfter(m, Rows(m))
  }

  /** The properties `ShapeFacts` states, for one matrix. */
  predicate PieceShape(m: Matrix, c: int)
  {
    && Rectangular(m)
    && Rows(m) <= 4 && Cols(m) <= 4
    && CellCount(m) == 4
    && OnlyColor(m, c)
    && forall j :: 0 <= j < Cols(m) ==> BottomGapOf(m)[j] < Rows(m)
  }

  lemma FactsI0()
    ensures PieceShape(ShapeTable(I)[0], 2)
  {
    var m := ShapeTable(I)[0];
    assert m[0][0] != 0;
  }

  lemma FactsI1()
    ensures PieceShape(ShapeTable(I)[1], 2)
  {
    var m := ShapeTable(I)[1];
    assert m[0][0] != 0 && m[0][1] != 0 && m[0][2] != 0 && m[0][3] != 0;
  }

  lemma FactsI()
    ensures forall o :: 0 <= o < |ShapeTable(I)| ==> PieceShape(ShapeTable(I)[o], 2)
  {
    FactsI0(); FactsI1();
  }

  lemma FactsJ0()
    ensures PieceShape(ShapeTable(J)[0], 3)
  {
    var m := ShapeTable(J)[0];
    assert m[0][0] != 0 && m[0][1] != 0;
  }

  lemma FactsJ1()
    ensures PieceShape(ShapeTable(J)[1], 3)
  {
    var m := ShapeTable(J)[1];
    assert m[0][0] != 0 && m[0][1] != 0 && m[0][2] != 0;
  }

  lemma FactsJ2()
    ensures PieceShape(ShapeTable(J)[2], 3)
  {
    var m := ShapeTable(J)[2];
    assert m[0][0] != 0 && m[2][1] != 0;
  }

  lemma FactsJ3()
    ensures PieceShape(ShapeTable(J)[3], 3)
  {
    var m := ShapeTable(J)[3];
    assert m[1][0] != 0 && m[1][1] != 0 && m[0][2] != 0;
  }

  lemma FactsJ()
    ensures forall o :: 0 <= o < |ShapeTable(J)| ==> PieceShape(ShapeTable(J)[o], 3)
  {
    FactsJ0(); FactsJ1(); FactsJ2(); FactsJ3();
  }

  lemma FactsL0()
    ensures PieceShape(ShapeTable(L)[0], 4)
  {
    var m := ShapeTable(L)[0];
    assert m[0][0] != 0 && m[0][1] != 0;
  }

  lemma FactsL1()
    ensures PieceShape(ShapeTable(L)[1], 4)
  {
    var m := ShapeTable(L)[1];
    assert m[0][0] != 0 && m[1][1] != 0 && m[1][2] != 0;
  }

  lemma FactsL2()
    ensures PieceShape(ShapeTable(L)[2], 4)
  {
    var m := ShapeTable(L)[2];
    assert m[2][0] != 0 && m[0][1] != 0;
  }

  lemma FactsL3()
    ensures PieceShape(ShapeTable(L)[3], 4)
  {
    var m := ShapeTable(L)[3];
    assert m[0][0] != 0 && m[0][1] != 0 && m[0][2] != 0;
  }

  lemma FactsL()
    ensures forall o :: 0 <= o < |ShapeTable(L)| ==> PieceShape(ShapeTable(L)[o], 4)
  {
    FactsL0(); FactsL1(); FactsL2(); FactsL3();
  }

  lemma FactsO0()
    ensures PieceShape(ShapeTable(O)[0], 5)
  {
    var m := ShapeTable(O)[0];
    assert m[0][0] != 0 && m[0][1] != 0;
  }

  lemma FactsO()
    ensures forall o :: 0 <= o < |ShapeTable(O)| ==> PieceShape(ShapeTable(O)[o], 5)
  {
    FactsO0();
  }

  lemma FactsS0()
    ensures PieceShape(ShapeTable(S)[0], 6)
  {
    var m := ShapeTable(S)[0];
    assert m[1][0] != 0 && m[0][1] != 0;
  }

  lemma FactsS1()
    ensures PieceShape(ShapeTable(S)[1], 6)
  {
    var m := ShapeTable(S)[1];
    assert m[0][0] != 0 && m[0][1] != 0 && m[1][2] != 0;
  }

  lemma FactsS()
    ensures forall o :: 0 <= o < |ShapeTable(S)| ==> PieceShape(ShapeTable(S)[o], 6)
  {
    FactsS0(); FactsS1();
  }

  lemma FactsT0()
    ensures PieceShape(ShapeTable(T)[0], 7)
  {
    var m := ShapeTable(T)[0];
    assert m[1][0] != 0 && m[0][1] != 0;
  }

  lemma FactsT1()
    ensures PieceShape(ShapeTable(T)[1], 7)
  {
    var m := ShapeTable(T)[1];
    assert m[0][0] != 0 && m[0][1] != 0 && m[0][2] != 0;
  }

  lemma FactsT2()
    ensures PieceShape(ShapeTable(T)[2], 7)
  {
    var m := ShapeTable(T)[2];
    assert m[0][0] != 0 && m[1][1] != 0;
  }

  lemma FactsT3()
    ensures PieceShape(ShapeTable(T)[3], 7)
  {
    var m := ShapeTable(T)[3];
    assert m[1][0] != 0 && m[0][1] != 0 && m[1][2] != 0;
  }

  lemma FactsT()
    ensures forall o :: 0 <= o < |ShapeTable(T)| ==> PieceShape(ShapeTable(T)[o], 7)
  {
    FactsT0(); FactsT1(); FactsT2(); FactsT3();
  }

  lemma FactsZ0()
    ensures PieceShape(ShapeTable(Z)[0], 8)
  {
    var m := ShapeTable(Z)[0];
    assert m[0][0] != 0 && m[1][1] != 0;
  }

  lemma FactsZ1()
    ensures PieceShape(ShapeTable(Z)[1], 8)
  {
    var m := ShapeTable(Z)[1];
    assert m[1][0] != 0 && m[0][1] != 0 && m[0][2] != 0;
  }

  lemma FactsZ()
    ensures forall o :: 0 <= o < |ShapeTable(Z)| ==> PieceShape(ShapeTable(Z)[o], 8)
  {
    FactsZ0(); FactsZ1();
  }

  /** Every orientation of every piece is a rectangle holding exactly four
      blocks of the piece's colour, with a block in every column, so each
      bottom gap is below the height. */
  lemma ShapeFacts(k: Kind, o: nat)
    requires o < |Shapes(k)|
    ensures PieceShape(Shapes(k)[o], Color(k))
  {
    ShapesMatchTable(k);
    match k
    case I => FactsI();
    case J => FactsJ();
    case L => FactsL();
    case O => FactsO();
    case S => FactsS();
    case T => FactsT();
    case Z => FactsZ();
  }

  lemma CycleJ()
    ensures var t := ShapeTable(J);
      t[1] == Rot90(t[0]) && t[2] == Rot90(t[1]) && t[3] == Rot90(t[2]) && t[0] == Rot90(t[3])
  {
    var t := ShapeTable(J);
    Rot3x2(t[0]); Rot2x3(t[1]); Rot3x2(t[2]); Rot2x3(t[3]);
  }

  lemma CycleL()
    ensures var t := ShapeTable(L);
      t[1] == Rot90(t[0]) && t[2] == Rot90(t[1]) && t[3] == Rot90(t[2]) && t[0] == Rot90(t[3])
  {
    var t := ShapeTable(L);
    Rot3x2(t[0]); Rot2x3(t[1]); Rot3x2(t[2]); Rot2x3(t[3]);
  }

  lemma CycleT()
    ensures var t := ShapeTable(T);
      t[1] == Rot90(t[0]) && t[2] == Rot90(t[1]) && t[3] == Rot90(t[2]) && t[0] == Rot90(t[3])
  {
    var t := ShapeTable(T);
    Rot3x2(t[0]); Rot2x3(t[1]); Rot3x2(t[2]); Rot2x3(t[3]);
  }

  lemma CycleSZ(k: Kind)
    requires k == S || k == Z
    ensures forall o :: 0 <= o < 2 ==> ShapeTable(k)[(o + 1) % 2] == Rot90(ShapeTable(k)[o])
  {
    var t := ShapeTable(k);
    Rot3x2(t[0]); Rot2x3(t[1]);
  }

  lemma CycleIO()
    ensures forall o :: 0 <= o < 2 ==> ShapeTable(I)[(o + 1) % 2] == Rot90(ShapeTable(I)[o])
    ensures ShapeTable(O)[0] == Rot90(ShapeTable(O)[0])
  {
    var t := ShapeTable(I);
    Rot4x1(t[0]); Rot1x4(t[1]);
    Rot2x2(ShapeTable(O)[0]);
  }

  lemma TableCycle(k: Kind, o: nat)
    requires o < |ShapeTable(k)|
    ensures Rectangular(ShapeTable(k)[o])
    ensures ShapeTable(k)[(o + 1) % |ShapeTable(k)|] == Rot90(ShapeTable(k)[o])
  {
    var n := |ShapeTable(k)|;
    match k
    case J =>
      CycleJ();
      if o == 3 { assert (o + 1) % n == 0; } else { assert (o + 1) % n == o + 1; }
    case L =>
      CycleL();
      if o == 3 { assert (o + 1) % n == 0; } else { assert (o + 1) % n == o + 1; }
    case T =>
      CycleT();
      if o == 3 { assert (o + 1) % n == 0; } else { assert (o + 1) % n == o + 1; }
    case S =>
      CycleSZ(k);
      if o == 1 { assert (o + 1) % n == 0; } else { assert (o + 1) % n == o + 1; }
    case Z =>
      CycleSZ(k);
      if o == 1 { assert (o + 1) % n == 0; } else { assert (o + 1) % n == o + 1; }
    case I =>
      CycleIO();
      if o == 1 { assert (o + 1) % n == 0; } else { assert (o + 1) % n == o + 1; }
    case O =>
      CycleIO();
      assert (o + 1) % n == 0;
  }

  /** Each orientation is the quarter turn of the one before, cyclically:
      the last orientation turns back into the first. */
  lemma ShapesCycle(k: Kind, o: nat)
    requires o < |Shapes(k)|
    ensures Rectangular(Shapes(k)[o])
    ensures Shapes(k)[(o + 1) % |Shapes(k)|] == Rot90(Shapes(k)[o])
  {
    ShapesMatchTable(k);
    TableCycle(k, o);
  }

  /** Every piece has at least one orientation. */
  lemma ShapesNonEmpty(k: Kind)
    ensures 1 <= |Shapes(k)| <= 4
  {
    OrientationCounts();
  }

  /** A piece: its letter, the field position (`xloc`, `yloc`) of the lower
      left corner of its hit-box, and the index of its current orientation. */
  datatype Tet = Tet(kind: Kind, xloc: int, yloc: int, orientation: int)

  /** The orientation indexes one of the piece's shapes. */
  predicate Valid(t: Tet)
  {
    0 <= t.orientation < |Shapes(t.kind)|
  }

  /** A fresh piece as `Tetromino.__init__` leaves it: above the field at
      column 4, row 24, in orientation 0. */
  function NewTet(k: Kind): (t: Tet)
    ensures Valid(t)
    ensures t.kind == k && t.orientation == 0
  {
    ShapesNonEmpty(k);
    Tet(k, 4, 24, 0)
  }

  /** `get_shape()`: the matrix of the current orientation. */
  function GetShape(t: Tet): (m: Matrix)
    requires Valid(t)
    ensures PieceShape(m, Color(t.kind))
  {
    ShapeFacts(t.kind, t.orientation);
    Shapes(t.kind)[t.orientation]
  }

  /** `height()`: rows of the hit-box. */
  function Height(t: Tet): (h: nat)
    requires Valid(t)
    ensures 1 <= h <= 4
  {
    Rows(GetShape(t))
  }

  /** `width()`: columns of the hit-box. */
  function Width(t: Tet): (w: nat)
    requires Valid(t)
    ensures 1 <= w <= 4
  {
    Cols(GetShape(t))
  }

  /** `rotate(n)`: the orientation advances by `n` modulo the number of
      orientations; nothing else changes. */
  function Rotate(t: Tet, n: int): (r: Tet)
    ensures Valid(r)
    ensures r.kind == t.kind && r.xloc == t.xloc && r.yloc == t.yloc
  {
    ShapesNonEmpty(t.kind);
    t.(orientation := (t.orientation + n) % |Shapes(t.kind)|)
  }

  /** Rotating by the number of orientations is a full turn: nothing changes. */
  lemma RotateFullTurn(t: Tet)
    requires Valid(t)
    ensures Rotate(t, |Shapes(t.kind)|) == t
  {
    ShapesNonEmpty(t.kind);
    ModFullTurn(t.orientation, |Shapes(t.kind)|);
  }

  lemma ModFullTurn(o: int, n: int)
    requires 0 <= o < n
    ensures (o + n) % n == o
  {
  }

  /** Rotations compose by adding their step counts. */
  lemma RotateAdds(t: Tet, a: int, b: int)
    ensures Rotate(Rotate(t, a), b) == Rotate(t, a + b)
  {
    OrientationCounts();
    var n := |Shapes(t.kind)|;
    var o := t.orientation;
    ModAdd(o + a, b, n);
    assert o + a + b == (o + a) + b;
  }

  /** Adding after reducing modulo an orientation count is adding first. */
  lemma ModAdd(x: int, b: int, n: int)
    requires n == 1 || n == 2 || n == 4
    ensures (x % n + b) % n == (x + b) % n
  {
    if n == 1 {
      assert (x % 1 + b) % 1 == (x + b) % 1;
    } else if n == 2 {
      assert (x % 2 + b) % 2 == (x + b) % 2;
    } else {
      assert (x % 4 + b) % 4 == (x + b) % 4;
    }
  }

  /** One step of `rotate` turns the piece's shape a quarter turn, so height
      and width swap. */
  lemma RotateIsQuarterTurn(t: Tet)
    requires Valid(t)
    ensures GetShape(Rotate(t, 1)) == Rot90(GetShape(t))
    ensures Height(Rotate(t, 1)) == Width(t) && Width(Rotate(t, 1)) == Height(t)
  {
    ShapesCycle(t.kind, t.orientation);
  }

  /** `place(x, y)`: moves the piece; its letter and orientation, hence its
      shape, stay. */
  function Place(t: Tet, x: int, y: int): (r: Tet)
    ensures r.xloc == x && r.yloc == y
    ensures r.kind == t.kind && r.orientation == t.orientation
    ensures Valid(r) == Valid(t) && (Valid(t) ==> GetShape(r) == GetShape(t))
  {
    t.(xloc := x, yloc := y)
  }

  /** `get_bottom_gap()`: for each column of the current shape, how many empty
      cells lie below its lowest block. Every column holds a block, so each
      gap is below the height. */
  function BottomGap(t: Tet): (r: seq<int>)
    requires Valid(t)
    ensures |r| == Width(t)
    ensures forall j :: 0 <= j < |r| ==>
      && 0 <= r[j] < Height(t)
      && (forall k :: 0 <= k < r[j] ==> GetShape(t)[k][j] == 0)
      && GetShape(t)[r[j]][j] != 0
  {
    BottomGapOf(GetShape(t))
  }

  lemma GapsOfUpsideDownL()
    ensures BottomGapOf([[0, 4], [0, 4], [4, 4]]) == [2, 0]
  {
    var g := BottomGapOf([[0, 4], [0, 4], [4, 4]]);
    assert g[0] == 2 && g[1] == 0;
  }

  lemma GapsOfHorizontalZ()
    ensures BottomGapOf([[0, 8, 8], [8, 8, 0]]) == [1, 0, 0]
  {
    var g := BottomGapOf([[0, 8, 8], [8, 8, 0]]);
    assert g[0] == 1 && g[1] == 0 && g[2] == 0;
  }

  /** The docstring's first example: the upside-down L gives (2, 0). */
  lemma BottomGapUpsideDownL()
    ensures BottomGap(Rotate(NewTet(L), 2)) == [2, 0]
  {
    TableL();
    var t := Rotate(NewTet(L), 2);
    assert t.kind == L && t.orientation == 2;
    assert GetShape(t) == ShapeTable(L)[2];
    GapsOfUpsideDownL();
  }

  /** The docstring's second example: the horizontal Z gives (1, 0, 0). */
  lemma BottomGapHorizontalZ()
    ensures BottomGap(Rotate(NewTet(Z), 1)) == [1, 0, 0]
  {
    TableZ();
    var t := Rotate(NewTet(Z), 1);
    assert t.kind == Z && t.orientation == 1;
    assert GetShape(t) == ShapeTable(Z)[1];
    GapsOfHorizontalZ();
  }

  /** `TetrominoBag.catalog`, in its insertion order. */
  const Catalog: seq<Kind> := [I, J, L, O, S, T, Z]

  /** `get_tet_by_name(name)`: a fresh piece for each of the seven letters,
      `KeyError` for anything else. */
  function GetTetByName(name: string): (r: Result<Tet>)
    ensures r.Ok? ==> Letter(r.value.kind) == name && r.value == NewTet(r.value.kind)
    ensures r.Err? ==> r.error == KeyError && forall k: Kind :: Letter(k) != name
  {
    if name == "I" then Ok(NewTet(I))
    else if name == "J" then Ok(NewTet(J))
    else if name == "L" then Ok(NewTet(L))
    else if name == "O" then Ok(NewTet(O))
    else if name == "S" then Ok(NewTet(S))
    else if name == "T" then Ok(NewTet(T))
    else if name == "Z" then Ok(NewTet(Z))
    else Err(KeyError)
  }

  /** `get_random()` with the draw `random.randint(0, 6)` given as `index`:
      a fresh piece, the one `get_tet_by_name` gives for its letter. */
  function GetRandom(index: int): (r: Tet)
    requires 0 <= index <= 6
    ensures GetTetByName(Letter(r.kind)) == Ok(r)
  {
    NewTet(Catalog[index])
  }

  /** Every piece is reachable by some draw. */
  lemma GetRandomCoversBag(k: Kind)
    ensures exists index :: 0 <= index <= 6 && GetRandom(index).kind == k
  {
    var index := match k
      case I => 0 case J => 1 case L => 2 case O => 3 case S => 4 case T => 5 case Z => 6;
    assert GetRandom(index).kind == k;
  }
}
