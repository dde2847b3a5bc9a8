/**
 * The grid data model of the Sudoku harness: a 9x9 matrix of unsigned 8-bit
 * cells where 0 is a blank and 1..9 a placed digit, together with the
 * properties the harness checks (completeness, the subset relation and
 * row/column/box validity) stated over grid values.
 */
module Grids {

  /** An unsigned 8-bit cell (the source stores cells as uint8_t). */
  newtype byte = x: int | 0 <= x < 256

  /** A grid as a value: nine rows of nine cells. */
  type Board = b: seq<seq<byte>> | |b| == 9 && forall i | 0 <= i < 9 :: |b[i]| == 9
    witness seq(9, _ => seq(9, _ => 0))

  /** The all-blank grid. */
  const EMPTY: Board := seq(9, _ => seq(9, _ => 0))

  predicate Is9x9(g: array2<byte>) {
    g.Length0 == 9 && g.Length1 == 9
  }

  /** The value currently held by a grid array. */
  function Value(g: array2<byte>): (b: Board)
    reads g
    requires Is9x9(g)
    ensures forall i, j :: 0 <= i < 9 && 0 <= j < 9 ==> b[i][j] == g[i, j]
  {
    seq(9, i requires 0 <= i < 9 reads g => seq(9, j requires 0 <= j < 9 reads g => g[i, j]))
  }

  /** Two boards that agree cell by cell are equal. */
  lemma BoardEq(a: Board, b: Board)
    requires forall i, j :: 0 <= i < 9 && 0 <= j < 9 ==> a[i][j] == b[i][j]
    ensures a == b
  {
    forall i | 0 <= i < 9
      ensures a[i] == b[i]
    {
    }
  }

  /** Every cell holds a blank or a digit 1..9 (what loading guarantees). */
  predicate InRange(b: Board) {
    forall i, j :: 0 <= i < 9 && 0 <= j < 9 ==> b[i][j] <= 9
  }

  /** No cell is blank. */
  predicate IsComplete(b: Board) {
    forall i, j :: 0 <= i < 9 && 0 <= j < 9 ==> b[i][j] != 0
  }

  /** Every non-blank cell of a holds the same value in b. */
  predicate IsSubset(a: Board, b: Board) {
    forall i, j :: 0 <= i < 9 && 0 <= j < 9 && a[i][j] != 0 ==> b[i][j] == a[i][j]
  }

  /** Column c, top to bottom. */
  function Column(b: Board, c: nat): seq<byte>
    requires c < 9
  {
    seq(9, r requires 0 <= r < 9 => b[r][c])
  }

  /** The 3x3 box covering rows 3i..3i+2 and columns 3j..3j+2, in row-major order. */
  function Box(b: Board, i: nat, j: nat): seq<byte>
    requires i < 3 && j < 3
  {
    seq(9, t requires 0 <= t < 9 => b[3 * i + t / 3][3 * j + t % 3])
  }

  /** Member 3r + c of a box is the cell r rows and c columns into it. */
  lemma BoxCell(b: Board, i: nat, j: nat, r: nat, c: nat)
    requires i < 3 && j < 3 && r < 3 && c < 3
    ensures 3 * r + c < 9 && Box(b, i, j)[3 * r + c] == b[3 * i + r][3 * j + c]
  {
    assert (3 * r + c) / 3 == r && (3 * r + c) % 3 == c;
  }

  /** The first n cells of a group repeat no non-blank digit. */
  predicate NoRepeat(s: seq<byte>, n: nat)
    requires n <= |s|
  {
    forall x, y :: 0 <= x < y < n && s[x] != 0 ==> s[x] != s[y]
  }

  /** No row, column or box repeats a non-blank digit. */
  predicate IsValid(b: Board) {
    && (forall r :: 0 <= r < 9 ==> NoRepeat(b[r], 9))
    && (forall c :: 0 <= c < 9 ==> NoRepeat(Column(b, c), 9))
    && (forall i, j :: 0 <= i < 3 && 0 <= j < 3 ==> NoRepeat(Box(b, i, j), 9))
  }

  /** Cells (r1, c1) and (r2, c2) share a row, a column or a box. */
  predicate SameGroup(r1: nat, c1: nat, r2: nat, c2: nat) {
    r1 == r2 || c1 == c2 || (r1 / 3 == r2 / 3 && c1 / 3 == c2 / 3)
  }

  /** Cell-level reading of validity: two different cells of one group never hold the same digit. */
  predicate NoClash(b: Board) {
    forall r1, c1, r2, c2 ::
      0 <= r1 < 9 && 0 <= c1 < 9 && 0 <= r2 < 9 && 0 <= c2 < 9 &&
      (r1 != r2 || c1 != c2) && SameGroup(r1, c1, r2, c2) && b[r1][c1] != 0
      ==> b[r1][c1] != b[r2][c2]
  }

  /** The group-wise definition of validity and the cell-level one agree. */
  lemma ValidIffNoClash(b: Board)
    ensures IsValid(b) <==> NoClash(b)
  {
    if IsValid(b) {
      ValidHasNoClash(b);
    }
    if NoClash(b) {
      NoClashIsValid(b);
    }
  }

  /** Valid: no two cells of a row, column or box hold the same digit. */
  lemma ValidHasNoClash(b: Board)
    requires IsValid(b)
    ensures NoClash(b)
  {
    forall r1: nat, c1: nat, r2: nat, c2: nat |
      r1 < 9 && c1 < 9 && r2 < 9 && c2 < 9 &&
      (r1 != r2 || c1 != c2) && SameGroup(r1, c1, r2, c2) && b[r1][c1] != 0
      ensures b[r1][c1] != b[r2][c2]
    {
      if r1 == r2 {
        GroupNoClash(b[r1], c1, c2);
      } else if c1 == c2 {
        var col := Column(b, c1);
        GroupNoClash(col, r1, r2);
      } else {
        BoxNoClash(b, r1 / 3, c1 / 3, r1 % 3, c1 % 3, r2 % 3, c2 % 3);
      }
    }
  }

  /** Two different members of a group without repeats never hold the same digit. */
  lemma GroupNoClash(s: seq<byte>, x: nat, y: nat)
    requires |s| == 9 && NoRepeat(s, 9) && x < 9 && y < 9 && x != y && s[x] != 0
    ensures s[x] != s[y]
  {
    if y < x {
      assert s[y] != 0 ==> s[y] != s[x];
    }
  }

  /** Two different cells of a box without repeats never hold the same digit. */
  lemma BoxNoClash(b: Board, i: nat, j: nat, x1: nat, y1: nat, x2: nat, y2: nat)
    requires i < 3 && j < 3 && x1 < 3 && y1 < 3 && x2 < 3 && y2 < 3 && (x1 != x2 || y1 != y2)
    requires NoRepeat(Box(b, i, j), 9) && b[3 * i + x1][3 * j + y1] != 0
    ensures b[3 * i + x1][3 * j + y1] != b[3 * i + x2][3 * j + y2]
  {
    BoxCell(b, i, j, x1, y1);
    BoxCell(b, i, j, x2, y2);
    GroupNoClash(Box(b, i, j), 3 * x1 + y1, 3 * x2 + y2);
  }

  /** No two cells of a shared row, column or box holding the same digit: valid. */
  lemma NoClashIsValid(b: Board)
    requires NoClash(b)
    ensures IsValid(b)
  {
    forall r | 0 <= r < 9
      ensures NoRepeat(b[r], 9)
    {
      forall x, y | 0 <= x < y < 9 && b[r][x] != 0
        ensures b[r][x] != b[r][y]
      {
        assert SameGroup(r, x, r, y);
      }
    }
    forall c | 0 <= c < 9
      ensures NoRepeat(Column(b, c), 9)
    {
      var col := Column(b, c);
      forall x, y | 0 <= x < y < 9 && col[x] != 0
        ensures col[x] != col[y]
      {
        assert SameGroup(x, c, y, c);
      }
    }
    forall i, j | 0 <= i < 3 && 0 <= j < 3
      ensures NoRepeat(Box(b, i, j), 9)
    {
      var box := Box(b, i, j);
      forall x, y | 0 <= x < y < 9 && box[x] != 0
        ensures box[x] != box[y]
      {
        var r1, c1, r2, c2 := 3 * i + x / 3, 3 * j + x % 3, 3 * i + y / 3, 3 * j + y % 3;
        assert r1 / 3 == i && r2 / 3 == i && c1 / 3 == j && c2 / 3 == j;
        assert SameGroup(r1, c1, r2, c2);
        assert r1 != r2 || c1 != c2;
      }
    }
  }

  /** The all-blank grid is valid. */
  lemma EmptyIsValid()
    ensures IsValid(EMPTY)
  {
    ValidIffNoClash(EMPTY);
  }

  /**
   * Validity only constrains placed digits: a grid whose digits all agree
   * with a valid grid (for instance the valid grid with some cells cleared)
   * is valid.
   */
  lemma {:induction false} ValidDownward(a: Board, b: Board)
    requires IsSubset(a, b) && IsValid(b)
    ensures IsValid(a)
  {
    ValidIffNoClash(b);
    ValidIffNoClash(a);
  }

  /** Clearing one cell never turns a valid grid invalid. */
  lemma ClearingKeepsValid(b: Board, r: nat, c: nat)
    requires r < 9 && c < 9 && IsValid(b)
    ensures IsValid(b[r := b[r][c := 0]])
  {
    ValidDownward(b[r := b[r][c := 0]], b);
  }

  /** The subset relation is reflexive and transitive. */
  lemma SubsetPreorder(a: Board, b: Board, c: Board)
    ensures IsSubset(a, a)
    ensures IsSubset(a, b) && IsSubset(b, c) ==> IsSubset(a, c)
  {
  }

  /** The subset relation is not symmetric: blanks in the first grid constrain nothing. */
  lemma SubsetNotSymmetric()
    ensures exists a: Board, b: Board :: IsSubset(a, b) && !IsSubset(b, a)
  {
    var b: Board := EMPTY[0 := EMPTY[0][0 := 5]];
    assert b[0][0] == 5;
    assert IsSubset(EMPTY, b) && !IsSubset(b, EMPTY);
  }

  /** A complete grid is a subset only of itself. */
  lemma CompleteSubsetIsEqual(a: Board, b: Board)
    requires IsComplete(a) && IsSubset(a, b)
    ensures a == b
  {
    BoardEq(a, b);
  }
}
