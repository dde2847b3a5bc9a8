/**
 * The three grid checks of the harness, written as the source writes them:
 * nested loops over a 9x9 array with an early return on the first failing
 * cell, each proved against the grid-value predicate of module Grids.
 */
module Checks {
  import opened Grids

  /** complete(): true iff no cell is blank; stops at the first blank in row-major order. */
  method Complete(g: array2<byte>) returns (r: bool)
    requires Is9x9(g)
    ensures r == IsComplete(Value(g))
  {
    for i := 0 to 9
      invariant forall i', j' :: 0 <= i' < i && 0 <= j' < 9 ==> g[i', j'] != 0
    {
      for j := 0 to 9
        invariant forall i', j' :: 0 <= i' < i && 0 <= j' < 9 ==> g[i', j'] != 0
        invariant forall j' :: 0 <= j' < j ==> g[i, j'] != 0
      {
        if g[i, j] == 0 {
          return false;
        }
      }
    }
    return true;
  }

  /** subset(): true iff every non-blank cell of puzzle equals the same cell of solution. */
  method Subset(puzzle: array2<byte>, solution: array2<byte>) returns (r: bool)
    requires Is9x9(puzzle) && Is9x9(solution)
    ensures r == IsSubset(Value(puzzle), Value(solution))
  {
    for i := 0 to 9
      invariant forall i', j' :: 0 <= i' < i && 0 <= j' < 9 && puzzle[i', j'] != 0 ==> puzzle[i', j'] == solution[i', j']
    {
      for j := 0 to 9
        invariant forall i', j' :: 0 <= i' < i && 0 <= j' < 9 && puzzle[i', j'] != 0 ==> puzzle[i', j'] == solution[i', j']
        invariant forall j' :: 0 <= j' < j && puzzle[i, j'] != 0 ==> puzzle[i, j'] == solution[i, j']
      {
        if puzzle[i, j] != 0 && puzzle[i, j] != solution[i, j] {
          return false;
        }
      }
    }
    return true;
  }

  /** The presence buffer records exactly the digits among the first n members of group s. */
  ghost predicate Seen(hits: array<bool>, s: seq<byte>, n: nat)
    reads hits
    requires hits.Length == 9 && n <= |s|
  {
    forall d :: 0 <= d < 9 ==> (hits[d] <==> exists x :: 0 <= x < n && s[x] as int == d + 1)
  }

  /** memset(hits, 0, 9): the buffer is reset at the start of each group. */
  method ClearHits(hits: array<bool>, ghost s: seq<byte>)
    requires hits.Length == 9
    modifies hits
    ensures Seen(hits, s, 0)
  {
    forall d | 0 <= d < 9 {
      hits[d] := false;
    }
  }

  /**
   * The body shared by the three loop families of valid(): a blank is
   * skipped, a digit already present is a clash, otherwise it is recorded.
   */
  method Mark(hits: array<bool>, ghost s: seq<byte>, n: nat, digit: byte) returns (clash: bool)
    requires hits.Length == 9 && n < |s| && s[n] == digit && digit <= 9
    requires Seen(hits, s, n) && NoRepeat(s, n)
    modifies hits
    ensures clash <==> !NoRepeat(s, n + 1)
    ensures !clash ==> Seen(hits, s, n + 1)
  {
    clash := false;
    if digit != 0 {
      var d := digit as int - 1;
      if hits[d] {
        clash := true;
      } else {
        hits[d] := true;
      }
    }
  }

  /** A repeat among the first n members of a group is a repeat in the whole group. */
  lemma RepeatExtends(s: seq<byte>, n: nat)
    requires n <= |s| && !NoRepeat(s, n)
    ensures !NoRepeat(s, |s|)
  {
  }

  /** valid()'s first loop family: every row, each with a freshly reset buffer. */
  method RowsValid(g: array2<byte>, hits: array<bool>) returns (r: bool)
    requires Is9x9(g) && InRange(Value(g)) && hits.Length == 9
    modifies hits
    ensures r == forall row :: 0 <= row < 9 ==> NoRepeat(Value(g)[row], 9)
  {
    ghost var b := Value(g);
    for row := 0 to 9
      invariant forall r' :: 0 <= r' < row ==> NoRepeat(b[r'], 9)
    {
      ClearHits(hits, b[row]);
      for c := 0 to 9
        invariant Seen(hits, b[row], c) && NoRepeat(b[row], c)
      {
        var clash := Mark(hits, b[row], c, g[row, c]);
        if clash {
          RepeatExtends(b[row], c + 1);
          assert b == Value(g) && !NoRepeat(b[row], 9);
          return false;
        }
      }
    }
    return true;
  }

  /** valid()'s second loop family: every column. */
  method ColumnsValid(g: array2<byte>, hits: array<bool>) returns (r: bool)
    requires Is9x9(g) && InRange(Value(g)) && hits.Length == 9
    modifies hits
    ensures r == forall c :: 0 <= c < 9 ==> NoRepeat(Column(Value(g), c), 9)
  {
    ghost var b := Value(g);
    for c := 0 to 9
      invariant forall c' :: 0 <= c' < c ==> NoRepeat(Column(b, c'), 9)
    {
      ghost var col := Column(b, c);
      ClearHits(hits, col);
      for row := 0 to 9
        invariant Seen(hits, col, row) && NoRepeat(col, row)
      {
        var clash := Mark(hits, col, row, g[row, c]);
        if clash {
          RepeatExtends(col, row + 1);
          assert b == Value(g) && !NoRepeat(Column(b, c), 9);
          return false;
        }
      }
    }
    return true;
  }

  /** valid()'s third loop family: the box at rows 3i..3i+2, columns 3j..3j+2. */
  method BoxValid(g: array2<byte>, hits: array<bool>, i: nat, j: nat, ghost b: Board) returns (r: bool)
    requires Is9x9(g) && b == Value(g) && InRange(b) && hits.Length == 9 && i < 3 && j < 3
    modifies hits
    ensures r == NoRepeat(Box(b, i, j), 9)
  {
    ghost var box := Box(b, i, j);
    ClearHits(hits, box);
    for row := 0 to 3
      invariant Seen(hits, box, 3 * row) && NoRepeat(box, 3 * row)
    {
      for col := 0 to 3
        invariant Seen(hits, box, 3 * row + col) && NoRepeat(box, 3 * row + col)
      {
        BoxCell(b, i, j, row, col);
        var clash := Mark(hits, box, 3 * row + col, g[3 * i + row, 3 * j + col]);
        if clash {
          RepeatExtends(box, 3 * row + col + 1);
          return false;
        }
      }
    }
    return true;
  }

  /**
   * valid(): true iff no row, column or box repeats a non-blank digit.
   * Cells must be 0..9, which keeps the presence-buffer index in 0..8.
   */
  method Valid(g: array2<byte>) returns (r: bool)
    requires Is9x9(g) && InRange(Value(g))
    ensures r == IsValid(Value(g))
  {
    ghost var b := Value(g);
    var hits := new bool[9];
    r := RowsValid(g, hits);
    if !r {
      return;
    }
    r := ColumnsValid(g, hits);
    assert b == Value(g);
    if !r {
      return;
    }
    r := BoxesValid(g, hits);
    assert b == Value(g);
  }

  /** valid()'s third loop family: every box, in row-major order of boxes. */
  method BoxesValid(g: array2<byte>, hits: array<bool>) returns (r: bool)
    requires Is9x9(g) && InRange(Value(g)) && hits.Length == 9
    modifies hits
    ensures r == forall i, j :: 0 <= i < 3 && 0 <= j < 3 ==> NoRepeat(Box(Value(g), i, j), 9)
  {
    ghost var b := Value(g);
    for i := 0 to 3
      invariant forall i', j' :: 0 <= i' < i && 0 <= j' < 3 ==> NoRepeat(Box(b, i', j'), 9)
    {
      for j := 0 to 3
        invariant forall i', j' :: 0 <= i' < 3 && 0 <= j' < 3 && (i' < i || (i' == i && j' < j)) ==> NoRepeat(Box(b, i', j'), 9)
      {
        r := BoxValid(g, hits, i, j, b);
        if !r {
          assert b == Value(g);
          return;
        }
      }
    }
    return true;
  }
}
