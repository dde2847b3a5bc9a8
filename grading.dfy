/**
 * The grading loop of main(): over the blank squares of the puzzle it counts
 * how many there are, how many the attempt filled in and how many of those
 * agree with the known solution, and it names every filled square that does
 * not agree, in row-major order.
 */
module Grading {
  import opened Grids

  /** A square of the grid, as the "Incorrect square: (row,col)" line names it. */
  datatype Square = Square(row: nat, col: nat)

  /** How the grading loop treats one square. */
  datatype Verdict =
    | Given     // a digit of the puzzle: not counted at all
    | Unfilled  // blank in the puzzle and still blank in the attempt
    | Right     // blank in the puzzle, filled with the solution's digit
    | Wrong     // blank in the puzzle, filled with another value

  /** The squares the loop counts in total, in filled and in correct. */
  const BLANK: set<Verdict> := {Unfilled, Right, Wrong}
  const FILLED: set<Verdict> := {Right, Wrong}
  const RIGHT: set<Verdict> := {Right}
  const WRONG: set<Verdict> := {Wrong}

  function Classify(master: Board, attempt: Board, solution: Board, i: nat, j: nat): Verdict
    requires i < 9 && j < 9
  {
    if master[i][j] != 0 then Given
    else if attempt[i][j] == 0 then Unfilled
    else if attempt[i][j] == solution[i][j] then Right
    else Wrong
  }

  /**
   * The k-th square in row-major order: nine squares per row. Written by
   * stepping back a row at a time rather than with k / 9 and k % 9, which
   * keeps division out of the grading loop's proof.
   */
  function SquareAt(k: nat): (sq: Square)
    requires k < 81
    ensures sq.row < 9 && sq.col < 9 && 9 * sq.row + sq.col == k
  {
    if k < 9 then Square(0, k) else var above := SquareAt(k - 9); Square(above.row + 1, above.col)
  }

  function VerdictAt(master: Board, attempt: Board, solution: Board, k: nat): Verdict
    requires k < 81
  {
    Classify(master, attempt, solution, SquareAt(k).row, SquareAt(k).col)
  }

  /** The number of the first n squares, in row-major order, whose verdict is in vs. */
  function Count(master: Board, attempt: Board, solution: Board, n: nat, vs: set<Verdict>): nat
    requires n <= 81
  {
    if n == 0 then 0
    else
      var here := if VerdictAt(master, attempt, solution, n - 1) in vs then 1 else 0;
      Count(master, attempt, solution, n - 1, vs) + here
  }

  /** The wrongly filled squares among the first n, in row-major order. */
  function WrongSquares(master: Board, attempt: Board, solution: Board, n: nat): seq<Square>
    requires n <= 81
  {
    if n == 0 then []
    else
      var here := if VerdictAt(master, attempt, solution, n - 1) == Wrong then [SquareAt(n - 1)] else [];
      WrongSquares(master, attempt, solution, n - 1) + here
  }

  /** The result of the grading loop. */
  datatype Grades = Grades(correct: nat, filled: nat, total: nat, incorrect: seq<Square>)

  /** What the grading loop has computed after the first n squares. */
  function GradedUpTo(master: Board, attempt: Board, solution: Board, n: nat): Grades
    requires n <= 81
  {
    Grades(Count(master, attempt, solution, n, RIGHT),
           Count(master, attempt, solution, n, FILLED),
           Count(master, attempt, solution, n, BLANK),
           WrongSquares(master, attempt, solution, n))
  }

  /** What the grading loop computes for a puzzle, an attempt and the known solution. */
  function Graded(master: Board, attempt: Board, solution: Board): Grades {
    GradedUpTo(master, attempt, solution, 81)
  }

  /** The grades after one more square, of verdict v. */
  function Tally(g: Grades, v: Verdict, sq: Square): Grades {
    Grades(g.correct + (if v == Right then 1 else 0),
           g.filled + (if v == Right || v == Wrong then 1 else 0),
           g.total + (if v != Given then 1 else 0),
           g.incorrect + (if v == Wrong then [sq] else []))
  }

  /** main()'s grading loop, over the three grids in place. */
  method Grade(master: array2<byte>, scratchpad: array2<byte>, solution: array2<byte>) returns (grades: Grades)
    requires Is9x9(master) && Is9x9(scratchpad) && Is9x9(solution)
    ensures grades == Graded(Value(master), Value(scratchpad), Value(solution))
  {
    ghost var m, a, s := Value(master), Value(scratchpad), Value(solution);
    var correct, filled, total := 0, 0, 0;
    var incorrect: seq<Square> := [];
    for i := 0 to 9
      invariant Grades(correct, filled, total, incorrect) == GradedUpTo(m, a, s, 9 * i)
    {
      for j := 0 to 9
        invariant Grades(correct, filled, total, incorrect) == GradedUpTo(m, a, s, 9 * i + j)
      {
        GradeStep(m, a, s, i, j);
        correct, filled, total, incorrect := GradeSquare(master, scratchpad, solution, i, j, correct, filled, total, incorrect, m, a, s);
      }
    }
    grades := Grades(correct, filled, total, incorrect);
  }

  /** The body of the grading loop for square (i, j). */
  method GradeSquare(master: array2<byte>, scratchpad: array2<byte>, solution: array2<byte>, i: nat, j: nat,
                     correct: nat, filled: nat, total: nat, incorrect: seq<Square>,
                     ghost m: Board, ghost a: Board, ghost s: Board)
    returns (correct': nat, filled': nat, total': nat, incorrect': seq<Square>)
    requires Is9x9(master) && Is9x9(scratchpad) && Is9x9(solution) && i < 9 && j < 9
    requires m == Value(master) && a == Value(scratchpad) && s == Value(solution)
    ensures Grades(correct', filled', total', incorrect') ==
      Tally(Grades(correct, filled, total, incorrect), Classify(m, a, s, i, j), Square(i, j))
  {
    correct', filled', total', incorrect' := correct, filled, total, incorrect;
    if master[i, j] == 0 {
      total' := total' + 1;
      if scratchpad[i, j] != 0 {
        filled' := filled' + 1;
        if scratchpad[i, j] == solution[i, j] {
          correct' := correct' + 1;
        } else {
          incorrect' := incorrect' + [Square(i, j)];
        }
      }
    }
  }

  /** Square (i, j) is the next in row-major order after the first 9 * i + j. */
  lemma AtSquare(m: Board, a: Board, s: Board, i: nat, j: nat)
    requires i < 9 && j < 9
    ensures SquareAt(9 * i + j) == Square(i, j)
    ensures VerdictAt(m, a, s, 9 * i + j) == Classify(m, a, s, i, j)
  {
  }

  /** One pass of the inner loop adds square (i, j) to the counts and the list. */
  lemma GradeStep(m: Board, a: Board, s: Board, i: nat, j: nat)
    requires i < 9 && j < 9
    ensures GradedUpTo(m, a, s, 9 * i + j + 1) == Tally(GradedUpTo(m, a, s, 9 * i + j), Classify(m, a, s, i, j), Square(i, j))
  {
    AtSquare(m, a, s, i, j);
  }

  /** Counting a larger set of verdicts never gives less. */
  lemma {:induction false} CountMono(m: Board, a: Board, s: Board, n: nat, vs: set<Verdict>, ws: set<Verdict>)
    requires n <= 81 && vs <= ws
    ensures Count(m, a, s, n, vs) <= Count(m, a, s, n, ws)
  {
    if n > 0 {
      CountMono(m, a, s, n - 1, vs, ws);
    }
  }

  /** Counting two disjoint sets of verdicts together adds their counts. */
  lemma {:induction false} CountUnion(m: Board, a: Board, s: Board, n: nat, vs: set<Verdict>, ws: set<Verdict>)
    requires n <= 81 && vs !! ws
    ensures Count(m, a, s, n, vs + ws) == Count(m, a, s, n, vs) + Count(m, a, s, n, ws)
  {
    if n > 0 {
      CountUnion(m, a, s, n - 1, vs, ws);
    }
  }

  /** Every listed square is a wrong one, and there is one per wrongly filled square. */
  lemma {:induction false} WrongSquaresCount(m: Board, a: Board, s: Board, n: nat)
    requires n <= 81
    ensures |WrongSquares(m, a, s, n)| == Count(m, a, s, n, WRONG)
  {
    if n > 0 {
      WrongSquaresCount(m, a, s, n - 1);
    }
  }

  /** correct <= filled <= total, and the incorrect squares number filled - correct. */
  lemma GradesOrdered(m: Board, a: Board, s: Board)
    ensures var g := Graded(m, a, s);
      g.correct <= g.filled <= g.total <= 81 && |g.incorrect| == g.filled - g.correct
  {
    CountMono(m, a, s, 81, RIGHT, FILLED);
    CountMono(m, a, s, 81, FILLED, BLANK);
    CountAtMost(m, a, s, 81, BLANK);
    assert FILLED == RIGHT + WRONG;
    CountUnion(m, a, s, 81, RIGHT, WRONG);
    WrongSquaresCount(m, a, s, 81);
  }

  /** A count over the first n squares is at most n. */
  lemma {:induction false} CountAtMost(m: Board, a: Board, s: Board, n: nat, vs: set<Verdict>)
    requires n <= 81
    ensures Count(m, a, s, n, vs) <= n
  {
    if n > 0 {
      CountAtMost(m, a, s, n - 1, vs);
    }
  }

  /** A square is listed exactly when it is blank in the puzzle and filled with a value the solution does not have. */
  lemma {:induction false} WrongSquaresMembers(m: Board, a: Board, s: Board, n: nat, r: nat, c: nat)
    requires n <= 81
    ensures Square(r, c) in WrongSquares(m, a, s, n) <==>
      r < 9 && c < 9 && 9 * r + c < n && m[r][c] == 0 && a[r][c] != 0 && a[r][c] != s[r][c]
  {
    if n > 0 {
      WrongSquaresMembers(m, a, s, n - 1, r, c);
      if r < 9 && c < 9 && 9 * r + c == n - 1 {
        AtSquare(m, a, s, r, c);
      }
    }
  }

  /** The row-major position of a square. */
  function Position(sq: Square): nat {
    9 * sq.row + sq.col
  }

  /** The squares of w in strictly increasing row-major order. */
  predicate Ascending(w: seq<Square>) {
    forall x, y :: 0 <= x < y < |w| ==> Position(w[x]) < Position(w[y])
  }

  /** The squares are listed in strictly increasing row-major order, all before position n. */
  lemma {:induction false} WrongSquaresOrdered(m: Board, a: Board, s: Board, n: nat)
    requires n <= 81
    ensures Ascending(WrongSquares(m, a, s, n))
    ensures forall sq | sq in WrongSquares(m, a, s, n) :: Position(sq) < n
  {
    if n > 0 {
      WrongSquaresOrdered(m, a, s, n - 1);
      var w, w' := WrongSquares(m, a, s, n - 1), WrongSquares(m, a, s, n);
      var here := if VerdictAt(m, a, s, n - 1) == Wrong then [SquareAt(n - 1)] else [];
      assert w' == w + here;
      forall x | 0 <= x < |w'|
        ensures x < |w| ==> w'[x] == w[x] && Position(w[x]) < n - 1
        ensures x >= |w| ==> Position(w'[x]) == n - 1
      {
        if x >= |w| {
          assert w'[x] == SquareAt(n - 1);
        } else {
          assert w[x] in w;
        }
      }
    }
  }

  /**
   * Grading only runs on an incomplete attempt that kept the givens, and
   * there it always reports fewer squares filled than blank.
   */
  lemma IncompleteMeansUnfilled(m: Board, a: Board, s: Board)
    requires IsSubset(m, a) && !IsComplete(a)
    ensures Graded(m, a, s).filled < Graded(m, a, s).total
  {
    var r, c :| 0 <= r < 9 && 0 <= c < 9 && a[r][c] == 0;
    AtSquare(m, a, s, r, c);
    CountStrict(m, a, s, 81, 9 * r + c, FILLED, BLANK);
  }

  /** If vs is within ws and one of the first n squares has its verdict in ws but not vs, ws counts more. */
  lemma {:induction false} CountStrict(m: Board, a: Board, s: Board, n: nat, k: nat, vs: set<Verdict>, ws: set<Verdict>)
    requires k < n <= 81 && vs <= ws
    requires VerdictAt(m, a, s, k) in ws && VerdictAt(m, a, s, k) !in vs
    ensures Count(m, a, s, n, vs) < Count(m, a, s, n, ws)
  {
    if k < n - 1 {
      CountStrict(m, a, s, n - 1, k, vs, ws);
    } else {
      CountMono(m, a, s, n - 1, vs, ws);
    }
  }

  /** The attempt is judged perfect (correct == filled) exactly when no square is listed. */
  lemma AllCorrectIffNoneListed(m: Board, a: Board, s: Board)
    ensures Graded(m, a, s).correct == Graded(m, a, s).filled <==> Graded(m, a, s).incorrect == []
  {
    GradesOrdered(m, a, s);
  }

  /** The total counts the blanks of the puzzle and nothing else. */
  lemma {:induction false} TotalIsBlanks(m: Board, a: Board, s: Board, a2: Board, s2: Board, n: nat)
    requires n <= 81
    ensures Count(m, a, s, n, BLANK) == Count(m, a2, s2, n, BLANK)
  {
    if n > 0 {
      TotalIsBlanks(m, a, s, a2, s2, n - 1);
    }
  }
}
