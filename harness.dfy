/**
 * main(): loads the puzzle and the known solution, checks them in a fixed
 * order, hands a copy of the puzzle to the solver, checks that the givens
 * survived, and then either congratulates (a complete attempt) or grades the
 * attempt square by square; it finally shows the known solution.
 *
 * Standard output is modelled as a sequence of messages, the diagnostic on
 * standard error as a Failure, and the exit status as an int. The solver is
 * a parameter: any function from the grid it is handed to the grid it leaves.
 */
module Harness {
  import opened Wrappers
  import opened Grids
  import opened Checks
  import opened Parser
  import opened Grading

  /** Why main() exits with status 1; each has its own diagnostic. */
  datatype Failure =
    | UnreadablePuzzle(puzzleError: LoadError)
    | UnreadableSolution(solutionError: LoadError)
    | InvalidPuzzle
    | IncompleteSolution
    | InvalidSolution
    | SolutionMismatch
    | GivensModified

  /** One group of lines main() writes to standard output. */
  datatype Message =
    | PuzzleShown(puzzle: Board)          // "Puzzle:" and print(master)
    | AttemptShown(attempt: Board)        // the timing line and print(scratchpad)
    | IncorrectSquare(row: nat, col: nat) // "Incorrect square: (row,col)"
    | FilledOutOf(filled: nat, total: nat)
    | GotOutOf(correct: nat, outOf: nat)
    | Congratulations
    | SolutionShown(solution: Board)      // "Correct solution:" and print(solution)

  /** The exit status, what was written to standard output and the diagnostic, if any. */
  datatype Outcome = Outcome(status: int, printed: seq<Message>, failure: Option<Failure>)

  /** The puzzle and solution grids once both have loaded and passed the four checks. */
  datatype Checked = Checked(master: Board, solution: Board)

  /** The four checks main() makes on the loaded grids, in the order it makes them. */
  function CheckBoards(master: Board, solution: Board): Result<Checked, Failure> {
    if !IsValid(master) then Failure(InvalidPuzzle)
    else if !IsComplete(solution) then Failure(IncompleteSolution)
    else if !IsValid(solution) then Failure(InvalidSolution)
    else if !IsSubset(master, solution) then Failure(SolutionMismatch)
    else Success(Checked(master, solution))
  }

  /** Everything main() does before the solver runs: load the puzzle, then the solution, then check them. */
  function Preflight(puzzleText: string, solutionText: string): Result<Checked, Failure> {
    match Parse(puzzleText)
    case Failure(e) => Failure(UnreadablePuzzle(e))
    case Success(master) =>
      match Parse(solutionText)
      case Failure(e) => Failure(UnreadableSolution(e))
      case Success(solution) => CheckBoards(master, solution)
  }

  /** One "Incorrect square" line per listed square, in order. */
  function IncorrectLines(squares: seq<Square>): (lines: seq<Message>)
    ensures |lines| == |squares|
    ensures forall k | 0 <= k < |squares| :: lines[k] == IncorrectSquare(squares[k].row, squares[k].col)
  {
    if squares == [] then []
    else IncorrectLines(squares[..|squares| - 1]) + [IncorrectSquare(squares[|squares| - 1].row, squares[|squares| - 1].col)]
  }

  /** The report on the attempt: congratulations if it is complete, the grades otherwise. */
  function Report(master: Board, attempt: Board, solution: Board): seq<Message> {
    if IsComplete(attempt) then [Congratulations]
    else
      var g := Graded(master, attempt, solution);
      IncorrectLines(g.incorrect) + [FilledOutOf(g.filled, g.total), GotOutOf(g.correct, g.filled)]
  }

  /** What main() does once the checks have passed: solve a copy of the puzzle, then judge it. */
  function Judge(master: Board, solution: Board, solve: Board -> Board): Outcome {
    var attempt := solve(master);
    var shown := [PuzzleShown(master), AttemptShown(attempt)];
    if !IsSubset(master, attempt) then Outcome(1, shown, Some(GivensModified))
    else Outcome(0, shown + Report(master, attempt, solution) + [SolutionShown(solution)], None)
  }

  /** What main() does with a puzzle text, a solution text and a solver. */
  function Expected(puzzleText: string, solutionText: string, solve: Board -> Board): Outcome {
    match Preflight(puzzleText, solutionText)
    case Failure(f) => Outcome(1, [], Some(f))
    case Success(checked) => Judge(checked.master, checked.solution, solve)
  }

  /** How Expected splits on the checks. */
  lemma ExpectedCases(puzzleText: string, solutionText: string, solve: Board -> Board)
    ensures var pre := Preflight(puzzleText, solutionText);
      && (pre.Failure? ==> Expected(puzzleText, solutionText, solve) == Outcome(1, [], Some(pre.error)))
      && (pre.Success? ==> Expected(puzzleText, solutionText, solve) == Judge(pre.value.master, pre.value.solution, solve))
  {
  }

  /** How Judge splits on whether the givens survived. */
  lemma JudgeCases(master: Board, solution: Board, solve: Board -> Board)
    ensures var attempt := solve(master);
      var shown := [PuzzleShown(master), AttemptShown(attempt)];
      && (!IsSubset(master, attempt) ==> Judge(master, solution, solve) == Outcome(1, shown, Some(GivensModified)))
      && (IsSubset(master, attempt) ==>
            Judge(master, solution, solve) == Outcome(0, shown + Report(master, attempt, solution) + [SolutionShown(solution)], None))
  {
  }

  /** main(), from the two command-line files' contents onwards. */
  method RunHarness(puzzleText: string, solutionText: string, solve: Board -> Board) returns (outcome: Outcome)
    ensures outcome == Expected(puzzleText, solutionText, solve)
  {
    var master := new byte[9, 9];
    var solution := new byte[9, 9];
    var scratchpad := new byte[9, 9];
    var failure := LoadAndCheck(puzzleText, solutionText, master, solution);
    ExpectedCases(puzzleText, solutionText, solve);
    if failure.Some? {
      return Outcome(1, [], failure);
    }
    ghost var checked := Checked(Value(master), Value(solution));
    outcome := SolveAndReport(master, solution, scratchpad, solve);
    assert checked == Checked(Value(master), Value(solution));
  }

  /** The loads and the four checks, on the two grids in place. */
  method LoadAndCheck(puzzleText: string, solutionText: string, master: array2<byte>, solution: array2<byte>)
    returns (failure: Option<Failure>)
    requires Is9x9(master) && Is9x9(solution) && master != solution
    modifies master, solution
    ensures failure.None? <==> Preflight(puzzleText, solutionText).Success?
    ensures failure.Some? ==> failure.value == Preflight(puzzleText, solutionText).error
    ensures failure.None? ==> Preflight(puzzleText, solutionText).value == Checked(Value(master), Value(solution))
  {
    var err := Load(puzzleText, master);
    if err.Some? {
      return Some(UnreadablePuzzle(err.value));
    }
    err := Load(solutionText, solution);
    if err.Some? {
      return Some(UnreadableSolution(err.value));
    }
    ParseSucceedsIff(puzzleText);
    ParseSucceedsIff(solutionText);
    var ok := Valid(master);
    if !ok {
      return Some(InvalidPuzzle);
    }
    ok := Complete(solution);
    if !ok {
      return Some(IncompleteSolution);
    }
    ok := Valid(solution);
    if !ok {
      return Some(InvalidSolution);
    }
    ok := Subset(master, solution);
    if !ok {
      return Some(SolutionMismatch);
    }
    return None;
  }

  /** From the copy into the scratch grid to the end of main(), once the checks have passed. */
  method SolveAndReport(master: array2<byte>, solution: array2<byte>, scratchpad: array2<byte>, solve: Board -> Board)
    returns (outcome: Outcome)
    requires Is9x9(master) && Is9x9(solution) && Is9x9(scratchpad)
    requires scratchpad != master && scratchpad != solution
    modifies scratchpad
    ensures outcome == Judge(old(Value(master)), old(Value(solution)), solve)
  {
    ghost var m, sol := Value(master), Value(solution);
    JudgeCases(m, sol, solve);
    var printed := SolveAndShow(master, scratchpad, solve);
    assert Value(solution) == sol;
    outcome := Conclude(master, solution, scratchpad, printed);
  }

  /** subset(master, scratchpad), then the report and the known solution. */
  method Conclude(master: array2<byte>, solution: array2<byte>, scratchpad: array2<byte>, printed: seq<Message>)
    returns (outcome: Outcome)
    requires Is9x9(master) && Is9x9(solution) && Is9x9(scratchpad)
    ensures var m, a, sol := Value(master), Value(scratchpad), Value(solution);
      outcome == if !IsSubset(m, a) then Outcome(1, printed, Some(GivensModified))
                 else Outcome(0, printed + Report(m, a, sol) + [SolutionShown(sol)], None)
  {
    var kept := Subset(master, scratchpad);
    if !kept {
      return Outcome(1, printed, Some(GivensModified));
    }
    var report := ReportOn(master, scratchpad, solution);
    return Outcome(0, printed + report + [SolutionShown(Value(solution))], None);
  }

  /** memcpy, print the puzzle, solve the copy, print the attempt. */
  method SolveAndShow(master: array2<byte>, scratchpad: array2<byte>, solve: Board -> Board) returns (printed: seq<Message>)
    requires Is9x9(master) && Is9x9(scratchpad) && scratchpad != master
    modifies scratchpad
    ensures Value(master) == old(Value(master)) && Value(scratchpad) == solve(old(Value(master)))
    ensures printed == [PuzzleShown(Value(master)), AttemptShown(Value(scratchpad))]
  {
    Copy(scratchpad, master);
    printed := [PuzzleShown(Value(master))];
    ApplySolver(scratchpad, solve);
    printed := printed + [AttemptShown(Value(scratchpad))];
  }

  /** The end of main(): congratulate a complete attempt, otherwise grade it. */
  method ReportOn(master: array2<byte>, scratchpad: array2<byte>, solution: array2<byte>) returns (report: seq<Message>)
    requires Is9x9(master) && Is9x9(solution) && Is9x9(scratchpad)
    ensures report == Report(Value(master), Value(scratchpad), Value(solution))
  {
    var full := Complete(scratchpad);
    if full {
      return [Congratulations];
    }
    var grades := Grade(master, scratchpad, solution);
    report := IncorrectLines(grades.incorrect) + [FilledOutOf(grades.filled, grades.total), GotOutOf(grades.correct, grades.filled)];
  }

  /** memcpy(scratchpad, master, 9*9). */
  method Copy(dst: array2<byte>, src: array2<byte>)
    requires Is9x9(dst) && Is9x9(src) && dst != src
    modifies dst
    ensures Value(dst) == Value(src)
  {
    forall i, j | 0 <= i < 9 && 0 <= j < 9 {
      dst[i, j] := src[i, j];
    }
    BoardEq(Value(dst), Value(src));
  }

  /** solve(scratchpad): the solver leaves the grid it is handed as solve says. */
  method ApplySolver(g: array2<byte>, solve: Board -> Board)
    requires Is9x9(g)
    modifies g
    ensures Value(g) == solve(old(Value(g)))
  {
    var attempt := solve(Value(g));
    forall i, j | 0 <= i < 9 && 0 <= j < 9 {
      g[i, j] := attempt[i][j];
    }
    BoardEq(Value(g), attempt);
  }

  /** The four checks main() makes on loaded grids, in its order, and the failure each reports. */
  function CheckList(master: Board, solution: Board): (checks: seq<bool>)
    ensures |checks| == 4
  {
    [IsValid(master), IsComplete(solution), IsValid(solution), IsSubset(master, solution)]
  }

  const CHECK_FAILURES: seq<Failure> := [InvalidPuzzle, IncompleteSolution, InvalidSolution, SolutionMismatch]

  /** Of two loaded grids, main() reports the failure of the first check, in its order, that fails. */
  lemma FirstFailingCheckReported(master: Board, solution: Board, k: nat)
    requires k < 4
    ensures var checks := CheckList(master, solution);
      CheckBoards(master, solution) == Failure(CHECK_FAILURES[k]) <==> !checks[k] && forall t :: 0 <= t < k ==> checks[t]
  {
    var checks := CheckList(master, solution);
    assert checks[0] == IsValid(master) && checks[1] == IsComplete(solution);
    assert checks[2] == IsValid(solution) && checks[3] == IsSubset(master, solution);
  }

  /** The loaded grids pass when every check passes, and then the known solution solves the puzzle. */
  lemma AllChecksPass(master: Board, solution: Board)
    ensures CheckBoards(master, solution).Success? <==> forall t :: 0 <= t < 4 ==> CheckList(master, solution)[t]
    ensures CheckBoards(master, solution).Success? ==>
      CheckBoards(master, solution).value == Checked(master, solution) &&
      IsComplete(solution) && IsValid(solution) && IsSubset(master, solution)
  {
    var checks := CheckList(master, solution);
    assert checks[0] == IsValid(master) && checks[1] == IsComplete(solution);
    assert checks[2] == IsValid(solution) && checks[3] == IsSubset(master, solution);
  }

  /** An unreadable puzzle is reported whatever the solution file holds, and nothing is printed. */
  lemma PuzzleReadFirst(puzzleText: string, solutionText: string, other: string, solve: Board -> Board)
    requires Parse(puzzleText).Failure?
    ensures Expected(puzzleText, solutionText, solve) == Expected(puzzleText, other, solve)
    ensures Expected(puzzleText, solutionText, solve) == Outcome(1, [], Some(UnreadablePuzzle(Parse(puzzleText).error)))
  {
  }

  /** When a check before the solver fails, main() prints nothing and the solver makes no difference. */
  lemma PreflightIgnoresSolver(puzzleText: string, solutionText: string, solve: Board -> Board, other: Board -> Board)
    requires Preflight(puzzleText, solutionText).Failure?
    ensures Expected(puzzleText, solutionText, solve) == Expected(puzzleText, solutionText, other)
    ensures Expected(puzzleText, solutionText, solve).status == 1
    ensures Expected(puzzleText, solutionText, solve).printed == []
  {
  }

  /**
   * The exit status is 0 exactly when there is no diagnostic, and exactly when
   * both files load, the puzzle is valid, the solution is a complete valid
   * grid that keeps the puzzle's digits, and the solver kept them too.
   */
  lemma ExitStatus(puzzleText: string, solutionText: string, solve: Board -> Board)
    ensures var o := Expected(puzzleText, solutionText, solve);
      && (o.status == 0 || o.status == 1)
      && (o.status == 0 <==> o.failure.None?)
      && (o.status == 0 <==>
            && Parse(puzzleText).Success? && Parse(solutionText).Success?
            && var master, solution := Parse(puzzleText).value, Parse(solutionText).value;
            && IsValid(master) && IsComplete(solution) && IsValid(solution) && IsSubset(master, solution)
            && IsSubset(master, solve(master)))
  {
  }

  /** After the givens survive, the output starts with the puzzle and the attempt and ends with the known solution. */
  lemma JudgeShows(master: Board, solution: Board, solve: Board -> Board)
    requires IsSubset(master, solve(master))
    ensures var o := Judge(master, solution, solve);
      && o.status == 0 && o.failure == None
      && |o.printed| >= 4
      && o.printed[0] == PuzzleShown(master)
      && o.printed[1] == AttemptShown(solve(master))
      && o.printed[|o.printed| - 1] == SolutionShown(solution)
  {
    JudgeCases(master, solution, solve);
  }

  /** A complete attempt is congratulated, with no square graded, whether or not it agrees with the known solution. */
  lemma CompleteAttemptCongratulated(master: Board, solution: Board, solve: Board -> Board)
    requires IsComplete(solve(master)) && IsSubset(master, solve(master))
    ensures var o := Judge(master, solution, solve);
      && o.status == 0
      && Congratulations in o.printed
      && forall msg | msg in o.printed :: !msg.IncorrectSquare? && !msg.FilledOutOf? && !msg.GotOutOf?
  {
    JudgeCases(master, solution, solve);
  }

  /** For a puzzle with a blank square, some solver's attempt differs from the known solution and is congratulated all the same. */
  lemma WrongAttemptCongratulated(master: Board, solution: Board, r: nat, c: nat)
    requires IsComplete(solution) && IsSubset(master, solution)
    requires r < 9 && c < 9 && master[r][c] == 0
    ensures exists solve: Board -> Board ::
      solve(master) != solution && Congratulations in Judge(master, solution, solve).printed
  {
    var digit: byte := if solution[r][c] == 1 then 2 else 1;
    var attempt: Board := solution[r := solution[r][c := digit]];
    assert attempt[r][c] != solution[r][c];
    var solve := (b: Board) => attempt;
    assert IsComplete(attempt) && IsSubset(master, attempt);
    CompleteAttemptCongratulated(master, solution, solve);
  }

  /**
   * An incomplete attempt that keeps the givens is graded: one "Incorrect
   * square" line per wrong square, in row-major order, then the filled and
   * correct counts, with correct <= filled < total.
   */
  lemma IncompleteAttemptGraded(master: Board, solution: Board, solve: Board -> Board)
    requires !IsComplete(solve(master)) && IsSubset(master, solve(master))
    ensures var g, o := Graded(master, solve(master), solution), Judge(master, solution, solve);
      var wrong := g.filled - g.correct;
      && o.status == 0
      && Congratulations !in o.printed
      && g.correct <= g.filled < g.total
      && |o.printed| == 5 + wrong
      && (forall k | 0 <= k < wrong :: o.printed[2 + k] == IncorrectSquare(g.incorrect[k].row, g.incorrect[k].col))
      && o.printed[2 + wrong] == FilledOutOf(g.filled, g.total)
      && o.printed[3 + wrong] == GotOutOf(g.correct, g.filled)
  {
    var attempt := solve(master);
    var g := Graded(master, attempt, solution);
    JudgeCases(master, solution, solve);
    GradesOrdered(master, attempt, solution);
    IncompleteMeansUnfilled(master, attempt, solution);
  }

  /** A solver that returns the known solution of a checked pair of grids is congratulated. */
  lemma KnownSolutionCongratulated(master: Board, solution: Board)
    requires CheckBoards(master, solution).Success?
    ensures Congratulations in Judge(master, solution, (b: Board) => solution).printed
  {
    AllChecksPass(master, solution);
    CompleteAttemptCongratulated(master, solution, (b: Board) => solution);
  }
}
