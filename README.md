# Sudoku solver test harness, modelled in Dafny

The harness is one C program (`main.c`). It reads a puzzle file and a
known-solution file, each 9 lines of 9 cell characters. It checks that the
puzzle is a valid partial grid and that the solution is a complete, valid
grid that keeps the puzzle's digits. Then it hands a copy of the puzzle to
an external `solve()` and checks that the solver left the givens alone.
Finally it either congratulates (the attempt has no blank cell) or grades
the attempt square by square. It ends by showing the known solution.

The model keeps the program's imperative shape. Grids are `array2<byte>`
(cells are `uint8_t`). `complete`, `subset`, `valid`, `print`, `load`, the
grading loop and `main` are methods with the same loops and early returns.
Each method is proved against a pure specification on values (`Board`, a
9×9 `seq<seq<byte>>`), and the properties the program promises are
lemmas about those specifications.

Modules:

- `Wrappers` holds `Option` and `Result`.
- `Grids` holds boards, the predicates `IsComplete`, `IsSubset` and
  `IsValid`, and lemmas about them.
- `Checks` holds `complete()`, `subset()` and `valid()` with its presence
  buffer `hits` (an `array<bool>` of 9).
- `Parser` holds `load()` and the pure reading `Parse`.
- `Printer` holds `print()` and the pure rendering `Render`.
- `Grading` holds the grading loop and the counts it computes.
- `Harness` holds `main()` from the two files' contents onwards, and the
  pure `Expected` outcome.

Standard output is modelled as a sequence of `Message` values and the
diagnostic on standard error as a `Failure`. The exit status is an `int`.
A grid message (`PuzzleShown`, `AttemptShown`, `SolutionShown`) stands for
one `print()` call on that board. The text that call writes is
`Printer.Render` of the board, proved for `Printer.Print`. The solver is a
parameter `solve: Board -> Board`, from the grid it is handed to the grid
it leaves behind. The harness only relies on the solver keeping the
givens, and says so.

Some of the code's behaviour differs from what a stricter reading of the
file format or the report would expect. The model follows the code:

- `load()` accepts `'0'` as a blank as well as `' '` (main.c:140-150).
  A stricter format would allow only `' '` and `'1'`–`'9'`.
  `Parser.CellValue` and `Parser.SerializeParse` make this explicit.
- When input ends where a line's newline should be, the diagnostic is
  "Expected newline character", not "Unexpected end of file". The `getc`
  at main.c:161 sees EOF, which is not `'\n'`. `Parser.TruncatedLastLine`
  states this. That diagnostic does not name the line.
- A complete attempt is congratulated without being compared with the
  known solution (main.c:223, 244-246). `Harness.WrongAttemptCongratulated`
  shows that for any puzzle with a blank, some solver fills it wrongly and
  is still congratulated. Whether that is intended is not settled, so the
  model keeps the behaviour as written.
- The second report line is "Got correct out of filled", not out of total
  (main.c:243). `Harness.Report` keeps that.

## Model

| member | source | states |
|---|---|---|
| Grids.ValidIffNoClash | main.c:32-83 | A grid is valid (no row, column or box repeats a non-blank digit) exactly when no two distinct cells sharing a row, column or box hold the same non-blank digit |
| Grids.ValidHasNoClash | main.c:32-83 | Group-wise validity implies that no two cells of one group clash |
| Grids.NoClashIsValid | main.c:32-83 | Absence of cell clashes implies group-wise validity |
| Grids.BoxCell | main.c:70 | Member 3r+c of box (i, j) is cell (3i+r, 3j+c), the cell valid() reads in its box loops |
| Grids.EmptyIsValid | main.c:32-83 | The all-blank grid is valid |
| Grids.ValidDownward | main.c:21-83 | Any grid whose digits are a subset of a valid grid's is itself valid |
| Grids.ClearingKeepsValid | main.c:32-83 | Blanking one cell of a valid grid keeps it valid |
| Grids.SubsetPreorder | main.c:21-30 | subset() is reflexive and transitive |
| Grids.SubsetNotSymmetric | main.c:21-30 | subset() is not symmetric: some pair of grids is a subset one way only |
| Grids.CompleteSubsetIsEqual | main.c:10-30 | A complete grid is a subset of another only when the two are equal |
| Checks.Complete | main.c:10-19 | complete() returns true exactly when no cell is blank |
| Checks.Subset | main.c:21-30 | subset() returns true exactly when every non-blank puzzle cell holds the same digit in the other grid |
| Checks.ClearHits | main.c:38 | memset leaves the presence buffer recording no digit |
| Checks.Mark | main.c:40-47 | One cell step: reports a clash exactly when the digit was already seen in the group; otherwise records it |
| Checks.RowsValid | main.c:37-49 | The row loops return true exactly when no row repeats a non-blank digit |
| Checks.ColumnsValid | main.c:51-63 | The column loops return true exactly when no column repeats a non-blank digit |
| Checks.BoxValid | main.c:67-79 | The loops over one box return true exactly when that box repeats no non-blank digit |
| Checks.BoxesValid | main.c:65-81 | The box loops return true exactly when no box repeats a non-blank digit |
| Checks.Valid | main.c:32-83 | valid() returns true exactly when the grid is valid, for cells 0..9 |
| Parser.CellValue | main.c:136-151 | A cell character's value is at most 9; it is 0 exactly for ' ' and '0' |
| Parser.FirstFault | main.c:132-166 | The first position at or after p where reading stops is within the 90 characters read, everything before it reads, and it is a fault unless it is the end |
| Parser.Getc | main.c:134 | getc(): the character at the cursor, or end of file exactly when the cursor is past the text |
| Parser.ReadCell | main.c:134-158 | The switch succeeds exactly for ' ' and '0'-'9', giving the character's cell value; end of file gives EndOfFile and any other character InvalidDigit with its row, column and character |
| Parser.ReadCellAgrees | main.c:132-158 | Reading cell (i, j) at stream position 10i + j fails exactly at a fault of the stream, with that fault's error, and otherwise gives the character's value |
| Parser.Load | main.c:132-167 | load() reports no error exactly when Parse succeeds, otherwise Parse's error; on success the grid holds Parse's board; in every case the grid holds the cells stored before the first fault over its old contents |
| Parser.Store | main.c:159 | puzzle[i][j] = digit changes that one cell only |
| Parser.ParseSucceedsIff | main.c:132-167 | Reading succeeds exactly when every cell slot holds ' ', '0'-'9' and every tenth character is a newline; the board then holds each character's value |
| Parser.FirstOffenceDecides | main.c:136-165 | The error is decided by the first offending position: EOF gives EndOfFile, a newline slot gives ExpectedNewline, any other character gives InvalidDigit with its row, column and character |
| Parser.FailureHasFirstOffence | main.c:132-167 | Every failed read has a first offending position whose error is the one reported |
| Parser.TruncatedLastLine | main.c:161-165 | Input that stops just before the last newline fails with ExpectedNewline, not EndOfFile |
| Parser.ParseIgnoresTail | main.c:132-167 | Nothing after the first 90 characters affects the result |
| Parser.FirstFaultIgnoresTail | main.c:132-167 | Nothing after the first 90 characters moves the first offending position |
| Parser.CellChar | main.c:136-151 | Every cell value 0..9 has a character that load() reads back as that value |
| Parser.ParseSerialize | main.c:132-167 | Writing a board in the file format, then reading it, gives the board back, whatever follows |
| Parser.SerializeParse | main.c:132-167 | Reading a text and writing the board back gives the same 90 characters, except that '0' comes back as ' ' |
| Parser.CellCharOfValue | main.c:136-151 | A cell character reads back to itself, except '0', which reads as ' ' |
| Printer.Glyph | main.c:113-116 | A blank prints as '-' and a digit 1..9 prints as itself; other bytes print as num + '0' taken mod 256 |
| Printer.Print | main.c:85-120 | print() writes exactly Render of the grid |
| Printer.PrintLine | main.c:88-119 | One pass of the row loop writes the separator line before rows 3 and 6, then the row's line |
| Printer.PrintSeparator | main.c:89-101 | The separator loop writes the separator line |
| Printer.PrintRow | main.c:103-118 | The cell loop writes the row's line |
| Printer.RowStep | main.c:103-111 | Each cell step extends the written prefix of the row line by the step's separator and glyph |
| Printer.SeparatorStep | main.c:90-99 | Each dash step extends the written prefix of the separator line |
| Printer.RowStepLines | main.c:88-119 | Each row pass adds that row's separator and line to what has been printed |
| Printer.PrintedAll | main.c:88-119 | After nine row passes, print() has written the whole rendering |
| Printer.RenderLength | main.c:85-120 | A rendering is 242 characters, whatever bytes the cells hold |
| Printer.RowLineIsLine | main.c:103-118 | For cells 0..9, a row line is 21 characters without a newline, then a newline |
| Printer.SeparatorIsLine | main.c:89-100 | The separator line is 21 characters without a newline, then a newline |
| Printer.LayoutIsLines | main.c:88-119 | Nine such row lines laid out with the two separators give eleven such lines |
| Printer.ConcatLines | main.c:85-120 | In such lines printed one after another, character k is a newline exactly when k mod 22 is 21 |
| Printer.RenderLines | main.c:85-120 | For cells 0..9 the rendering is 11 lines of 21 characters: 242 characters, newlines exactly at positions 22k + 21 |
| Printer.WideByteBreaksLine | main.c:113-114 | A cell byte of 218 prints as a newline, since (218 + '0') mod 256 is '\n', so the line structure needs cells 0..9 |
| Printer.RenderCell | main.c:85-120 | Cell (i, j)'s glyph sits at a fixed position of the rendering, line LineOf(i) and column ColumnOf(j) |
| Printer.RowLineCell | main.c:103-117 | Within a row line, cell j's glyph sits at column ColumnOf(j) |
| Printer.ConcatIndex | main.c:85-120 | Character c of line k sits at position 22k + c of the printed text |
| Printer.GlyphInjective | main.c:113-116 | Distinct cell values 0..9 print as distinct glyphs |
| Printer.RenderInjective | main.c:85-120 | Two grids of cells 0..9 that print the same are equal |
| Grading.SquareAt | main.c:227-228 | Step k of the nested loops visits square (k div 9, k mod 9) |
| Grading.Grade | main.c:223-243 | The grading loop computes exactly the counts and the list of incorrect squares of Graded |
| Grading.GradeSquare | main.c:229-239 | One square: total, filled, correct and the incorrect list grow exactly as the square's verdict says |
| Grading.GradeStep | main.c:227-241 | Grading one more square tallies that square's verdict |
| Grading.GradesOrdered | main.c:224-243 | correct <= filled <= total <= 81, and the number of incorrect squares is filled - correct |
| Grading.CountMono | main.c:229-239 | A wider class of verdicts never counts fewer squares |
| Grading.CountUnion | main.c:229-239 | The count of two disjoint verdict classes is the sum of their counts |
| Grading.CountAtMost | main.c:227-241 | No class counts more squares than have been visited |
| Grading.CountStrict | main.c:229-239 | A visited square in the wider class and not the narrower one makes the wider count strictly larger |
| Grading.WrongSquaresCount | main.c:233-237 | One incorrect square is listed per filled-but-wrong square |
| Grading.WrongSquaresMembers | main.c:229-237 | A square is listed exactly when it is blank in the puzzle, filled in the attempt and different from the solution |
| Grading.WrongSquaresOrdered | main.c:227-237 | The incorrect squares are listed in increasing row-major order |
| Grading.IncompleteMeansUnfilled | main.c:218-243 | When the attempt keeps the givens but is not complete, filled < total |
| Grading.AllCorrectIffNoneListed | main.c:229-243 | correct == filled exactly when no square is listed as incorrect |
| Grading.TotalIsBlanks | main.c:229-230 | total counts the puzzle's blanks, whatever the attempt and solution |
| Harness.IncorrectLines | main.c:236 | One "Incorrect square" line per listed square, in order |
| Harness.RunHarness | main.c:183-251 | main() produces exactly the Expected outcome: status, output and diagnostic |
| Harness.LoadAndCheck | main.c:183-205 | The loads and the four checks fail exactly as Preflight does, with its failure; on success the grids hold the loaded boards |
| Harness.SolveAndReport | main.c:207-251 | From the copy onwards, the outcome is Judge of the loaded boards |
| Harness.SolveAndShow | main.c:207-216 | The puzzle is unchanged, the scratch grid is the solver's result, and the puzzle and the attempt are shown in that order |
| Harness.Conclude | main.c:218-251 | Status 1 with GivensModified if the solver changed a given, otherwise the report and the known solution, status 0 |
| Harness.ReportOn | main.c:223-246 | Congratulations for a complete attempt, otherwise the incorrect squares and the two count lines |
| Harness.Copy | main.c:207 | memcpy makes the scratch grid equal to the puzzle |
| Harness.ApplySolver | main.c:212 | After solve(), the scratch grid is the solver's result on the old contents |
| Harness.FirstFailingCheckReported | main.c:187-205 | Of loaded grids, the failure reported is that of the first of the four checks, in main()'s order, that fails |
| Harness.AllChecksPass | main.c:187-205 | The checks pass exactly when all four hold; the known solution is then complete, valid and keeps the puzzle's digits |
| Harness.PuzzleReadFirst | main.c:183-185 | An unreadable puzzle is reported whatever the solution file holds, with no output |
| Harness.PreflightIgnoresSolver | main.c:183-205 | When a check before the solver fails, nothing is printed, the status is 1 and the solver makes no difference |
| Harness.ExitStatus | main.c:178-251 | The status is 0 or 1; it is 0 exactly when there is no diagnostic, and exactly when both files load, all four checks pass and the solver keeps the givens |
| Harness.JudgeShows | main.c:207-249 | Once the givens survive, the output starts with the puzzle and the attempt and ends with the known solution |
| Harness.CompleteAttemptCongratulated | main.c:223-246 | A complete attempt that keeps the givens is congratulated, and no square is graded |
| Harness.WrongAttemptCongratulated | main.c:223-246 | For any puzzle with a blank square, some solver returns a grid other than the known solution and is congratulated anyway |
| Harness.IncompleteAttemptGraded | main.c:223-243 | An incomplete attempt is graded: one line per wrong square, then the filled and correct counts, with correct <= filled < total |
| Harness.KnownSolutionCongratulated | main.c:187-246 | A solver that returns the known solution of a checked pair is congratulated |

## Left out

- Command-line handling (main.c:178-181): the `argc` check and the usage message are not modelled. The two files are given by their contents.
- `fopen` failure and the `strerror` diagnostic (main.c:127-130) are not modelled: the model reads text, not files. The unclosed `FILE` is not modelled either.
- The file name that prefixes each `load()` diagnostic is not modelled. A diagnostic is a `LoadError` value: EndOfFile, InvalidDigit with row, column and character, or ExpectedNewline.
- The wording of each diagnostic and of each standard-output line is not modelled. Each stands as a constructor of `Failure` or `Message`, with the numbers it prints as fields.
- The clock and the "Ran in N clock cycles" line (main.c:211-215): `clock()` is I/O. `AttemptShown` stands for that line and the attempt's rendering, without the count.
- Grid messages: each holds the board whose rendering `print()` writes, not the text. `Printer.Print` proves that the text is `Printer.Render` of that board.
- `solve()` is external code, a parameter `Board -> Board`. The model covers the grid the solver leaves behind, for every such grid. It does not model anything else the solver does: output it writes itself (which would appear between the puzzle and the "Ran in" line, main.c:208-216), a call to `exit()`, or never returning.
- `static` storage and the zero-initialisation of `master` and `solution` are not modelled. Every array is allocated fresh. The model does not depend on the initial contents, because `load()` overwrites every cell it reads and a failure exits.
- Checks.Valid: requires cells in 0..9. That is what `load()` guarantees (`Parser.ParseSucceedsIff`), and `valid()` is never called on the solver's grid. For larger cells the C code would index `hits` out of bounds.
