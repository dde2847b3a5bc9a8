/**
 * load(): reading a grid from a character stream. The stream is a sequence
 * of characters whose end is end-of-file. Nine lines are read, each of nine
 * cell characters followed by a newline, so stream position p holds row
 * p / 10, column p % 10, and column 9 is the newline slot.
 */
module Parser {
  import opened Wrappers
  import opened Grids

  /** The three ways reading a grid can fail. */
  datatype LoadError =
    | EndOfFile
    | InvalidDigit(row: nat, col: nat, found: char)
    | ExpectedNewline

  /** The number of stream characters a grid occupies. */
  const GRID_TEXT_LENGTH: nat := 90

  /** The characters the parser accepts in a cell slot: a space or a digit, '0' included. */
  predicate IsCellChar(c: char) {
    c == ' ' || '0' <= c <= '9'
  }

  /** The cell value of an accepted character: space and '0' are blank. */
  function CellValue(c: char): (v: byte)
    requires IsCellChar(c)
    ensures v <= 9
    ensures v == 0 <==> c == ' ' || c == '0'
  {
    if c == ' ' then 0 else (c as int - '0' as int) as byte
  }

  /** Character c is accepted at stream position p. */
  predicate SlotAccepts(p: nat, c: char) {
    if p % 10 == 9 then c == '\n' else IsCellChar(c)
  }

  /** The first n stream positions are present and accepted. */
  predicate ReadOk(s: seq<char>, n: nat) {
    n <= |s| && forall k :: 0 <= k < n ==> SlotAccepts(k, s[k])
  }

  /** Reading stream position p makes the parser give up. */
  predicate Fault(s: seq<char>, p: nat) {
    p >= |s| || !SlotAccepts(p, s[p])
  }

  /** The error reported for a fault at position p. */
  function FaultAt(s: seq<char>, p: nat): LoadError
    requires Fault(s, p)
  {
    if p % 10 == 9 then ExpectedNewline
    else if p >= |s| then EndOfFile
    else InvalidDigit(p / 10, p % 10, s[p])
  }

  /** The first faulty position at or after p, or 90 when the grid text is whole. */
  function FirstFault(s: seq<char>, p: nat): (q: nat)
    requires p <= GRID_TEXT_LENGTH && ReadOk(s, p)
    ensures p <= q <= GRID_TEXT_LENGTH
    ensures ReadOk(s, q)
    ensures q < GRID_TEXT_LENGTH ==> Fault(s, q)
    decreases GRID_TEXT_LENGTH - p
  {
    if p == GRID_TEXT_LENGTH || Fault(s, p) then p else FirstFault(s, p + 1)
  }

  /** Row i of a whole grid text. */
  function DecodeRow(s: seq<char>, i: nat): (row: seq<byte>)
    requires ReadOk(s, GRID_TEXT_LENGTH) && i < 9
    ensures |row| == 9
  {
    seq(9, j requires 0 <= j < 9 => CellValue(s[10 * i + j]))
  }

  /** The grid described by a whole grid text. */
  function Decode(s: seq<char>): Board
    requires ReadOk(s, GRID_TEXT_LENGTH)
  {
    seq(9, i requires 0 <= i < 9 => DecodeRow(s, i))
  }

  /** What load() produces for stream s: a grid, or the error at the first fault in reading order. */
  function Parse(s: seq<char>): Result<Board, LoadError> {
    var q := FirstFault(s, 0);
    if q < GRID_TEXT_LENGTH then Failure(FaultAt(s, q)) else Success(Decode(s))
  }

  /** Grid b after the cells at stream positions below n have been written from s. */
  function Overlay(b: Board, s: seq<char>, n: nat): Board
    requires n <= GRID_TEXT_LENGTH && ReadOk(s, n)
  {
    seq(9, i requires 0 <= i < 9 => OverlayRow(b, s, n, i))
  }

  function OverlayRow(b: Board, s: seq<char>, n: nat, i: nat): (row: seq<byte>)
    requires n <= GRID_TEXT_LENGTH && ReadOk(s, n) && i < 9
    ensures |row| == 9
  {
    seq(9, j requires 0 <= j < 9 => if 10 * i + j < n then CellValue(s[10 * i + j]) else b[i][j])
  }

  /** Reading one more accepted cell character writes exactly that cell. */
  lemma OverlayStep(b: Board, s: seq<char>, i: nat, j: nat)
    requires i < 9 && j < 9 && ReadOk(s, 10 * i + j + 1)
    ensures var cur := Overlay(b, s, 10 * i + j);
      Overlay(b, s, 10 * i + j + 1) == cur[i := cur[i][j := CellValue(s[10 * i + j])]]
  {
    var cur := Overlay(b, s, 10 * i + j);
    BoardEq(Overlay(b, s, 10 * i + j + 1), cur[i := cur[i][j := CellValue(s[10 * i + j])]]);
  }

  /** Reading a newline writes no cell. */
  lemma OverlayNewline(b: Board, s: seq<char>, i: nat)
    requires i < 9 && ReadOk(s, 10 * i + 10)
    ensures Overlay(b, s, 10 * i + 10) == Overlay(b, s, 10 * i + 9)
  {
    BoardEq(Overlay(b, s, 10 * i + 10), Overlay(b, s, 10 * i + 9));
  }

  /**
   * The switch on one cell character read at row i, column j: a space or a
   * digit gives the cell value, end of file and any other character an error.
   */
  function ReadCell(c: Option<char>, i: nat, j: nat): (r: Result<byte, LoadError>)
    ensures r.Success? <==> c.Some? && IsCellChar(c.value)
    ensures r.Success? ==> r.value == CellValue(c.value)
    ensures c.None? ==> r == Failure(EndOfFile)
    ensures c.Some? && !IsCellChar(c.value) ==> r == Failure(InvalidDigit(i, j, c.value))
  {
    match c
    case None => Failure(EndOfFile)
    case Some(ch) =>
      if ch == ' ' then Success(0)
      else if '0' <= ch <= '9' then Success((ch as int - '0' as int) as byte)
      else Failure(InvalidDigit(i, j, ch))
  }

  /** getc(): the character at the cursor, or None at end of file. */
  function Getc(s: seq<char>, pos: nat): (c: Option<char>)
    ensures c.Some? <==> pos < |s|
    ensures c.Some? ==> c.value == s[pos]
  {
    if pos < |s| then Some(s[pos]) else None
  }

  /**
   * load()'s parsing loop. Cells are written in place as they are read, so
   * on failure the cells read before the faulty position hold their new
   * values and all others keep their old ones.
   */
  method Load(s: seq<char>, g: array2<byte>) returns (err: Option<LoadError>)
    requires Is9x9(g)
    modifies g
    ensures err == (if Parse(s).Success? then None else Some(Parse(s).error))
    ensures err.None? ==> Value(g) == Parse(s).value
    ensures Value(g) == Overlay(old(Value(g)), s, FirstFault(s, 0))
  {
    ghost var before := Value(g);
    BoardEq(before, Overlay(before, s, 0));
    var pos := 0;
    for i := 0 to 9
      invariant pos == 10 * i && ReadOk(s, pos)
      invariant Value(g) == Overlay(before, s, pos)
    {
      for j := 0 to 9
        invariant pos == 10 * i + j && ReadOk(s, pos)
        invariant Value(g) == Overlay(before, s, pos)
      {
        var cell := ReadCell(Getc(s, pos), i, j);
        ReadCellAgrees(s, i, j);
        if cell.Failure? {
          FailsAt(s, pos);
          return Some(cell.error);
        }
        var digit := cell.value;
        Store(g, i, j, digit);
        OverlayStep(before, s, i, j);
        pos := pos + 1;
      }
      var c := Getc(s, pos);
      if c != Some('\n') {
        FailsAt(s, pos);
        return Some(ExpectedNewline);
      }
      OverlayNewline(before, s, i);
      pos := pos + 1;
    }
    FailsAt(s, pos);
    BoardEq(Overlay(before, s, GRID_TEXT_LENGTH), Decode(s));
    return None;
  }

  /** puzzle[i][j] = digit, seen on the grid's value. */
  method Store(g: array2<byte>, i: nat, j: nat, digit: byte)
    requires Is9x9(g) && i < 9 && j < 9
    modifies g
    ensures Value(g) == old(Value(g))[i := old(Value(g))[i][j := digit]]
  {
    ghost var cur := Value(g);
    g[i, j] := digit;
    BoardEq(Value(g), cur[i := cur[i][j := digit]]);
  }

  /** The cell switch agrees with the stream reading: it fails exactly at a fault, with that fault's error. */
  lemma ReadCellAgrees(s: seq<char>, i: nat, j: nat)
    requires i < 9 && j < 9
    ensures var r := ReadCell(Getc(s, 10 * i + j), i, j);
      && (r.Failure? <==> Fault(s, 10 * i + j))
      && (r.Failure? ==> r.error == FaultAt(s, 10 * i + j))
      && (r.Success? ==> r.value == CellValue(s[10 * i + j]))
  {
    var p := 10 * i + j;
    assert p / 10 == i && p % 10 == j;
  }

  /** The position where load() stops is the first fault. */
  lemma FailsAt(s: seq<char>, pos: nat)
    requires pos <= GRID_TEXT_LENGTH && ReadOk(s, pos)
    requires pos < GRID_TEXT_LENGTH ==> Fault(s, pos)
    ensures FirstFault(s, 0) == pos
    ensures pos < GRID_TEXT_LENGTH ==> Parse(s) == Failure(FaultAt(s, pos))
    ensures pos == GRID_TEXT_LENGTH ==> Parse(s) == Success(Decode(s))
  {
    FirstFaultIsFirst(s, 0, pos);
  }

  /** Any position that is reached without fault and then faults (or ends the text) is the first fault. */
  lemma {:induction false} FirstFaultIsFirst(s: seq<char>, p: nat, q: nat)
    requires p <= q <= GRID_TEXT_LENGTH && ReadOk(s, q)
    requires q < GRID_TEXT_LENGTH ==> Fault(s, q)
    ensures FirstFault(s, p) == q
    decreases q - p
  {
    if p < q {
      assert !Fault(s, p);
      FirstFaultIsFirst(s, p + 1, q);
    }
  }

  /** The character at row i, column j of a grid text (column 9 is the newline slot). */
  function CharAt(s: seq<char>, i: nat, j: nat): char
    requires 10 * i + j < |s|
  {
    s[10 * i + j]
  }

  /** The stream holds a whole, well-formed grid text in its first 90 characters. */
  predicate Accepted(s: seq<char>) {
    && |s| >= GRID_TEXT_LENGTH
    && (forall i, j :: 0 <= i < 9 && 0 <= j < 9 ==> IsCellChar(CharAt(s, i, j)))
    && (forall i :: 0 <= i < 9 ==> CharAt(s, i, 9) == '\n')
  }

  lemma {:induction false} AcceptedIffReadOk(s: seq<char>)
    ensures Accepted(s) <==> ReadOk(s, GRID_TEXT_LENGTH)
  {
    if Accepted(s) {
      forall k | 0 <= k < GRID_TEXT_LENGTH
        ensures SlotAccepts(k, s[k])
      {
        var i, j := k / 10, k % 10;
        assert k == 10 * i + j;
        if j < 9 {
          assert IsCellChar(CharAt(s, i, j));
        } else {
          assert CharAt(s, i, 9) == '\n';
        }
      }
    }
    if ReadOk(s, GRID_TEXT_LENGTH) {
      forall i, j | 0 <= i < 9 && 0 <= j < 9
        ensures IsCellChar(CharAt(s, i, j))
      {
        var k := 10 * i + j;
        assert k % 10 == j;
        assert SlotAccepts(k, s[k]);
      }
      forall i | 0 <= i < 9
        ensures CharAt(s, i, 9) == '\n'
      {
        var k := 10 * i + 9;
        assert k % 10 == 9;
        assert SlotAccepts(k, s[k]);
      }
    }
  }

  /**
   * load() succeeds iff the stream holds a well-formed grid text, and then
   * every cell is the value of its character, so in 0..9.
   */
  lemma ParseSucceedsIff(s: seq<char>)
    ensures Parse(s).Success? <==> Accepted(s)
    ensures Parse(s).Success? ==>
      && InRange(Parse(s).value)
      && forall i, j :: 0 <= i < 9 && 0 <= j < 9 ==> Parse(s).value[i][j] == CellValue(s[10 * i + j])
  {
    AcceptedIffReadOk(s);
    var q := FirstFault(s, 0);
    if ReadOk(s, GRID_TEXT_LENGTH) {
      FirstFaultIsFirst(s, 0, GRID_TEXT_LENGTH);
      var b := Decode(s);
      forall i, j | 0 <= i < 9 && 0 <= j < 9
        ensures b[i][j] == CellValue(s[10 * i + j]) && b[i][j] <= 9
      {
      }
    }
  }

  /**
   * The error is decided by the first offending position in reading order:
   * whatever follows it is never looked at.
   */
  lemma FirstOffenceDecides(s: seq<char>, p: nat)
    requires p < GRID_TEXT_LENGTH && ReadOk(s, p) && Fault(s, p)
    ensures Parse(s) == Failure(FaultAt(s, p))
    ensures FaultAt(s, p) == if p % 10 == 9 then ExpectedNewline
                             else if p == |s| then EndOfFile
                             else InvalidDigit(p / 10, p % 10, s[p])
  {
    FirstFaultIsFirst(s, 0, p);
  }

  /** A failing stream has a first offending position, and its error is the one reported. */
  lemma FailureHasFirstOffence(s: seq<char>)
    requires Parse(s).Failure?
    ensures exists p :: 0 <= p < GRID_TEXT_LENGTH && ReadOk(s, p) && Fault(s, p) && Parse(s).error == FaultAt(s, p)
  {
    var p := FirstFault(s, 0);
    assert ReadOk(s, p) && Fault(s, p);
  }

  /** End of file where the ninth line's newline belongs is reported as a missing newline. */
  lemma TruncatedLastLine(s: seq<char>)
    requires |s| == GRID_TEXT_LENGTH - 1 && ReadOk(s, GRID_TEXT_LENGTH - 1)
    ensures Parse(s) == Failure(ExpectedNewline)
  {
    FirstOffenceDecides(s, GRID_TEXT_LENGTH - 1);
  }

  /** Characters beyond the 90th are never read. */
  lemma {:induction false} ParseIgnoresTail(s: seq<char>, t: seq<char>)
    requires |s| >= GRID_TEXT_LENGTH
    ensures Parse(s + t) == Parse(s)
  {
    FirstFaultIgnoresTail(s, t, 0);
    if FirstFault(s, 0) == GRID_TEXT_LENGTH {
      BoardEq(Decode(s + t), Decode(s));
    }
  }

  lemma {:induction false} FirstFaultIgnoresTail(s: seq<char>, t: seq<char>, p: nat)
    requires |s| >= GRID_TEXT_LENGTH && p <= GRID_TEXT_LENGTH && ReadOk(s, p)
    ensures ReadOk(s + t, p) && FirstFault(s + t, p) == FirstFault(s, p)
    decreases GRID_TEXT_LENGTH - p
  {
    assert forall k :: 0 <= k < p ==> (s + t)[k] == s[k];
    if p < GRID_TEXT_LENGTH {
      assert (s + t)[p] == s[p];
      if !Fault(s, p) {
        FirstFaultIgnoresTail(s, t, p + 1);
      }
    }
  }

  /** The file character for a cell value: space for blank, else the digit. */
  function CellChar(v: byte): (c: char)
    requires v <= 9
    ensures IsCellChar(c) && CellValue(c) == v
  {
    if v == 0 then ' ' else (v as int + '0' as int) as char
  }

  /** The grid text describing b: nine lines of nine cell characters and a newline. */
  function Serialize(b: Board): (s: seq<char>)
    requires InRange(b)
    ensures |s| == GRID_TEXT_LENGTH
  {
    seq(GRID_TEXT_LENGTH, p requires 0 <= p < GRID_TEXT_LENGTH =>
      if p % 10 == 9 then '\n' else CellChar(b[p / 10][p % 10]))
  }

  /** Round trip: loading the text of an in-range grid, followed by anything, gives the grid back. */
  lemma ParseSerialize(b: Board, rest: seq<char>)
    requires InRange(b)
    ensures Parse(Serialize(b) + rest) == Success(b)
  {
    var s := Serialize(b);
    ParseIgnoresTail(s, rest);
    forall k | 0 <= k < GRID_TEXT_LENGTH
      ensures SlotAccepts(k, s[k])
    {
    }
    FirstFaultIsFirst(s, 0, GRID_TEXT_LENGTH);
    forall i, j | 0 <= i < 9 && 0 <= j < 9
      ensures Decode(s)[i][j] == b[i][j]
    {
      var k := 10 * i + j;
      assert k / 10 == i && k % 10 == j;
    }
    BoardEq(Decode(s), b);
  }

  /**
   * Round trip the other way: a stream that loads gives back its own first
   * 90 characters, except that a '0' cell is written as a space.
   */
  lemma SerializeParse(s: seq<char>)
    requires Parse(s).Success?
    ensures var b := Parse(s).value;
      InRange(b) &&
      forall k :: 0 <= k < GRID_TEXT_LENGTH ==> Serialize(b)[k] == if s[k] == '0' then ' ' else s[k]
  {
    var q := FirstFault(s, 0);
    assert q == GRID_TEXT_LENGTH && ReadOk(s, q);
    var b := Decode(s);
    assert InRange(b) by {
      forall i, j | 0 <= i < 9 && 0 <= j < 9
        ensures b[i][j] <= 9
      {
        assert b[i][j] == CellValue(s[10 * i + j]);
      }
    }
    forall k | 0 <= k < GRID_TEXT_LENGTH
      ensures Serialize(b)[k] == if s[k] == '0' then ' ' else s[k]
    {
      var i, j := k / 10, k % 10;
      assert k == 10 * i + j;
      assert SlotAccepts(k, s[k]);
      if j < 9 {
        assert b[i][j] == CellValue(s[k]);
        CellCharOfValue(s[k]);
      }
    }
  }

  /** Writing back the value of an accepted character gives the character, with '0' becoming a space. */
  lemma CellCharOfValue(c: char)
    requires IsCellChar(c)
    ensures CellChar(CellValue(c)) == if c == '0' then ' ' else c
  {
  }
}
