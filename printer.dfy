/**
 * print(): the box-drawing text rendering of a grid. Each grid row becomes
 * 21 characters and a newline; a separator line comes before rows 3 and 6,
 * so a rendering is 242 characters. For cells 0..9 these are 11 lines of 21
 * characters; a larger byte can print as a newline of its own, since
 * putchar(num + '0') keeps only the low 8 bits.
 */
module Printer {
  import opened Grids

  /** The width of every rendered line, not counting its newline. */
  const LINE_WIDTH: nat := 21

  /**
   * The glyph of a cell: '-' for a blank, otherwise the character
   * num + '0', truncated to 8 bits as putchar does.
   */
  function Glyph(v: byte): (c: char)
    ensures 1 <= v <= 9 ==> '1' <= c <= '9' && c as int - '0' as int == v as int
    ensures v <= 9 ==> (v == 0 <==> c == '-')
  {
    if v == 0 then '-' else ((v as int + '0' as int) % 256) as char
  }

  /** A rendered grid row: the nine glyphs separated by spaces, with " | " before columns 3 and 6. */
  function RowLine(row: seq<byte>): (line: seq<char>)
    requires |row| == 9
    ensures |line| == LINE_WIDTH + 1
  {
    [Glyph(row[0]), ' ', Glyph(row[1]), ' ', Glyph(row[2]), ' ', '|', ' ',
     Glyph(row[3]), ' ', Glyph(row[4]), ' ', Glyph(row[5]), ' ', '|', ' ',
     Glyph(row[6]), ' ', Glyph(row[7]), ' ', Glyph(row[8]), '\n']
  }

  /** The separator line. */
  function SeparatorLine(): (line: seq<char>)
    ensures |line| == LINE_WIDTH + 1
  {
    "------+-------+------\n"
  }

  /** The nine row lines of a grid. */
  function RowLines(b: Board): (rows: seq<seq<char>>)
    ensures |rows| == 9
    ensures forall i | 0 <= i < 9 :: |rows[i]| == LINE_WIDTH + 1
  {
    seq(9, i requires 0 <= i < 9 => RowLine(b[i]))
  }

  /** Line i of the row lines is the rendering of grid row i. */
  lemma RowLinesAt(b: Board, i: nat)
    requires i < 9
    ensures RowLines(b)[i] == RowLine(b[i])
  {
  }

  /** The eleven lines of a rendering: the nine row lines, with a separator line before rows 3 and 6. */
  function Layout(rows: seq<seq<char>>): (lines: seq<seq<char>>)
    requires |rows| == 9
    ensures |lines| == 11
  {
    [rows[0], rows[1], rows[2], SeparatorLine(),
     rows[3], rows[4], rows[5], SeparatorLine(),
     rows[6], rows[7], rows[8]]
  }

  /** The lines one after another. */
  function Concat(lines: seq<seq<char>>): seq<char> {
    if |lines| == 0 then [] else Concat(lines[..|lines| - 1]) + lines[|lines| - 1]
  }

  /** The whole rendering of a grid. */
  function Render(b: Board): string {
    Concat(Layout(RowLines(b)))
  }

  /** The line index of grid row i in the rendering: one more line per separator above it. */
  function LineOf(i: nat): nat {
    if i < 3 then i else if i < 6 then i + 1 else i + 2
  }

  /** The number of lines print() has written before it starts on grid row i. */
  function LinesBefore(i: nat): nat {
    if i == 0 then 0 else LineOf(i - 1) + 1
  }

  /** The number of characters print() has written for the first j cells of a row (or dashes of a separator). */
  function Written(j: nat): nat {
    if j == 0 then 0 else 2 * j - 1 + 2 * ((j - 1) / 3)
  }

  /** What print() writes before grid row i: a separator line before rows 3 and 6. */
  function SeparatorBefore(i: nat): seq<char> {
    if i != 0 && i % 3 == 0 then SeparatorLine() else []
  }

  /** print(): writes the rendering line by line. */
  method Print(g: array2<byte>) returns (out: string)
    requires Is9x9(g)
    ensures out == Render(Value(g))
  {
    ghost var rows := RowLines(Value(g));
    out := [];
    for i := 0 to 9
      invariant out == Printed(rows, i)
    {
      var text := PrintLine(g, i);
      RowStepLines(rows, i);
      RowLinesAt(Value(g), i);
      out := out + text;
    }
    PrintedAll(rows);
  }

  /** One pass of print()'s row loop: the separator line if row i starts a band, then the row. */
  method PrintLine(g: array2<byte>, i: nat) returns (text: string)
    requires Is9x9(g) && i < 9
    ensures text == SeparatorBefore(i) + RowLine(Value(g)[i])
  {
    text := [];
    if i != 0 && i % 3 == 0 {
      text := PrintSeparator();
    }
    var line := PrintRow(g, i);
    text := text + line;
  }

  /** print()'s separator loop: nine dashes, the fourth and seventh preceded by "-+-" instead of "-". */
  method PrintSeparator() returns (out: string)
    ensures out == SeparatorLine()
  {
    out := [];
    for j := 0 to 9
      invariant out == SeparatorLine()[..Written(j)]
    {
      ghost var before := out;
      if j != 0 {
        out := out + ['-'];
        if j % 3 == 0 {
          out := out + ['+', '-'];
        }
      }
      out := out + ['-'];
      assert out == before + SeparatorChunk(j);
      SeparatorStep(j);
    }
    out := out + ['\n'];
    LineEnd(SeparatorLine());
  }

  /** print()'s cell loop for row i. */
  method PrintRow(g: array2<byte>, i: nat) returns (out: string)
    requires Is9x9(g) && i < 9
    ensures out == RowLine(Value(g)[i])
  {
    ghost var row := Value(g)[i];
    out := [];
    for j := 0 to 9
      invariant out == RowLine(row)[..Written(j)]
    {
      ghost var before := out;
      var num := g[i, j];
      if j != 0 {
        out := out + [' '];
        if j % 3 == 0 {
          out := out + ['|', ' '];
        }
      }
      out := out + [Glyph(num)];
      assert out == before + Chunk(row, j);
      RowStep(row, j);
    }
    out := out + ['\n'];
    LineEnd(RowLine(row));
  }

  /** A longer prefix of a line is a shorter one followed by the slice between them. */
  lemma PrefixGrows(s: seq<char>, m: nat, n: nat)
    requires m <= n <= |s|
    ensures s[..n] == s[..m] + s[m..n]
  {
  }

  /** A written line is its 21 characters and a newline. */
  lemma LineEnd(line: seq<char>)
    requires |line| == LINE_WIDTH + 1 && line[LINE_WIDTH] == '\n'
    ensures line == line[..Written(9)] + ['\n']
  {
    assert Written(9) == LINE_WIDTH;
  }

  /** What print() writes for cell j of a row: the separator before it, then its glyph. */
  function Chunk(row: seq<byte>, j: nat): seq<char>
    requires |row| == 9 && j < 9
  {
    (if j == 0 then [] else if j % 3 == 0 then [' ', '|', ' '] else [' ']) + [Glyph(row[j])]
  }

  /** What print() writes for step j of a separator line. */
  function SeparatorChunk(j: nat): seq<char> {
    if j == 0 then ['-'] else if j % 3 == 0 then ['-', '+', '-', '-'] else ['-', '-']
  }

  /** Cell step j of print() extends the written prefix of the row line by Chunk(row, j). */
  lemma RowStep(row: seq<byte>, j: nat)
    requires |row| == 9 && j < 9
    ensures Written(j + 1) <= LINE_WIDTH
    ensures RowLine(row)[..Written(j + 1)] == RowLine(row)[..Written(j)] + Chunk(row, j)
  {
    RowSlice(row, j);
    PrefixGrows(RowLine(row), Written(j), Written(j + 1));
  }

  /** Step j of the line sits between Written(j) and Written(j + 1). */
  lemma RowSlice(row: seq<byte>, j: nat)
    requires |row| == 9 && j < 9
    ensures Written(j + 1) <= LINE_WIDTH
    ensures RowLine(row)[Written(j)..Written(j + 1)] == Chunk(row, j)
  {
    var line := RowLine(row);
    if j == 0 {
      assert Written(j) == 0 && Written(j + 1) == 1;
      assert line[0..1] == Chunk(row, 0);
    } else if j == 1 {
      assert Written(j) == 1 && Written(j + 1) == 3;
      assert line[1..3] == Chunk(row, 1);
    } else if j == 2 {
      assert Written(j) == 3 && Written(j + 1) == 5;
      assert line[3..5] == Chunk(row, 2);
    } else if j == 3 {
      assert Written(j) == 5 && Written(j + 1) == 9;
      assert line[5..9] == Chunk(row, 3);
    } else if j == 4 {
      assert Written(j) == 9 && Written(j + 1) == 11;
      assert line[9..11] == Chunk(row, 4);
    } else if j == 5 {
      assert Written(j) == 11 && Written(j + 1) == 13;
      assert line[11..13] == Chunk(row, 5);
    } else if j == 6 {
      assert Written(j) == 13 && Written(j + 1) == 17;
      assert line[13..17] == Chunk(row, 6);
    } else if j == 7 {
      assert Written(j) == 17 && Written(j + 1) == 19;
      assert line[17..19] == Chunk(row, 7);
    } else {
      assert Written(j) == 19 && Written(j + 1) == 21;
      assert line[19..21] == Chunk(row, 8);
    }
  }

  /** Step j of the separator loop extends the written prefix of the separator line. */
  lemma SeparatorStep(j: nat)
    requires j < 9
    ensures Written(j + 1) <= LINE_WIDTH
    ensures SeparatorLine()[..Written(j + 1)] == SeparatorLine()[..Written(j)] + SeparatorChunk(j)
  {
    SeparatorSlice(j);
    PrefixGrows(SeparatorLine(), Written(j), Written(j + 1));
  }

  /** Step j of the line sits between Written(j) and Written(j + 1). */
  lemma SeparatorSlice(j: nat)
    requires j < 9
    ensures Written(j + 1) <= LINE_WIDTH
    ensures SeparatorLine()[Written(j)..Written(j + 1)] == SeparatorChunk(j)
  {
    var line := SeparatorLine();
    if j == 0 {
      assert Written(j) == 0 && Written(j + 1) == 1;
      assert line[0] == '-';
      assert line[0..1] == SeparatorChunk(0);
    } else if j == 1 {
      assert Written(j) == 1 && Written(j + 1) == 3;
      assert line[1] == '-' && line[2] == '-';
      assert line[1..3] == SeparatorChunk(1);
    } else if j == 2 {
      assert Written(j) == 3 && Written(j + 1) == 5;
      assert line[3] == '-' && line[4] == '-';
      assert line[3..5] == SeparatorChunk(2);
    } else if j == 3 {
      assert Written(j) == 5 && Written(j + 1) == 9;
      assert line[5] == '-' && line[6] == '+' && line[7] == '-' && line[8] == '-';
      assert line[5..9] == SeparatorChunk(3);
    } else if j == 4 {
      assert Written(j) == 9 && Written(j + 1) == 11;
      assert line[9] == '-' && line[10] == '-';
      assert line[9..11] == SeparatorChunk(4);
    } else if j == 5 {
      assert Written(j) == 11 && Written(j + 1) == 13;
      assert line[11] == '-' && line[12] == '-';
      assert line[11..13] == SeparatorChunk(5);
    } else if j == 6 {
      assert Written(j) == 13 && Written(j + 1) == 17;
      assert line[13] == '-' && line[14] == '+' && line[15] == '-' && line[16] == '-';
      assert line[13..17] == SeparatorChunk(6);
    } else if j == 7 {
      assert Written(j) == 17 && Written(j + 1) == 19;
      assert line[17] == '-' && line[18] == '-';
      assert line[17..19] == SeparatorChunk(7);
    } else {
      assert Written(j) == 19 && Written(j + 1) == 21;
      assert line[19] == '-' && line[20] == '-';
      assert line[19..21] == SeparatorChunk(8);
    }
  }

  /** Where grid row i and the separator above it sit among the lines. */
  lemma LayoutAt(rows: seq<seq<char>>, i: nat)
    requires |rows| == 9 && i < 9
    ensures Layout(rows)[LineOf(i)] == rows[i]
    ensures LinesBefore(i + 1) == LineOf(i) + 1
    ensures i != 0 && i % 3 == 0 ==> LineOf(i) == LinesBefore(i) + 1 && Layout(rows)[LinesBefore(i)] == SeparatorLine()
    ensures !(i != 0 && i % 3 == 0) ==> LineOf(i) == LinesBefore(i)
  {
  }

  /** The text print() has written before it starts on grid row i. */
  function Printed(rows: seq<seq<char>>, i: nat): seq<char>
    requires |rows| == 9 && i <= 9
  {
    Concat(Layout(rows)[..LinesBefore(i)])
  }

  /** After the last row print() has written the whole rendering. */
  lemma PrintedAll(rows: seq<seq<char>>)
    requires |rows| == 9
    ensures Printed(rows, 9) == Concat(Layout(rows))
  {
    var lines := Layout(rows);
    assert lines[..11] == lines;
  }

  /** What print() adds for grid row i: the separator above it, if any, then its row line. */
  lemma RowStepLines(rows: seq<seq<char>>, i: nat)
    requires |rows| == 9 && i < 9
    ensures Printed(rows, i + 1) == Printed(rows, i) + (SeparatorBefore(i) + rows[i])
  {
    var lines := Layout(rows);
    LayoutAt(rows, i);
    if i != 0 && i % 3 == 0 {
      ConcatStep(lines, LinesBefore(i));
    }
    ConcatStep(lines, LineOf(i));
  }

  /** Lines of row lines that are 22 characters long are all 22 characters long. */
  lemma LayoutLines(rows: seq<seq<char>>)
    requires |rows| == 9 && forall i | 0 <= i < 9 :: |rows[i]| == LINE_WIDTH + 1
    ensures forall k | 0 <= k < 11 :: |Layout(rows)[k]| == LINE_WIDTH + 1
  {
  }

  /** Taking one more line appends it. */
  lemma ConcatStep(lines: seq<seq<char>>, k: nat)
    requires k < |lines|
    ensures Concat(lines[..k + 1]) == Concat(lines[..k]) + lines[k]
  {
    assert lines[..k + 1][..k] == lines[..k];
  }

  /** Lines of 22 characters concatenate to 22 per line. */
  lemma {:induction false} ConcatLength(lines: seq<seq<char>>)
    requires forall k | 0 <= k < |lines| :: |lines[k]| == LINE_WIDTH + 1
    ensures |Concat(lines)| == 22 * |lines|
  {
    if |lines| > 0 {
      ConcatLength(lines[..|lines| - 1]);
    }
  }

  /** Character c of line k is character 22 * k + c of the concatenation. */
  lemma {:induction false} ConcatIndex(lines: seq<seq<char>>, k: nat, c: nat)
    requires forall t | 0 <= t < |lines| :: |lines[t]| == LINE_WIDTH + 1
    requires k < |lines| && c < LINE_WIDTH + 1
    ensures 22 * k + c < |Concat(lines)|
    ensures Concat(lines)[22 * k + c] == lines[k][c]
  {
    var init := lines[..|lines| - 1];
    ConcatLength(init);
    ConcatLength(lines);
    if k < |lines| - 1 {
      ConcatIndex(init, k, c);
      assert init[k] == lines[k];
    }
  }

  /** A rendering is 242 characters, whatever the cells hold. */
  lemma RenderLength(b: Board)
    ensures |Render(b)| == 11 * 22
  {
    LayoutLines(RowLines(b));
    ConcatLength(Layout(RowLines(b)));
  }

  /** A printed line: 21 characters, none of them a newline, then a newline. */
  predicate IsLine(line: seq<char>) {
    |line| == LINE_WIDTH + 1 && line[LINE_WIDTH] == '\n' && '\n' !in line[..LINE_WIDTH]
  }

  /** No cell step of a row of cells 0..9 writes a newline. */
  lemma {:induction false} RowPrefixPlain(row: seq<byte>, j: nat)
    requires |row| == 9 && j <= 9 && forall t | 0 <= t < 9 :: row[t] <= 9
    ensures Written(j) <= LINE_WIDTH && '\n' !in RowLine(row)[..Written(j)]
    decreases j
  {
    if j > 0 {
      RowPrefixPlain(row, j - 1);
      RowStep(row, j - 1);
    }
  }

  /** No dash step of the separator loop writes a newline. */
  lemma {:induction false} SeparatorPrefixPlain(j: nat)
    requires j <= 9
    ensures Written(j) <= LINE_WIDTH && '\n' !in SeparatorLine()[..Written(j)]
    decreases j
  {
    if j > 0 {
      SeparatorPrefixPlain(j - 1);
      SeparatorStep(j - 1);
    }
  }

  /** The row line of cells 0..9 is a printed line. */
  lemma RowLineIsLine(row: seq<byte>)
    requires |row| == 9 && forall t | 0 <= t < 9 :: row[t] <= 9
    ensures IsLine(RowLine(row))
  {
    RowPrefixPlain(row, 9);
  }

  /** The separator line is a printed line. */
  lemma SeparatorIsLine()
    ensures IsLine(SeparatorLine())
  {
    SeparatorPrefixPlain(9);
  }

  /** Laying out nine printed lines gives eleven printed lines. */
  lemma LayoutIsLines(rows: seq<seq<char>>)
    requires |rows| == 9 && forall i | 0 <= i < 9 :: IsLine(rows[i])
    ensures forall t | 0 <= t < 11 :: IsLine(Layout(rows)[t])
  {
    SeparatorIsLine();
  }

  /** In printed lines one after another, a character is a newline exactly when it ends a line. */
  lemma ConcatLines(lines: seq<seq<char>>)
    requires forall t | 0 <= t < |lines| :: IsLine(lines[t])
    ensures |Concat(lines)| == 22 * |lines|
    ensures forall k | 0 <= k < |Concat(lines)| :: (Concat(lines)[k] == '\n' <==> k % 22 == LINE_WIDTH)
  {
    ConcatLength(lines);
    forall k | 0 <= k < |Concat(lines)|
      ensures Concat(lines)[k] == '\n' <==> k % 22 == LINE_WIDTH
    {
      var t, c := k / 22, k % 22;
      ConcatIndex(lines, t, c);
      if c < LINE_WIDTH {
        assert lines[t][c] == lines[t][..LINE_WIDTH][c];
      }
    }
  }

  /**
   * For cells 0..9 the rendering is 11 lines of 21 characters: a character
   * is a newline exactly when it ends a 22-character line.
   */
  lemma RenderLines(b: Board)
    requires InRange(b)
    ensures |Render(b)| == 11 * 22
    ensures forall k | 0 <= k < |Render(b)| :: (Render(b)[k] == '\n' <==> k % 22 == LINE_WIDTH)
  {
    var rows := RowLines(b);
    forall i | 0 <= i < 9
      ensures IsLine(rows[i])
    {
      RowLinesAt(b, i);
      RowLineIsLine(b[i]);
    }
    LayoutIsLines(rows);
    ConcatLines(Layout(rows));
  }

  /** A cell byte of 218 prints as a newline, so outside 0..9 the line structure is lost. */
  lemma WideByteBreaksLine()
    ensures var b: Board := EMPTY[0 := EMPTY[0][0 := 218]];
      Render(b)[0] == '\n' && 0 % 22 != LINE_WIDTH
  {
    var b: Board := EMPTY[0 := EMPTY[0][0 := 218]];
    RenderCell(b, 0, 0);
  }

  /** The column of cell j within a rendered row line: two more columns per " |" to its left. */
  function ColumnOf(j: nat): nat {
    if j < 3 then 2 * j else if j < 6 then 2 * j + 2 else 2 * j + 4
  }

  /** Character c of row line i is character 22 * LineOf(i) + c of the rendering. */
  lemma LayoutIndex(rows: seq<seq<char>>, i: nat, c: nat)
    requires |rows| == 9 && forall t | 0 <= t < 9 :: |rows[t]| == LINE_WIDTH + 1
    requires i < 9 && c < LINE_WIDTH + 1
    ensures 22 * LineOf(i) + c < |Concat(Layout(rows))|
    ensures Concat(Layout(rows))[22 * LineOf(i) + c] == rows[i][c]
  {
    LayoutAt(rows, i);
    LayoutLines(rows);
    ConcatIndex(Layout(rows), LineOf(i), c);
  }

  /** Cell (i, j) is drawn at column ColumnOf(j) of line LineOf(i), as its glyph. */
  lemma RenderCell(b: Board, i: nat, j: nat)
    requires i < 9 && j < 9
    ensures 22 * LineOf(i) + ColumnOf(j) < |Render(b)|
    ensures Render(b)[22 * LineOf(i) + ColumnOf(j)] == Glyph(b[i][j])
  {
    var rows := RowLines(b);
    LayoutIndex(rows, i, ColumnOf(j));
    RowLinesAt(b, i);
    RowLineCell(b[i], j);
  }

  lemma RowLineCell(row: seq<byte>, j: nat)
    requires |row| == 9 && j < 9
    ensures RowLine(row)[ColumnOf(j)] == Glyph(row[j])
  {
    var line := RowLine(row);
    if j == 0 {
    } else if j == 1 {
    } else if j == 2 {
    } else if j == 3 {
    } else if j == 4 {
    } else if j == 5 {
    } else if j == 6 {
    } else if j == 7 {
    } else {
    }
  }

  /** Distinct cell values in 0..9 are drawn with distinct glyphs. */
  lemma GlyphInjective(u: byte, v: byte)
    requires u <= 9 && v <= 9 && Glyph(u) == Glyph(v)
    ensures u == v
  {
  }

  /** The rendering of an in-range grid determines the grid. */
  lemma RenderInjective(a: Board, b: Board)
    requires InRange(a) && InRange(b) && Render(a) == Render(b)
    ensures a == b
  {
    forall i, j | 0 <= i < 9 && 0 <= j < 9
      ensures a[i][j] == b[i][j]
    {
      RenderCell(a, i, j);
      RenderCell(b, i, j);
      GlyphInjective(a[i][j], b[i][j]);
    }
    BoardEq(a, b);
  }
}
