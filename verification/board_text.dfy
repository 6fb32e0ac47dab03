/** The two text forms of a board from the core package: the boxed form of
    `serializeBoard`/`readBoard` (dash dividers, `|XY|` cells, two blanks for an
    empty square) and the run-length form of `serializeCompressedBoard`/
    `readCompressedBoard` (rows separated by '/', a digit for a run of empty
    squares, a letter per piece whose case gives the side). */
module BoardText {
  import opened Wrappers
  import opened Utils
  import opened Text
  import opened Board

  // ---------------------------------------------------------------------------
  // Boxed form: serializeBoard
  // ---------------------------------------------------------------------------

  /** A cell of the boxed form: the piece code, or two blanks. */
  function CellText(c: Cell): string {
    match c
    case None => "  "
    case Some(p) => SerializePiece(p)
  }

  function CellTexts(row: seq<Cell>): (r: seq<string>)
    ensures |r| == |row| && forall i :: 0 <= i < |row| ==> r[i] == CellText(row[i])
  {
    seq(|row|, i requires 0 <= i < |row| => CellText(row[i]))
  }

  /** `serializeRow`: the cells between bars. */
  function RowText(row: seq<Cell>): string {
    "|" + Join(CellTexts(row), "|") + "|"
  }

  function RowTexts(b: Grid): (r: seq<string>)
    ensures |r| == |b| && forall i :: 0 <= i < |b| ==> r[i] == RowText(b[i])
  {
    seq(|b|, i requires 0 <= i < |b| => RowText(b[i]))
  }

  /** The divider line: three dashes per column and one more. */
  function Divider(cols: nat): (r: string)
    ensures |r| == 3 * cols + 1
  {
    Repeat('-', 3 * cols + 1)
  }

  /** `serializeBoard`: divider, the rows joined by a divider line, divider. */
  function SerializeBoard(b: Grid): string
    requires |b| > 0
  {
    var rowDivider := Divider(|b[0]|);
    Join([rowDivider, Join(RowTexts(b), "\n" + rowDivider + "\n"), rowDivider], "\n")
  }

  // ---------------------------------------------------------------------------
  // Boxed form: readBoard
  // ---------------------------------------------------------------------------

  /** `line[0]`, undefined for an empty line. */
  function FirstChar(line: string): Option<char> {
    if |line| == 0 then None else Some(line[0])
  }

  function FirstChars(lines: seq<string>): (r: seq<Option<char>>)
    ensures |r| == |lines| && forall i :: 0 <= i < |lines| ==> r[i] == FirstChar(lines[i])
  {
    seq(|lines|, i requires 0 <= i < |lines| => FirstChar(lines[i]))
  }

  /** A divider as `readBoard` accepts it: present, non-empty and all dashes. */
  predicate IsDividerLine(line: string) {
    |line| > 0 && forall i :: 0 <= i < |line| ==> line[i] == '-'
  }

  /** The divider expected above row `i` (and below the last row). */
  predicate DividerAt(lines: seq<string>, i: nat) {
    2 * i < |lines| && IsDividerLine(lines[2 * i])
  }

  /** A cell of the boxed form: two blanks, or a piece code. */
  function ReadCell(cell: string): Result<Cell> {
    if cell == "  " then Success(None)
    else
      match ReadPiece(cell)
      case Success(p) => Success(Some(p))
      case Failure(e) => Failure(e)
  }

  function ReadCells(cells: seq<string>): (r: Result<seq<Cell>>)
    ensures r.Success? ==> |r.value| == |cells|
  {
    if |cells| == 0 then Success([])
    else
      match (ReadCell(cells[0]), ReadCells(cells[1..]))
      case (Success(c), Success(rest)) => Success([c] + rest)
      case _ => Failure("Failed to parse board")
  }

  /** Row `i` sits on line 2i+1: the line must exist and be non-empty; its
      first and last characters are dropped and the rest is split at bars. */
  function ReadRowAt(lines: seq<string>, i: nat): Result<seq<Cell>> {
    if 2 * i + 1 >= |lines| || lines[2 * i + 1] == "" then Failure("Failed to parse board")
    else
      var row := lines[2 * i + 1];
      ReadCells(Split(Substr(row, 1, |row| - 2), '|'))
  }

  /** Rows 0 to n-1, failing if any of them fails. */
  function ReadRows(lines: seq<string>, n: nat): (r: Result<Grid>)
    ensures r.Success? ==> |r.value| == n
  {
    if n == 0 then Success([])
    else
      var rows := ReadRows(lines, n - 1);
      var row := ReadRowAt(lines, n - 1);
      if rows.Failure? || row.Failure? then Failure("Failed to parse board")
      else Success(rows.value + [row.value])
  }

  /** `readBoard`: the number of rows is the number of lines starting with a
      bar; every even line up to twice that must be a divider; the odd lines
      are the rows; the result must have rows of one non-zero width. Lines
      after the last divider are ignored. */
  function ReadBoard(serializedBoard: string): (r: Result<Grid>)
    ensures r.Success? ==> ValidBoard(r.value)
    ensures r.Success? ==> IsDividerLine(Split(serializedBoard, '\n')[0])
    ensures r.Success? ==>
              var lines := Split(serializedBoard, '\n');
              |lines| >= 2 * |r.value| + 1 &&
              forall i :: 0 <= i <= |r.value| ==> DividerAt(lines, i)
  {
    var lineSplit := Split(serializedBoard, '\n');
    var numRows := CountOccurrences(FirstChars(lineSplit), Some('|'));
    if !(forall i :: 0 <= i <= numRows ==> DividerAt(lineSplit, i)) then
      Failure("Failed to parse board")
    else
      match ReadRows(lineSplit, numRows)
      case Failure(e) => Failure(e)
      case Success(board) =>
        assert DividerAt(lineSplit, numRows) && DividerAt(lineSplit, 0);
        assert IsBoardValid(board) ==> ValidBoard(board) by {
          IsBoardValidMeansRectangular(board);
        }
        if IsBoardValid(board) then Success(board) else Failure("Failed to parse board")
  }

  // ---------------------------------------------------------------------------
  // Boxed form: the round trip
  // ---------------------------------------------------------------------------

  /** Each text followed by a divider line. */
  function Interleaved(texts: seq<string>, d: string): (r: seq<string>)
    ensures |r| == 2 * |texts|
  {
    if |texts| == 0 then [] else [texts[0], d] + Interleaved(texts[1..], d)
  }

  /** The lines of a serialized board: a divider, then each row followed by a
      divider. */
  function BoardLines(b: Grid): seq<string>
    requires ValidBoard(b)
  {
    [Divider(|b[0]|)] + Interleaved(RowTexts(b), Divider(|b[0]|))
  }

  lemma {:induction false} InterleavedAt(texts: seq<string>, d: string, q: nat)
    requires q < |texts|
    ensures Interleaved(texts, d)[2 * q] == texts[q]
    ensures Interleaved(texts, d)[2 * q + 1] == d
    decreases |texts|
  {
    if q > 0 {
      InterleavedAt(texts[1..], d, q - 1);
    }
  }

  lemma {:induction false} JoinInterleaved(texts: seq<string>, d: string)
    requires |texts| > 0
    ensures Join(Interleaved(texts, d), "\n") == Join(texts, "\n" + d + "\n") + "\n" + d
    decreases |texts|
  {
    var il := Interleaved(texts, d);
    if |texts| == 1 {
      assert il == [texts[0], d];
    } else {
      JoinInterleaved(texts[1..], d);
      assert il[1..] == [d] + Interleaved(texts[1..], d);
      assert il[1..][1..] == Interleaved(texts[1..], d);
    }
  }

  /** The serialized board is its lines joined by newlines. */
  lemma SerializeBoardIsLines(b: Grid)
    requires ValidBoard(b)
    ensures SerializeBoard(b) == Join(BoardLines(b), "\n")
  {
    var d := Divider(|b[0]|);
    JoinInterleaved(RowTexts(b), d);
    var lines := BoardLines(b);
    var x := Join(RowTexts(b), "\n" + d + "\n");
    var il := Interleaved(RowTexts(b), d);
    assert lines[1..] == il;
    assert [d, x, d][1..] == [x, d] && [x, d][1..] == [d];
    calc {
      SerializeBoard(b);
      Join([d, x, d], "\n");
      d + "\n" + Join([x, d], "\n");
      d + "\n" + (x + "\n" + d);
      { assert Join(il, "\n") == x + "\n" + d; }
      d + "\n" + Join(il, "\n");
      Join(lines, "\n");
    }
  }

  /** A cell text is two characters, neither a bar nor a newline. */
  lemma CellTextShape(c: Cell)
    ensures |CellText(c)| == 2 && '|' !in CellText(c) && '\n' !in CellText(c)
  {
    if c.Some? {
      var p := c.value;
      assert CellText(c) == SideLetter(p.side) + TypeLetter(p.kind);
    }
  }

  lemma RowTextShape(row: seq<Cell>)
    requires |row| > 0
    ensures |RowText(row)| >= 2 && RowText(row)[0] == '|'
    ensures Substr(RowText(row), 1, |RowText(row)| - 2) == Join(CellTexts(row), "|")
    ensures '\n' !in RowText(row)
  {
    var cells := CellTexts(row);
    forall i | 0 <= i < |cells| ensures '\n' !in cells[i] {
      CellTextShape(row[i]);
    }
    JoinNoSeparatorChar(cells, "|", '\n');
    var t := RowText(row);
    assert t[1..|t| - 1] == Join(cells, "|");
  }

  /** Line 2q of a serialized board is a divider and line 2q+1 is row q. */
  lemma BoardLineAt(b: Grid, q: nat)
    requires ValidBoard(b) && q <= |b|
    ensures |BoardLines(b)| == 2 * |b| + 1
    ensures BoardLines(b)[2 * q] == Divider(|b[0]|)
    ensures q < |b| ==> BoardLines(b)[2 * q + 1] == RowText(b[q])
  {
    var texts := RowTexts(b);
    LinesAt(texts, Divider(|b[0]|), q);
  }

  /** A divider, then each text followed by the divider: the dividers sit at
      the even positions and text q at position 2q+1. */
  lemma LinesAt(texts: seq<string>, d: string, q: nat)
    requires q <= |texts|
    ensures |[d] + Interleaved(texts, d)| == 2 * |texts| + 1
    ensures ([d] + Interleaved(texts, d))[2 * q] == d
    ensures q < |texts| ==> ([d] + Interleaved(texts, d))[2 * q + 1] == texts[q]
  {
    var il := Interleaved(texts, d);
    if q > 0 {
      InterleavedAt(texts, d, q - 1);
      assert ([d] + il)[2 * q] == il[2 * (q - 1) + 1];
    }
    if q < |texts| {
      InterleavedAt(texts, d, q);
      assert ([d] + il)[2 * q + 1] == il[2 * q];
    }
  }

  /** Every line of a serialized board, dividers and rows alike, is
      3 * columns + 1 characters wide and holds no newline. */
  lemma BoardLinesShape(b: Grid)
    requires ValidBoard(b)
    ensures |BoardLines(b)| == 2 * |b| + 1
    ensures forall k :: 0 <= k < |BoardLines(b)| ==>
              '\n' !in BoardLines(b)[k] && |BoardLines(b)[k]| == 3 * |b[0]| + 1
  {
    var d := Divider(|b[0]|);
    var texts := RowTexts(b);
    forall i | 0 <= i < |texts| ensures '\n' !in texts[i] && |texts[i]| == 3 * |b[0]| + 1 {
      RowLineShape(b[i]);
    }
    assert '\n' !in d;
    InterleavedLines(texts, d, 3 * |b[0]| + 1);
  }

  /** Texts and a divider of one width and without newlines interleave into
      lines of that width without newlines. */
  lemma {:induction false} InterleavedLines(texts: seq<string>, d: string, w: nat)
    requires '\n' !in d && |d| == w
    requires forall i :: 0 <= i < |texts| ==> '\n' !in texts[i] && |texts[i]| == w
    ensures forall k :: 0 <= k < |Interleaved(texts, d)| ==>
              '\n' !in Interleaved(texts, d)[k] && |Interleaved(texts, d)[k]| == w
    decreases |texts|
  {
    if |texts| > 0 {
      InterleavedLines(texts[1..], d, w);
      var il := Interleaved(texts, d);
      var rest := Interleaved(texts[1..], d);
      assert il == [texts[0], d] + rest;
      assert forall k :: 2 <= k < |il| ==> il[k] == rest[k - 2];
    }
  }

  /** A row line is 3 * cells + 1 characters wide and holds no newline. */
  lemma RowLineShape(row: seq<Cell>)
    requires |row| > 0
    ensures '\n' !in RowText(row) && |RowText(row)| == 3 * |row| + 1
  {
    RowTextShape(row);
    RowTextWidth(row);
  }

  lemma {:induction false} RowTextWidth(row: seq<Cell>)
    requires |row| > 0
    ensures |RowText(row)| == 3 * |row| + 1
    decreases |row|
  {
    var cells := CellTexts(row);
    CellTextShape(row[0]);
    if |row| > 1 {
      RowTextWidth(row[1..]);
      assert cells[1..] == CellTexts(row[1..]);
    }
  }

  lemma {:induction false} CountBars(texts: seq<string>, d: string)
    requires forall i :: 0 <= i < |texts| ==> FirstChar(texts[i]) == Some('|')
    requires FirstChar(d) != Some('|')
    ensures multiset(FirstChars(Interleaved(texts, d)))[Some('|')] == |texts|
    decreases |texts|
  {
    if |texts| > 0 {
      var il := Interleaved(texts, d);
      CountBars(texts[1..], d);
      assert FirstChars(il) == [FirstChar(texts[0]), FirstChar(d)] + FirstChars(Interleaved(texts[1..], d));
    }
  }

  lemma {:induction false} ReadCellTexts(row: seq<Cell>)
    ensures ReadCells(CellTexts(row)) == Success(row)
    decreases |row|
  {
    if |row| > 0 {
      ReadCellTexts(row[1..]);
      assert CellTexts(row)[1..] == CellTexts(row[1..]);
      ReadCellText(row[0]);
      assert row == [row[0]] + row[1..];
    }
  }

  lemma ReadCellText(c: Cell)
    ensures ReadCell(CellText(c)) == Success(c)
  {
    if c.Some? {
      var p := c.value;
      ReadSerializedPiece(p);
      assert SerializePiece(p)[0] == SideLetter(p.side)[0];
      assert SerializePiece(p) != "  ";
    }
  }

  lemma NoBarInCells(row: seq<Cell>)
    ensures forall i :: 0 <= i < |CellTexts(row)| ==> '|' !in CellTexts(row)[i]
  {
    forall i | 0 <= i < |row| ensures '|' !in CellTexts(row)[i] {
      CellTextShape(row[i]);
    }
  }

  lemma ReadRowsOfLines(b: Grid, n: nat)
    requires ValidBoard(b) && n <= |b|
    ensures ReadRows(BoardLines(b), n) == Success(b[..n])
  {
    var lines := BoardLines(b);
    forall q | 0 <= q < n ensures ReadRowAt(lines, q) == Success(b[q]) {
      ReadRowOfLine(b, q);
    }
    ReadRowsEach(lines, b, n);
  }

  /** Rows that each read back make `ReadRows` succeed with all of them. */
  lemma {:induction false} ReadRowsEach(lines: seq<string>, rows: Grid, n: nat)
    requires n <= |rows|
    requires forall q :: 0 <= q < n ==> ReadRowAt(lines, q) == Success(rows[q])
    ensures ReadRows(lines, n) == Success(rows[..n])
  {
    if n > 0 {
      ReadRowsEach(lines, rows, n - 1);
      assert rows[..n] == rows[..n - 1] + [rows[n - 1]];
    }
  }

  /** Line 2q+1 of a serialized board reads back as row q. */
  lemma ReadRowOfLine(b: Grid, q: nat)
    requires ValidBoard(b) && q < |b|
    ensures ReadRowAt(BoardLines(b), q) == Success(b[q])
  {
    BoardLineAt(b, q);
    ReadRowText(b[q]);
  }

  lemma ReadRowText(row: seq<Cell>)
    requires |row| > 0
    ensures RowText(row) != ""
    ensures var t := RowText(row);
            ReadCells(Split(Substr(t, 1, |t| - 2), '|')) == Success(row)
  {
    RowTextShape(row);
    NoBarInCells(row);
    SplitJoin(CellTexts(row), '|');
    ReadCellTexts(row);
  }

  lemma SplitSerializedBoard(b: Grid)
    requires ValidBoard(b)
    ensures Split(SerializeBoard(b), '\n') == BoardLines(b)
  {
    SerializeBoardIsLines(b);
    BoardLinesShape(b);
    SplitJoin(BoardLines(b), '\n');
  }

  /** The lines starting with a bar are exactly the row lines. */
  lemma CountRowLines(b: Grid)
    requires ValidBoard(b)
    ensures CountOccurrences(FirstChars(BoardLines(b)), Some('|')) == |b|
  {
    var texts := RowTexts(b);
    var d := Divider(|b[0]|);
    RowsStartWithBar(b);
    CountBars(texts, d);
    var firsts := FirstChars(Interleaved(texts, d));
    FirstCharsOfLines(b);
    assert multiset(FirstChars(BoardLines(b))) == multiset([Some('-')]) + multiset(firsts);
    CountOccurrencesIsMultiplicity(FirstChars(BoardLines(b)), Some('|'));
  }

  lemma RowsStartWithBar(b: Grid)
    requires ValidBoard(b)
    ensures forall i :: 0 <= i < |b| ==> FirstChar(RowTexts(b)[i]) == Some('|')
  {
    forall i | 0 <= i < |b| ensures FirstChar(RowTexts(b)[i]) == Some('|') {
      RowTextShape(b[i]);
    }
  }

  /** The first line of a serialized board is a divider, which starts with a
      dash. */
  lemma FirstCharsOfLines(b: Grid)
    requires ValidBoard(b)
    ensures FirstChars(BoardLines(b)) == [Some('-')] + FirstChars(Interleaved(RowTexts(b), Divider(|b[0]|)))
  {
    var d := Divider(|b[0]|);
    assert FirstChar(d) == Some('-');
    var il := Interleaved(RowTexts(b), d);
    assert BoardLines(b) == [d] + il;
    assert FirstChars([d] + il)[1..] == FirstChars(il);
  }

  lemma DividersOfLines(b: Grid)
    requires ValidBoard(b)
    ensures forall i :: 0 <= i <= |b| ==> DividerAt(BoardLines(b), i)
  {
    forall i | 0 <= i <= |b| ensures DividerAt(BoardLines(b), i) {
      BoardLineAt(b, i);
    }
  }

  /** Reading a serialized board gives back the board. */
  lemma ReadSerializedBoard(b: Grid)
    requires ValidBoard(b)
    ensures ReadBoard(SerializeBoard(b)) == Success(b)
  {
    SplitSerializedBoard(b);
    CountRowLines(b);
    DividersOfLines(b);
    ReadRowsOfLines(b, |b|);
    assert b[..|b|] == b;
    IsBoardValidMeansRectangular(b);
  }

  // ---------------------------------------------------------------------------
  // Compressed form: reading
  // ---------------------------------------------------------------------------

  /** `parseInt(c, 10)` for one character: its value if it is a digit. */
  function DigitValue(c: char): Option<nat> {
    if '0' <= c <= '9' then Some(c as int - '0' as int) else None
  }

  /** What one character of a compressed row stands for: a digit 1-9 is that
      many empty squares (a '0' is falsy and falls through to the piece
      lookup, where it fails); any other character is a piece letter, white
      when upper-casing leaves it unchanged. */
  function CompressedChar(c: char): Result<seq<Cell>> {
    var spaces := DigitValue(c);
    if spaces.Some? && spaces.value > 0 then Success(Repeat<Cell>(None, spaces.value))
    else
      match Get(ReversePieceTypeMap, [ToUpperChar(c)])
      case None => Failure("Parsing error.")
      case Some(kind) =>
        var side := if ToUpperChar(c) == c then White else Black;
        Success([Some(Piece(kind, side))])
  }

  /** Cells read so far followed by what a later part reads; the first
      failure wins. */
  function Concat(front: Result<seq<Cell>>, back: Result<seq<Cell>>): Result<seq<Cell>> {
    match front
    case Failure(e) => Failure(e)
    case Success(a) =>
      match back
      case Failure(e) => Failure(e)
      case Success(c) => Success(a + c)
  }

  lemma ConcatAssociative(p: Result<seq<Cell>>, q: Result<seq<Cell>>, r: Result<seq<Cell>>)
    ensures Concat(p, Concat(q, r)) == Concat(Concat(p, q), r)
  {
    if p.Success? && q.Success? && r.Success? {
      assert p.value + (q.value + r.value) == (p.value + q.value) + r.value;
    }
  }

  lemma ConcatEmpty(p: Result<seq<Cell>>)
    ensures Concat(Success([]), p) == p
  {
    if p.Success? {
      assert [] + p.value == p.value;
    }
  }

  /** A compressed row: the characters read one after the other. */
  function CompressedRow(row: string): Result<seq<Cell>>
  {
    if |row| == 0 then Success([]) else Concat(CompressedChar(row[0]), CompressedRow(row[1..]))
  }

  /** `readCompressedRow`: the loop over the characters, pushing empty squares
      for a digit and a piece for a letter. */
  method ReadCompressedRow(row: string) returns (r: Result<seq<Cell>>)
    ensures r == CompressedRow(row)
  {
    var parsedRow: seq<Cell> := [];
    var i := 0;
    assert row[0..] == row;
    ConcatEmpty(CompressedRow(row));
    while i < |row|
      invariant 0 <= i <= |row|
      invariant CompressedRow(row) == Concat(Success(parsedRow), CompressedRow(row[i..]))
    {
      var c := row[i];
      assert row[i..][0] == c && row[i..][1..] == row[i + 1..];
      ConcatAssociative(Success(parsedRow), CompressedChar(c), CompressedRow(row[i + 1..]));
      var spaces := DigitValue(c);
      if spaces.Some? && spaces.value > 0 {
        var j := 0;
        while j < spaces.value
          invariant 0 <= j <= spaces.value
          invariant CompressedRow(row) ==
                    Concat(Success(parsedRow + Repeat<Cell>(None, spaces.value - j)), CompressedRow(row[i + 1..]))
        {
          assert parsedRow + Repeat<Cell>(None, spaces.value - j) ==
                 (parsedRow + [None]) + Repeat<Cell>(None, spaces.value - j - 1);
          parsedRow := parsedRow + [None];
          j := j + 1;
        }
        assert parsedRow + Repeat<Cell>(None, 0) == parsedRow;
      } else {
        var pieceType := Get(ReversePieceTypeMap, [ToUpperChar(c)]);
        if pieceType.None? {
          return Failure("Parsing error.");
        }
        var side := if ToUpperChar(c) == c then White else Black;
        parsedRow := parsedRow + [Some(Piece(pieceType.value, side))];
      }
      i := i + 1;
    }
    assert parsedRow + [] == parsedRow;
    return Success(parsedRow);
  }

  /** Reading a concatenation reads each part. */
  lemma {:induction false} CompressedRowAppend(x: string, y: string)
    ensures CompressedRow(x + y) == Concat(CompressedRow(x), CompressedRow(y))
    decreases |x|
  {
    if |x| == 0 {
      assert x + y == y;
      if CompressedRow(y).Success? {
        assert [] + CompressedRow(y).value == CompressedRow(y).value;
      }
    } else {
      assert (x + y)[1..] == x[1..] + y;
      CompressedRowAppend(x[1..], y);
      ConcatAssociative(CompressedChar(x[0]), CompressedRow(x[1..]), CompressedRow(y));
    }
  }

  function ReadCompressedRows(rows: seq<string>): (r: Result<seq<seq<Cell>>>)
    ensures r.Success? ==> |r.value| == |rows|
  {
    if |rows| == 0 then Success([])
    else
      match (CompressedRow(rows[0]), ReadCompressedRows(rows[1..]))
      case (Success(row), Success(rest)) => Success([row] + rest)
      case _ => Failure("Parsing error.")
  }

  /** `readCompressedBoard`: the rows between slashes, each read, then the
      shape check. */
  function ReadCompressedBoard(compressedBoard: string): (r: Result<Grid>)
    ensures r.Success? ==> ValidBoard(r.value)
  {
    match ReadCompressedRows(Split(compressedBoard, '/'))
    case Failure(e) => Failure(e)
    case Success(parsedRows) =>
      assert IsBoardValid(parsedRows) ==> ValidBoard(parsedRows) by {
        IsBoardValidMeansRectangular(parsedRows);
      }
      if IsBoardValid(parsedRows) then Success(parsedRows) else Failure("Invalid board!")
  }

  // ---------------------------------------------------------------------------
  // Compressed form: writing
  // ---------------------------------------------------------------------------

  /** The letter of a piece: its type letter, lower-cased for black. */
  function PieceChar(p: Piece): char {
    var letter := TypeLetter(p.kind)[0];
    if p.side == White then letter else (letter as int + 32) as char
  }

  /** The text of a run of `k` empty squares: nothing for no run, otherwise
      the count in decimal. With `splitRuns`, a run longer than nine is
      written as several digits of at most nine each ("91" for ten), which
      the reader adds up; without it (as `serializeCompressedRow` does) the
      count is written whole. */
  function RunText(k: nat, splitRuns: bool): string
    decreases k
  {
    if k == 0 then ""
    else if !splitRuns || k <= 9 then NatToString(k)
    else "9" + RunText(k - 9, splitRuns)
  }

  /** One step of the `reduce` of `serializeCompressedRow`: an empty square
      lengthens the pending run; a piece writes the pending run and its
      letter. */
  function CompressStep(acc: (string, nat), c: Cell, splitRuns: bool): (string, nat) {
    match c
    case None => (acc.0, acc.1 + 1)
    case Some(p) => (acc.0 + RunText(acc.1, splitRuns) + [PieceChar(p)], 0)
  }

  function CompressFold(acc: (string, nat), row: seq<Cell>, splitRuns: bool): (string, nat)
    decreases |row|
  {
    if |row| == 0 then acc else CompressFold(CompressStep(acc, row[0], splitRuns), row[1..], splitRuns)
  }

  /** The fold, then the pending run at the end. */
  function CompressRow(row: seq<Cell>, splitRuns: bool): string {
    var compressedRow := CompressFold(("", 0), row, splitRuns);
    compressedRow.0 + RunText(compressedRow.1, splitRuns)
  }

  /** `serializeCompressedRow` as written. */
  function SerializeCompressedRow(row: seq<Cell>): string {
    CompressRow(row, false)
  }

  /** `serializeCompressedRow` with long runs split into digits of at most
      nine, so that every row reads back. */
  function SerializeCompressedRowSplitRuns(row: seq<Cell>): string {
    CompressRow(row, true)
  }

  function CompressRows(b: Grid, splitRuns: bool): (r: seq<string>)
    ensures |r| == |b| && forall i :: 0 <= i < |b| ==> r[i] == CompressRow(b[i], splitRuns)
  {
    seq(|b|, i requires 0 <= i < |b| => CompressRow(b[i], splitRuns))
  }

  /** `serializeCompressedBoard` as written: the rows joined by slashes. */
  function SerializeCompressedBoard(b: Grid): string {
    Join(CompressRows(b, false), "/")
  }

  /** `serializeCompressedBoard` over the corrected row serializer. */
  function SerializeCompressedBoardSplitRuns(b: Grid): string {
    Join(CompressRows(b, true), "/")
  }

  /** Some square among the ten from `i` on is occupied. */
  ghost predicate PieceWithinTen(row: seq<Cell>, i: int) {
    exists j :: i <= j < i + 10 && 0 <= j < |row| && row[j].Some?
  }

  /** No ten consecutive squares of the row are all empty. */
  ghost predicate NoLongRun(row: seq<Cell>) {
    forall i :: 0 <= i && i + 10 <= |row| ==> PieceWithinTen(row, i)
  }

  /** The text the fold still adds after a pending run of `k` empty squares. */
  function Tail(k: nat, row: seq<Cell>, splitRuns: bool): string
    decreases |row|
  {
    if |row| == 0 then RunText(k, splitRuns)
    else if row[0].None? then Tail(k + 1, row[1..], splitRuns)
    else RunText(k, splitRuns) + [PieceChar(row[0].value)] + Tail(0, row[1..], splitRuns)
  }

  lemma {:induction false} CompressFoldTail(s: string, k: nat, row: seq<Cell>, splitRuns: bool)
    ensures var f := CompressFold((s, k), row, splitRuns); f.0 + RunText(f.1, splitRuns) == s + Tail(k, row, splitRuns)
    decreases |row|
  {
    if |row| > 0 {
      var next := CompressStep((s, k), row[0], splitRuns);
      CompressFoldTail(next.0, next.1, row[1..], splitRuns);
    }
  }

  lemma CompressRowIsTail(row: seq<Cell>, splitRuns: bool)
    ensures CompressRow(row, splitRuns) == Tail(0, row, splitRuns)
  {
    CompressFoldTail("", 0, row, splitRuns);
    assert "" + Tail(0, row, splitRuns) == Tail(0, row, splitRuns);
  }

  lemma PieceCharReads(p: Piece)
    ensures CompressedRow([PieceChar(p)]) == Success([Some(p)])
  {
    var c := PieceChar(p);
    assert DigitValue(c).None?;
    assert [ToUpperChar(c)] == TypeLetter(p.kind);
    assert ToUpperChar(c) == c <==> p.side == White;
    assert [Some(p)] + [] == [Some(p)];
    ReversePieceTypeLookup([ToUpperChar(c)]);
    assert ([c])[1..] == "";
  }

  lemma DigitReads(k: nat)
    requires 0 < k <= 9
    ensures CompressedRow(NatToString(k)) == Success(Repeat<Cell>(None, k))
  {
    assert NatToString(k) == [DigitChar(k)];
    assert DigitValue(DigitChar(k)) == Some(k);
    assert NatToString(k)[1..] == "";
    assert Repeat<Cell>(None, k) + [] == Repeat<Cell>(None, k);
  }

  /** A run text reads back as the run, for runs of at most nine, and for
      every run when long runs are split. */
  lemma {:induction false} RunTextReads(k: nat, splitRuns: bool)
    requires splitRuns || k <= 9
    ensures CompressedRow(RunText(k, splitRuns)) == Success(Repeat<Cell>(None, k))
    decreases k
  {
    if k > 9 {
      DigitReads(9);
      RunTextReads(k - 9, splitRuns);
      CompressedRowAppend("9", RunText(k - 9, splitRuns));
      assert NatToString(9) == "9";
      assert Repeat<Cell>(None, 9) + Repeat<Cell>(None, k - 9) == Repeat<Cell>(None, k);
    } else if k > 0 {
      DigitReads(k);
    }
  }

  lemma {:induction false} TailReads(k: nat, row: seq<Cell>, splitRuns: bool)
    requires splitRuns || NoLongRun(Repeat<Cell>(None, k) + row)
    ensures CompressedRow(Tail(k, row, splitRuns)) == Success(Repeat<Cell>(None, k) + row)
    decreases |row|
  {
    if !splitRuns && k >= 10 {
      LeadingEmptiesAtMostNine(k, row);
      assert false;
    } else if |row| == 0 {
      RunTextReads(k, splitRuns);
      assert Repeat<Cell>(None, k) + row == Repeat<Cell>(None, k);
    } else if row[0].None? {
      assert Repeat<Cell>(None, k + 1) + row[1..] == Repeat<Cell>(None, k) + row;
      TailReads(k + 1, row[1..], splitRuns);
    } else {
      if !splitRuns {
        NoLongRunAfterPiece(k, row);
      }
      assert Repeat<Cell>(None, 0) + row[1..] == row[1..];
      TailReads(0, row[1..], splitRuns);
      TailAfterPieceReads(k, row, splitRuns);
    }
  }

  /** The text after a pending run, when the next square holds a piece. */
  lemma TailAfterPieceReads(k: nat, row: seq<Cell>, splitRuns: bool)
    requires splitRuns || k <= 9
    requires |row| > 0 && row[0].Some?
    requires CompressedRow(Tail(0, row[1..], splitRuns)) == Success(row[1..])
    ensures CompressedRow(Tail(k, row, splitRuns)) == Success(Repeat<Cell>(None, k) + row)
  {
    var p := row[0].value;
    TailAtPiece(k, row, splitRuns);
    PieceAfterRunReads(k, p, Tail(0, row[1..], splitRuns), row[1..], splitRuns);
    RunThenRow(k, row);
  }

  /** A pending run followed by a piece: the run's text, the piece's letter,
      then the rest of the row. */
  lemma TailAtPiece(k: nat, row: seq<Cell>, splitRuns: bool)
    requires |row| > 0 && row[0].Some?
    ensures Tail(k, row, splitRuns) == RunText(k, splitRuns) + [PieceChar(row[0].value)] + Tail(0, row[1..], splitRuns)
  {
  }

  lemma RunThenRow(k: nat, row: seq<Cell>)
    requires |row| > 0
    ensures Repeat<Cell>(None, k) + [row[0]] + row[1..] == Repeat<Cell>(None, k) + row
  {
    assert [row[0]] + row[1..] == row;
  }

  lemma NoLongRunAfterPiece(k: nat, row: seq<Cell>)
    requires |row| > 0 && row[0].Some?
    requires NoLongRun(Repeat<Cell>(None, k) + row)
    ensures NoLongRun(row[1..])
  {
    var all := Repeat<Cell>(None, k) + row;
    forall i | 0 <= i && i + 10 <= |row[1..]|
      ensures PieceWithinTen(row[1..], i)
    {
      assert PieceWithinTen(all, k + 1 + i);
      var j :| k + 1 + i <= j < k + 1 + i + 10 && 0 <= j < |all| && all[j].Some?;
      assert row[1..][j - k - 1] == all[j];
    }
  }

  lemma PieceAfterRunReads(k: nat, p: Piece, t: string, rest: seq<Cell>, splitRuns: bool)
    requires splitRuns || k <= 9
    requires CompressedRow(t) == Success(rest)
    ensures CompressedRow(RunText(k, splitRuns) + [PieceChar(p)] + t) == Success(Repeat<Cell>(None, k) + [Some(p)] + rest)
  {
    RunTextReads(k, splitRuns);
    PieceCharReads(p);
    CompressedRowAppend(RunText(k, splitRuns) + [PieceChar(p)], t);
    CompressedRowAppend(RunText(k, splitRuns), [PieceChar(p)]);
  }

  lemma LeadingEmptiesAtMostNine(k: nat, row: seq<Cell>)
    requires k >= 10
    ensures !NoLongRun(Repeat<Cell>(None, k) + row)
  {
    var all := Repeat<Cell>(None, k) + row;
    assert !PieceWithinTen(all, 0);
  }

  lemma CompressRowReads(row: seq<Cell>, splitRuns: bool)
    requires splitRuns || NoLongRun(row)
    ensures CompressedRow(CompressRow(row, splitRuns)) == Success(row)
  {
    CompressRowIsTail(row, splitRuns);
    assert Repeat<Cell>(None, 0) + row == row;
    TailReads(0, row, splitRuns);
  }

  /** As written: a row with no run of ten or more empty squares is read back
      as itself. */
  lemma CompressedRowRoundTrip(row: seq<Cell>)
    requires NoLongRun(row)
    ensures CompressedRow(SerializeCompressedRow(row)) == Success(row)
  {
    CompressRowReads(row, false);
  }

  /** Corrected: every row is read back as itself. */
  lemma CompressedRowSplitRunsRoundTrip(row: seq<Cell>)
    ensures CompressedRow(SerializeCompressedRowSplitRuns(row)) == Success(row)
  {
    CompressRowReads(row, true);
  }

  lemma {:induction false} NoSlashInRunText(k: nat, splitRuns: bool)
    ensures '/' !in RunText(k, splitRuns)
    decreases k
  {
    if k > 9 && splitRuns {
      NoSlashInRunText(k - 9, splitRuns);
    } else if k > 0 {
      assert forall i :: 0 <= i < |NatToString(k)| ==> NatToString(k)[i] != '/';
    }
  }

  lemma {:induction false} NoSlashInTail(k: nat, row: seq<Cell>, splitRuns: bool)
    ensures '/' !in Tail(k, row, splitRuns)
    decreases |row|
  {
    NoSlashInRunText(k, splitRuns);
    if |row| > 0 {
      if row[0].None? {
        NoSlashInTail(k + 1, row[1..], splitRuns);
      } else {
        NoSlashInTail(0, row[1..], splitRuns);
      }
    }
  }

  lemma {:induction false} ReadCompressedRowsOf(rows: seq<seq<Cell>>, splitRuns: bool)
    requires splitRuns || forall i :: 0 <= i < |rows| ==> NoLongRun(rows[i])
    ensures ReadCompressedRows(CompressRows(rows, splitRuns)) == Success(rows)
    decreases |rows|
  {
    if |rows| > 0 {
      ReadCompressedRowsOf(rows[1..], splitRuns);
      assert CompressRows(rows, splitRuns)[1..] == CompressRows(rows[1..], splitRuns);
      CompressRowReads(rows[0], splitRuns);
      assert rows == [rows[0]] + rows[1..];
    }
  }

  lemma CompressedBoardReads(b: Grid, splitRuns: bool)
    requires ValidBoard(b)
    requires splitRuns || forall i :: 0 <= i < |b| ==> NoLongRun(b[i])
    ensures ReadCompressedBoard(Join(CompressRows(b, splitRuns), "/")) == Success(b)
  {
    var texts := CompressRows(b, splitRuns);
    forall i | 0 <= i < |texts| ensures '/' !in texts[i] {
      CompressRowIsTail(b[i], splitRuns);
      NoSlashInTail(0, b[i], splitRuns);
    }
    SplitJoin(texts, '/');
    ReadCompressedRowsOf(b, splitRuns);
    IsBoardValidMeansRectangular(b);
  }

  /** As written: a board none of whose rows holds ten or more empty squares
      in a row is read back from its compressed form as itself. */
  lemma CompressedBoardRoundTrip(b: Grid)
    requires ValidBoard(b)
    requires forall i :: 0 <= i < |b| ==> NoLongRun(b[i])
    ensures ReadCompressedBoard(SerializeCompressedBoard(b)) == Success(b)
  {
    CompressedBoardReads(b, false);
  }

  /** Corrected: every board is read back from its compressed form. */
  lemma CompressedBoardSplitRunsRoundTrip(b: Grid)
    requires ValidBoard(b)
    ensures ReadCompressedBoard(SerializeCompressedBoardSplitRuns(b)) == Success(b)
  {
    CompressedBoardReads(b, true);
  }

  /** As written, ten empty squares are written "10", which reads as one empty
      square followed by a '0' that is no piece letter: the row of ten empty
      squares does not survive the round trip. */
  lemma TenEmptySquaresDoNotRoundTrip()
    ensures SerializeCompressedRow(Repeat<Cell>(None, 10)) == "10"
    ensures CompressedRow(SerializeCompressedRow(Repeat<Cell>(None, 10))).Failure?
  {
    TenEmptiesWritten();
    assert CompressedRow("0").Failure? by {
      ZeroIsNoPiece();
    }
    assert "10"[1..] == "0";
  }

  lemma TenEmptiesWritten()
    ensures SerializeCompressedRow(Repeat<Cell>(None, 10)) == "10"
  {
    var row := Repeat<Cell>(None, 10);
    CompressRowIsTail(row, false);
    TailOfEmpties(0, 10, false);
    assert RunText(10, false) == NatToString(10) == NatToString(1) + [DigitChar(0)];
  }

  /** '0' is neither a run length nor a piece letter. */
  lemma ZeroIsNoPiece()
    ensures CompressedChar('0').Failure?
  {
    ReversePieceTypeLookup(['0']);
  }

  lemma {:induction false} TailOfEmpties(k: nat, n: nat, splitRuns: bool)
    ensures Tail(k, Repeat<Cell>(None, n), splitRuns) == Tail(k + n, [], splitRuns)
    decreases n
  {
    if n > 0 {
      assert Repeat<Cell>(None, n)[1..] == Repeat<Cell>(None, n - 1);
      TailOfEmpties(k + 1, n - 1, splitRuns);
    }
  }

  // ---------------------------------------------------------------------------
  // The standard position
  // ---------------------------------------------------------------------------

  /** The back rank from the queen's rook to the king's rook. */
  const BackRank: seq<PieceType> := [Rook, Knight, Bishop, Queen, King, Bishop, Knight, Rook]

  /** A row of eight pieces of one side with the given kinds. */
  function PieceRow(kinds: seq<PieceType>, side: Side): (r: seq<Cell>)
    requires |kinds| == 8
    ensures |r| == 8 && forall c :: 0 <= c < 8 ==> r[c] == Some(Piece(kinds[c], side))
  {
    seq(8, c requires 0 <= c < 8 => Some(Piece(kinds[c], side)))
  }

  /** The starting position: black's back rank and pawns on rows 0 and 1,
      four empty rows, white's pawns and back rank on rows 6 and 7. */
  function StandardPosition(): (b: Grid)
    ensures ValidBoard(b) && |b| == 8 && forall r :: 0 <= r < 8 ==> |b[r]| == 8
  {
    var empty := Repeat<Cell>(None, 8);
    [PieceRow(BackRank, Black), Repeat(Some(Piece(Pawn, Black)), 8), empty, empty,
     empty, empty, Repeat(Some(Piece(Pawn, White)), 8), PieceRow(BackRank, White)]
  }

  /** The seventeen lines that `createStandardBoard` reads. */
  const StandardLines: seq<string> := [
    "-------------------------",
    "|bR|bN|bB|bQ|bK|bB|bN|bR|",
    "-------------------------",
    "|bP|bP|bP|bP|bP|bP|bP|bP|",
    "-------------------------",
    "|  |  |  |  |  |  |  |  |",
    "-------------------------",
    "|  |  |  |  |  |  |  |  |",
    "-------------------------",
    "|  |  |  |  |  |  |  |  |",
    "-------------------------",
    "|  |  |  |  |  |  |  |  |",
    "-------------------------",
    "|wP|wP|wP|wP|wP|wP|wP|wP|",
    "-------------------------",
    "|wR|wN|wB|wQ|wK|wB|wN|wR|",
    "-------------------------"
  ]

  /** `createStandardBoard`. */
  function CreateStandardBoard(): Result<Grid> {
    ReadBoard(Join(StandardLines, "\n"))
  }

  /** `createStandardBoard` never fails: its text is the boxed form of the
      starting position, which reads back as that position. */
  lemma CreateStandardBoardIsStandard()
    ensures CreateStandardBoard() == Success(StandardPosition())
  {
    var b := StandardPosition();
    StandardLinesAreBoardLines(StandardLines, b);
    SerializeBoardIsLines(b);
    ReadSerializedBoard(b);
  }

  /** The standard position has the black knights on b8 and g8, squares
      [0,1] and [0,6], and the kings on e8 and e1. */
  lemma StandardKnightsAndKings()
    ensures var b := StandardPosition();
            b[0][1] == Some(Piece(Knight, Black)) && b[0][6] == Some(Piece(Knight, Black)) &&
            b[0][4] == Some(Piece(King, Black)) && b[7][4] == Some(Piece(King, White))
  {
  }

  /** The row lines between bars, as a recursion: a bar, then each cell
      followed by its bar. */
  function Barred(row: seq<Cell>): string {
    if |row| == 0 then "|" else "|" + CellText(row[0]) + Barred(row[1..])
  }

  lemma {:induction false} RowTextIsBarred(row: seq<Cell>)
    requires |row| > 0
    ensures RowText(row) == Barred(row)
    decreases |row|
  {
    if |row| > 1 {
      RowTextIsBarred(row[1..]);
      var texts := CellTexts(row);
      assert texts[1..] == CellTexts(row[1..]);
      assert Join(texts, "|") == CellText(row[0]) + "|" + Join(CellTexts(row[1..]), "|");
    }
  }

  lemma BarredStep(row: seq<Cell>, k: nat, rest: string)
    requires k < |row| && Barred(row[k + 1..]) == rest
    ensures Barred(row[k..]) == "|" + CellText(row[k]) + rest
  {
    assert row[k..][1..] == row[k + 1..];
  }

  /** A row of eight cells, spelled out. */
  lemma RowOfEight(row: seq<Cell>)
    requires |row| == 8
    ensures RowText(row) ==
      "|" + CellText(row[0]) + ("|" + CellText(row[1]) + ("|" + CellText(row[2]) + ("|" + CellText(row[3]) +
      ("|" + CellText(row[4]) + ("|" + CellText(row[5]) + ("|" + CellText(row[6]) + ("|" + CellText(row[7]) + "|")))))))
  {
    RowTextIsBarred(row);
    assert row[8..] == [];
    BarredStep(row, 7, "|");
    BarredStep(row, 6, Barred(row[7..]));
    BarredStep(row, 5, Barred(row[6..]));
    BarredStep(row, 4, Barred(row[5..]));
    BarredStep(row, 3, Barred(row[4..]));
    BarredStep(row, 2, Barred(row[3..]));
    BarredStep(row, 1, Barred(row[2..]));
    BarredStep(row, 0, Barred(row[1..]));
    assert row[0..] == row;
  }

  /** Eight codes between bars. */
  function BarredCodes(c: seq<string>): string
    requires |c| == 8
  {
    "|" + c[0] + ("|" + c[1] + ("|" + c[2] + ("|" + c[3] +
    ("|" + c[4] + ("|" + c[5] + ("|" + c[6] + ("|" + c[7] + "|")))))))
  }

  lemma RowOfCodes(row: seq<Cell>, codes: seq<string>)
    requires |row| == 8 == |codes| && forall k :: 0 <= k < 8 ==> CellText(row[k]) == codes[k]
    ensures RowText(row) == BarredCodes(codes)
  {
    RowOfEight(row);
  }

  const BlackBackCodes: seq<string> := ["bR", "bN", "bB", "bQ", "bK", "bB", "bN", "bR"]
  const WhiteBackCodes: seq<string> := ["wR", "wN", "wB", "wQ", "wK", "wB", "wN", "wR"]

  lemma BackRankCodes(side: Side, codes: seq<string>)
    requires |codes| == 8 && forall k :: 0 <= k < 8 ==> codes[k] == SideLetter(side) + TypeLetter(BackRank[k])
    ensures RowText(PieceRow(BackRank, side)) == BarredCodes(codes)
  {
    RowOfCodes(PieceRow(BackRank, side), codes);
  }

  lemma BlackBackLetters()
    ensures forall k :: 0 <= k < 8 ==> BlackBackCodes[k] == SideLetter(Black) + TypeLetter(BackRank[k])
  {
  }

  lemma WhiteBackLetters()
    ensures forall k :: 0 <= k < 8 ==> WhiteBackCodes[k] == SideLetter(White) + TypeLetter(BackRank[k])
  {
  }

  lemma BlackBackText()
    ensures BarredCodes(BlackBackCodes) == "|bR|bN|bB|bQ|bK|bB|bN|bR|"
  {
  }

  lemma WhiteBackText()
    ensures BarredCodes(WhiteBackCodes) == "|wR|wN|wB|wQ|wK|wB|wN|wR|"
  {
  }

  lemma BlackBackLine()
    ensures RowText(PieceRow(BackRank, Black)) == "|bR|bN|bB|bQ|bK|bB|bN|bR|"
  {
    BlackBackLetters();
    BackRankCodes(Black, BlackBackCodes);
    BlackBackText();
  }

  lemma WhiteBackLine()
    ensures RowText(PieceRow(BackRank, White)) == "|wR|wN|wB|wQ|wK|wB|wN|wR|"
  {
    WhiteBackLetters();
    BackRankCodes(White, WhiteBackCodes);
    WhiteBackText();
  }

  /** A row of eight equal cells, spelled out. */
  lemma UniformLine(c: Cell)
    ensures RowText(Repeat(c, 8)) == Spelled(CellText(c))
  {
    RowOfEight(Repeat(c, 8));
  }

  /** Eight equal codes between bars. */
  function Spelled(code: string): string {
    "|" + code + ("|" + code + ("|" + code + ("|" + code + ("|" + code + ("|" + code + ("|" + code + ("|" + code + "|")))))))
  }

  lemma BlackPawnLine()
    ensures RowText(Repeat(Some(Piece(Pawn, Black)), 8)) == "|bP|bP|bP|bP|bP|bP|bP|bP|"
  {
    BlackPawnLineSpelled();
    BlackPawnSpelled();
  }

  lemma BlackPawnLineSpelled()
    ensures RowText(Repeat(Some(Piece(Pawn, Black)), 8)) == Spelled("bP")
  {
    UniformLine(Some(Piece(Pawn, Black)));
    BlackPawnCode();
  }

  lemma BlackPawnCode()
    ensures CellText(Some(Piece(Pawn, Black))) == "bP"
  {
  }

  lemma BlackPawnSpelled()
    ensures Spelled("bP") == "|bP|bP|bP|bP|bP|bP|bP|bP|"
  {
  }

  lemma WhitePawnLine()
    ensures RowText(Repeat(Some(Piece(Pawn, White)), 8)) == "|wP|wP|wP|wP|wP|wP|wP|wP|"
  {
    WhitePawnLineSpelled();
    WhitePawnSpelled();
  }

  lemma WhitePawnLineSpelled()
    ensures RowText(Repeat(Some(Piece(Pawn, White)), 8)) == Spelled("wP")
  {
    UniformLine(Some(Piece(Pawn, White)));
    WhitePawnCode();
  }

  lemma WhitePawnCode()
    ensures CellText(Some(Piece(Pawn, White))) == "wP"
  {
  }

  lemma WhitePawnSpelled()
    ensures Spelled("wP") == "|wP|wP|wP|wP|wP|wP|wP|wP|"
  {
  }

  lemma EmptyLine()
    ensures RowText(Repeat<Cell>(None, 8)) == "|  |  |  |  |  |  |  |  |"
  {
    EmptyLineSpelled();
    EmptySpelled();
  }

  lemma EmptyLineSpelled()
    ensures RowText(Repeat<Cell>(None, 8)) == Spelled("  ")
  {
    UniformLine(None);
  }

  lemma EmptySpelled()
    ensures Spelled("  ") == "|  |  |  |  |  |  |  |  |"
  {
  }

  /** Line 2q+1 of a serialized board is row q and the lines around it are
      dividers. */
  lemma BoardLinesAt(b: Grid, q: nat)
    requires ValidBoard(b) && q < |b|
    ensures |BoardLines(b)| == 2 * |b| + 1
    ensures BoardLines(b)[0] == Divider(|b[0]|)
    ensures BoardLines(b)[2 * q + 1] == RowText(b[q]) && BoardLines(b)[2 * q + 2] == Divider(|b[0]|)
  {
    InterleavedAt(RowTexts(b), Divider(|b[0]|), q);
  }

  /** Seventeen lines holding the dividers and rows of an eight-row board in
      their places are its lines. */
  lemma LinesOfEight(b: Grid, lines: seq<string>)
    requires ValidBoard(b) && |b| == 8 && |lines| == 17
    requires forall q :: 0 <= q <= 8 ==> lines[2 * q] == Divider(|b[0]|)
    requires forall q :: 0 <= q < 8 ==> lines[2 * q + 1] == RowText(b[q])
    ensures lines == BoardLines(b)
  {
    forall q | 0 <= q < 8
      ensures BoardLines(b)[2 * q + 1] == lines[2 * q + 1] && BoardLines(b)[2 * q + 2] == lines[2 * q + 2]
    {
      BoardLinesAt(b, q);
      assert lines[2 * (q + 1)] == Divider(|b[0]|);
    }
    BoardLinesAt(b, 0);
    forall k | 0 <= k < 17 ensures BoardLines(b)[k] == lines[k] {
      if k % 2 == 1 {
        assert k == 2 * (k / 2) + 1;
      } else if k > 0 {
        assert k == 2 * ((k - 2) / 2) + 2;
      }
    }
  }

  /** Eight row lines, given one by one. */
  lemma RowsInPlace(b: Grid, lines: seq<string>)
    requires |b| == 8 && |lines| == 17
    requires lines[1] == RowText(b[0]) && lines[3] == RowText(b[1]) && lines[5] == RowText(b[2]) &&
             lines[7] == RowText(b[3]) && lines[9] == RowText(b[4]) && lines[11] == RowText(b[5]) &&
             lines[13] == RowText(b[6]) && lines[15] == RowText(b[7])
    ensures forall q :: 0 <= q < 8 ==> lines[2 * q + 1] == RowText(b[q])
  {
  }

  lemma StandardBlackBack()
    ensures StandardLines[1] == RowText(StandardPosition()[0])
  {
    assert StandardPosition()[0] == PieceRow(BackRank, Black);
    assert StandardLines[1] == "|bR|bN|bB|bQ|bK|bB|bN|bR|";
    BlackBackLine();
  }

  lemma StandardBlackPawns()
    ensures StandardLines[3] == RowText(StandardPosition()[1])
  {
    assert StandardPosition()[1] == Repeat(Some(Piece(Pawn, Black)), 8);
    assert StandardLines[3] == "|bP|bP|bP|bP|bP|bP|bP|bP|";
    BlackPawnLine();
  }

  lemma StandardEmptyRows()
    ensures StandardLines[5] == RowText(StandardPosition()[2]) && StandardLines[7] == RowText(StandardPosition()[3])
    ensures StandardLines[9] == RowText(StandardPosition()[4]) && StandardLines[11] == RowText(StandardPosition()[5])
  {
    var b := StandardPosition();
    assert b[2] == b[3] == b[4] == b[5] == Repeat<Cell>(None, 8);
    assert StandardLines[5] == StandardLines[7] == StandardLines[9] == StandardLines[11] == "|  |  |  |  |  |  |  |  |";
    EmptyLine();
  }

  lemma StandardWhitePawns()
    ensures StandardLines[13] == RowText(StandardPosition()[6])
  {
    assert StandardPosition()[6] == Repeat(Some(Piece(Pawn, White)), 8);
    assert StandardLines[13] == "|wP|wP|wP|wP|wP|wP|wP|wP|";
    WhitePawnLine();
  }

  lemma StandardWhiteBack()
    ensures StandardLines[15] == RowText(StandardPosition()[7])
  {
    assert StandardPosition()[7] == PieceRow(BackRank, White);
    assert StandardLines[15] == "|wR|wN|wB|wQ|wK|wB|wN|wR|";
    WhiteBackLine();
  }

  /** The row lines of the standard text are the rows of the standard
      position, one by one. */
  lemma StandardRows()
    ensures var b := StandardPosition();
            StandardLines[1] == RowText(b[0]) && StandardLines[3] == RowText(b[1]) &&
            StandardLines[5] == RowText(b[2]) && StandardLines[7] == RowText(b[3]) &&
            StandardLines[9] == RowText(b[4]) && StandardLines[11] == RowText(b[5]) &&
            StandardLines[13] == RowText(b[6]) && StandardLines[15] == RowText(b[7])
  {
    StandardBlackBack();
    StandardBlackPawns();
    StandardEmptyRows();
    StandardWhitePawns();
    StandardWhiteBack();
  }

  lemma StandardDividers()
    ensures forall q :: 0 <= q <= 8 ==> StandardLines[2 * q] == Divider(8)
  {
    assert Divider(8) == StandardLines[0];
  }

  /** The seventeen standard lines are the lines of the standard position.
      Stated for names bound to the two constants, which keeps the solver
      from expanding them in the goal. */
  lemma StandardLinesAreBoardLines(lines: seq<string>, b: Grid)
    requires lines == StandardLines && b == StandardPosition()
    ensures lines == BoardLines(b)
  {
    StandardDividers();
    StandardRows();
    RowsInPlace(b, lines);
    LinesOfEight(b, lines);
  }
}
