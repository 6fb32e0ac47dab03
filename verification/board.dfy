/** The board model of the core package: sides, pieces, squares, the shape of a
    board, lookups, scans and the batch write `mutateBoard`. The two text codecs
    of the same source file are in module BoardText. */
module Board {
  import opened Wrappers
  import opened Utils
  import opened Text

  datatype Side = White | Black
  datatype PieceType = Bishop | Knight | Rook | King | Queen | Pawn
  datatype Piece = Piece(kind: PieceType, side: Side)

  /** A square's content: a piece or `null`. */
  type Cell = Option<Piece>

  /** Rows of cells, row 0 at the top (black's home side). */
  type Grid = seq<seq<Cell>>

  /** A `[row, col]` pair; also used for directions and differences. */
  datatype Square = Sq(row: int, col: int)

  /** One write of a `mutateBoard` batch. */
  datatype Mutation = Mutation(square: Square, piece: Cell)

  // ---------------------------------------------------------------------------
  // Sides and the two-character piece code
  // ---------------------------------------------------------------------------

  const PieceTypeSerialization: JsMap<PieceType, string> :=
    [(Bishop, "B"), (Knight, "N"), (Rook, "R"), (King, "K"), (Queen, "Q"), (Pawn, "P")]
  const ReversePieceTypeMap: JsMap<string, PieceType> := ReverseMap(PieceTypeSerialization)

  const SideSerialization: JsMap<Side, string> := [(White, "w"), (Black, "b")]
  const ReverseSideMap: JsMap<string, Side> := ReverseMap(SideSerialization)

  /** `getEnemySide`: the other side. */
  function Enemy(side: Side): (r: Side)
    ensures r != side
  {
    if side == Black then White else Black
  }

  /** `getEnemySide` swaps the two sides: applying it twice gives the side back. */
  lemma EnemyInvolution(side: Side)
    ensures Enemy(Enemy(side)) == side
  {
  }

  /** The entry of `pieceTypeSerializationMap` for `t`. */
  function TypeLetter(t: PieceType): (r: string)
    ensures Get(PieceTypeSerialization, t) == Some(r)
    ensures |r| == 1 && 'A' <= r[0] <= 'Z'
  {
    match t
    case Bishop => "B"
    case Knight => "N"
    case Rook => "R"
    case King => "K"
    case Queen => "Q"
    case Pawn => "P"
  }

  /** The entry of `sideSerializationMap` for `s`. */
  function SideLetter(s: Side): (r: string)
    ensures Get(SideSerialization, s) == Some(r)
  {
    match s
    case White => "w"
    case Black => "b"
  }

  /** `serializePiece`: side letter then type letter, e.g. "bB". Both map lookups
      always succeed, so its throw is unreachable. */
  function SerializePiece(p: Piece): string {
    SideLetter(p.side) + TypeLetter(p.kind)
  }

  /** Where `t` sits in `pieceTypeSerializationMap`. */
  function TypeIndex(t: PieceType): (i: nat)
    ensures i < |PieceTypeSerialization| && PieceTypeSerialization[i] == (t, TypeLetter(t))
  {
    match t
    case Bishop => 0
    case Knight => 1
    case Rook => 2
    case King => 3
    case Queen => 4
    case Pawn => 5
  }

  lemma TypeLettersDistinct()
    ensures DistinctValues(PieceTypeSerialization)
    ensures forall i :: 0 <= i < |PieceTypeSerialization| ==>
              PieceTypeSerialization[i].1 == TypeLetter(PieceTypeSerialization[i].0)
  {
  }

  /** `reversePieceTypeSerializationMap` sends each type letter back to its
      type and has nothing for any other string. */
  lemma ReversePieceTypeLookup(s: string)
    ensures forall t :: s == TypeLetter(t) ==> Get(ReversePieceTypeMap, s) == Some(t)
    ensures (forall t :: s != TypeLetter(t)) ==> Get(ReversePieceTypeMap, s) == None
  {
    TypeLettersDistinct();
    if t :| s == TypeLetter(t) {
      ReverseMapGetDistinct(PieceTypeSerialization, TypeIndex(t));
      forall t' | s == TypeLetter(t') ensures t' == t {
        assert PieceTypeSerialization[TypeIndex(t')].1 == PieceTypeSerialization[TypeIndex(t)].1;
      }
    } else {
      ReverseMapGetAbsent(PieceTypeSerialization, s);
    }
  }

  /** `reverseSideSerializationMap` sends each side letter back to its side and
      has nothing for any other string. */
  lemma ReverseSideLookup(s: string)
    ensures forall d :: s == SideLetter(d) ==> Get(ReverseSideMap, s) == Some(d)
    ensures (forall d :: s != SideLetter(d)) ==> Get(ReverseSideMap, s) == None
  {
    var n := SideSerialization;
    assert DistinctValues(n);
    if s == "w" {
      assert s == SideLetter(White);
      ReverseMapGetDistinct(n, 0);
    } else if s == "b" {
      assert s == SideLetter(Black);
      ReverseMapGetDistinct(n, 1);
    } else {
      assert forall i :: 0 <= i < |n| ==> n[i].1 != s;
      ReverseMapGetAbsent(n, s);
    }
  }

  /** `readPieceType`: the type whose letter is `s`. */
  function ReadPieceType(s: string): Result<PieceType> {
    match Get(ReversePieceTypeMap, s)
    case Some(t) => Success(t)
    case None => Failure("Piece type could not be read!")
  }

  /** `readPiece`: side from character 0, type from character 1; anything after
      the second character is ignored. */
  function ReadPiece(s: string): Result<Piece> {
    if |s| < 2 then Failure("Failed to parse piece from shortform string")
    else
      var side := Get(ReverseSideMap, [s[0]]);
      var kind := Get(ReversePieceTypeMap, [s[1]]);
      if side.None? || kind.None? then Failure("Failed to parse piece from shortform string")
      else Success(Piece(kind.value, side.value))
  }

  /** A piece code is read back as the piece it encodes. */
  lemma ReadSerializedPiece(p: Piece)
    ensures ReadPiece(SerializePiece(p)) == Success(p)
  {
    var s := SerializePiece(p);
    assert [s[0]] == SideLetter(p.side) && [s[1]] == TypeLetter(p.kind);
    ReverseSideLookup([s[0]]);
    ReversePieceTypeLookup([s[1]]);
  }

  /** A string the side lookup knows is the letter of the side it gives. */
  lemma SideLetterOf(s: string)
    ensures Get(ReverseSideMap, s).Some? <==> exists d :: s == SideLetter(d)
    ensures Get(ReverseSideMap, s).Some? ==> SideLetter(Get(ReverseSideMap, s).value) == s
  {
    ReverseSideLookup(s);
  }

  /** A string the type lookup knows is the letter of the type it gives. */
  lemma TypeLetterOf(s: string)
    ensures Get(ReversePieceTypeMap, s).Some? <==> exists t :: s == TypeLetter(t)
    ensures Get(ReversePieceTypeMap, s).Some? ==> TypeLetter(Get(ReversePieceTypeMap, s).value) == s
  {
    ReversePieceTypeLookup(s);
  }

  /** `readPieceType` succeeds exactly on the type letters, and gives the
      type whose letter was read. */
  lemma ReadPieceTypeLetters(s: string)
    ensures ReadPieceType(s).Success? <==> exists t :: s == TypeLetter(t)
    ensures ReadPieceType(s).Success? ==> TypeLetter(ReadPieceType(s).value) == s
    ensures ReadPieceType(s).Failure? ==> ReadPieceType(s).error == "Piece type could not be read!"
  {
    TypeLetterOf(s);
  }

  /** `readPiece` succeeds exactly on strings whose first two characters are a
      side letter and a type letter, and then returns the piece those two
      characters encode. */
  lemma ReadPieceAccepts(s: string)
    ensures ReadPiece(s).Success? <==>
            |s| >= 2 && (exists d :: [s[0]] == SideLetter(d)) && (exists t :: [s[1]] == TypeLetter(t))
    ensures ReadPiece(s).Success? ==> SerializePiece(ReadPiece(s).value) == s[..2]
  {
    if |s| >= 2 {
      SideLetterOf([s[0]]);
      TypeLetterOf([s[1]]);
      assert s[..2] == [s[0]] + [s[1]];
    }
  }

  // ---------------------------------------------------------------------------
  // Board shape
  // ---------------------------------------------------------------------------

  /** A board: at least one row, a non-empty first row and equal row lengths. */
  ghost predicate ValidBoard(b: Grid) {
    |b| > 0 && |b[0]| > 0 && forall i :: 0 <= i < |b| ==> |b[i]| == |b[0]|
  }

  /** `isBoardValid`: the set of row lengths has exactly one element, and the
      first row exists and is non-empty. */
  predicate IsBoardValid(b: Grid) {
    var colsPerRow := seq(|b|, i requires 0 <= i < |b| => |b[i]|);
    |set n | n in colsPerRow| == 1 && |b| > 0 && |b[0]| > 0
  }

  lemma IsBoardValidMeansRectangular(b: Grid)
    ensures IsBoardValid(b) <==> ValidBoard(b)
  {
    var colsPerRow := seq(|b|, i requires 0 <= i < |b| => |b[i]|);
    var lengths := set n | n in colsPerRow;
    if ValidBoard(b) {
      assert colsPerRow[0] == |b[0]|;
      assert lengths == {|b[0]|};
    }
    if IsBoardValid(b) {
      forall i | 0 <= i < |b| ensures |b[i]| == |b[0]| {
        assert colsPerRow[i] == |b[i]| && colsPerRow[0] == |b[0]|;
        if |b[i]| != |b[0]| {
          assert {|b[i]|, |b[0]|} <= lengths;
          assert |{|b[i]|, |b[0]|}| == 2;
          SubsetCardinality({|b[i]|, |b[0]|}, lengths);
        }
      }
    }
  }

  lemma SubsetCardinality(a: set<int>, b: set<int>)
    requires a <= b
    ensures |a| <= |b|
  {
    assert b == a + (b - a);
  }

  /** `inBoard`: both coordinates inside the board (the first row gives the
      width). */
  predicate InBoard(sq: Square, b: Grid)
    requires |b| > 0
  {
    0 <= sq.row < |b| && 0 <= sq.col < |b[0]|
  }

  /** The content of an in-board square. */
  function CellAt(b: Grid, sq: Square): Cell
    requires ValidBoard(b) && InBoard(sq, b)
  {
    b[sq.row][sq.col]
  }

  /** `atSquare`: the content of a square, failing outside the board. */
  function AtSquare(sq: Square, b: Grid): (r: Result<Cell>)
    requires ValidBoard(b)
    ensures r.Success? <==> InBoard(sq, b)
  {
    if InBoard(sq, b) then Success(CellAt(b, sq)) else Failure("Square is not in board!")
  }

  // ---------------------------------------------------------------------------
  // Squares
  // ---------------------------------------------------------------------------

  /** `shift`: a square moved by a direction. */
  function Shift(sq: Square, change: Square): Square {
    Sq(sq.row + change.row, sq.col + change.col)
  }

  /** `squareEquals`. */
  predicate SquareEquals(a: Square, b: Square)
    ensures SquareEquals(a, b) <==> a == b
  {
    a.row == b.row && a.col == b.col
  }

  /** `squareDiff`: the direction that shifts the first square onto the second. */
  function SquareDiff(a: Square, b: Square): (d: Square)
    ensures Shift(a, d) == b
  {
    Sq(b.row - a.row, b.col - a.col)
  }

  /** Row-major order: by row, then by column. */
  predicate RowMajorLess(a: Square, b: Square) {
    a.row < b.row || (a.row == b.row && a.col < b.col)
  }

  /** Strictly increasing in row-major order (so also free of repeats). */
  ghost predicate RowMajor(s: seq<Square>) {
    forall i, j :: 0 <= i < j < |s| ==> RowMajorLess(s[i], s[j])
  }

  /** The squares of row `i`, left to right. */
  function RowSquares(i: int, cols: nat): (r: seq<Square>)
    ensures |r| == cols
    ensures forall j :: 0 <= j < cols ==> r[j] == Sq(i, j)
  {
    seq(cols, j requires 0 <= j < cols => Sq(i, j))
  }

  /** Every square of a rows x cols board, in row-major order. */
  function AllSquares(rows: nat, cols: nat): (r: seq<Square>)
    ensures |r| == rows * cols
    ensures forall sq :: sq in r <==> 0 <= sq.row < rows && 0 <= sq.col < cols
    ensures RowMajor(r)
  {
    if rows == 0 then []
    else
      var front := AllSquares(rows - 1, cols);
      var last := RowSquares(rows - 1, cols);
      assert (rows - 1) * cols + cols == rows * cols;
      assert forall sq :: sq in last <==> sq.row == rows - 1 && 0 <= sq.col < cols;
      front + last
  }

  /** `getAllSquares`: the nested loops that push `[i, j]` for every square. */
  method GetAllSquares(b: Grid) returns (squares: seq<Square>)
    requires |b| > 0
    ensures squares == AllSquares(|b|, |b[0]|)
  {
    var rows, cols := |b|, |b[0]|;
    squares := [];
    var i := 0;
    while i < rows
      invariant 0 <= i <= rows
      invariant squares == AllSquares(i, cols)
    {
      var j := 0;
      while j < cols
        invariant 0 <= j <= cols
        invariant squares == AllSquares(i, cols) + RowSquares(i, cols)[..j]
      {
        squares := squares + [Sq(i, j)];
        j := j + 1;
      }
      assert RowSquares(i, cols)[..cols] == RowSquares(i, cols);
      i := i + 1;
    }
  }

  /** The filter of `findPieces`: occupied, and of the requested type and side
      when those are given. */
  predicate Matches(b: Grid, sq: Square, kind: Option<PieceType>, side: Option<Side>)
    requires ValidBoard(b) && InBoard(sq, b)
  {
    match CellAt(b, sq)
    case None => false
    case Some(p) => (kind.None? || p.kind == kind.value) && (side.None? || p.side == side.value)
  }

  function FilterSquares(b: Grid, squares: seq<Square>, kind: Option<PieceType>, side: Option<Side>): (r: seq<Square>)
    requires ValidBoard(b)
    requires forall sq :: sq in squares ==> InBoard(sq, b)
    ensures forall sq :: sq in r <==> sq in squares && Matches(b, sq, kind, side)
    ensures RowMajor(squares) ==> RowMajor(r)
  {
    if |squares| == 0 then []
    else
      var rest := FilterSquares(b, squares[1..], kind, side);
      assert forall sq :: sq in squares[1..] ==> sq in squares;
      if Matches(b, squares[0], kind, side) then
        assert RowMajor(squares) ==> forall sq :: sq in squares[1..] ==> RowMajorLess(squares[0], sq);
        [squares[0]] + rest
      else rest
  }

  /** `findPieces`: the occupied squares matching the optional type and side
      filters, in row-major order. */
  function FindPieces(b: Grid, kind: Option<PieceType>, side: Option<Side>): (r: seq<Square>)
    requires ValidBoard(b)
    ensures forall sq :: sq in r <==> InBoard(sq, b) && Matches(b, sq, kind, side)
    ensures RowMajor(r)
  {
    FilterSquares(b, AllSquares(|b|, |b[0]|), kind, side)
  }

  /** The largest width for which `String.fromCharCode('a' + col)` stays below
      the surrogate range for every column. */
  const MaxColumns: nat := 0xD800 - 97

  /** The file letter of a column: 'a' + col. */
  function ColumnLetter(col: nat): char
    requires col < MaxColumns
  {
    ('a' as int + col) as char
  }

  /** `serializeSquare`: file letter, then the rank counted from the bottom row. */
  function SerializeSquare(sq: Square, b: Grid): (r: Result<string>)
    requires ValidBoard(b) && |b[0]| <= MaxColumns
    ensures r.Success? <==> InBoard(sq, b)
    ensures r.Success? ==>
              |r.value| >= 2 && r.value[0] == ColumnLetter(sq.col) &&
              (forall i :: 1 <= i < |r.value| ==> '0' <= r.value[i] <= '9') &&
              ParseNat(r.value[1..]) == |b| - sq.row
    ensures r.Failure? ==> r.error == "Square is not in board."
  {
    if !InBoard(sq, b) then Failure("Square is not in board.")
    else
      var name := [ColumnLetter(sq.col)] + NatToString(|b| - sq.row);
      assert name[1..] == NatToString(|b| - sq.row);
      ParseNatToString(|b| - sq.row);
      Success(name)
  }

  /** On a board of four rows the square [1, 1] is "b3": file b, and the
      third rank counted from the bottom. */
  lemma SerializeSquareExample(b: Grid)
    requires ValidBoard(b) && |b| == 4 && 2 <= |b[0]| <= MaxColumns
    ensures SerializeSquare(Sq(1, 1), b) == Success("b3")
  {
    assert ColumnLetter(1) == 'b';
    assert DigitChar(3) == '3';
    assert NatToString(3) == "3";
    assert InBoard(Sq(1, 1), b);
    assert [ColumnLetter(1)] + NatToString(3) == "b3";
  }

  /** Two in-board squares never get the same name. */
  lemma SerializeSquareInjective(a: Square, c: Square, b: Grid)
    requires ValidBoard(b) && |b[0]| <= MaxColumns
    requires InBoard(a, b) && InBoard(c, b)
    requires SerializeSquare(a, b) == SerializeSquare(c, b)
    ensures a == c
  {
    var sa := SerializeSquare(a, b).value;
    var sc := SerializeSquare(c, b).value;
    assert sa[0] == sc[0];
    assert sa[1..] == NatToString(|b| - a.row) && sc[1..] == NatToString(|b| - c.row);
    ParseNatToString(|b| - a.row);
    ParseNatToString(|b| - c.row);
  }

  /** The number written by a string of decimal digits. */
  function ParseNat(s: string): nat
    requires |s| > 0 && forall i :: 0 <= i < |s| ==> '0' <= s[i] <= '9'
  {
    var d := s[|s| - 1] as int - '0' as int;
    if |s| == 1 then d else 10 * ParseNat(s[..|s| - 1]) + d
  }

  lemma {:induction false} ParseNatToString(n: nat)
    ensures ParseNat(NatToString(n)) == n
  {
    if n >= 10 {
      var s := NatToString(n);
      assert s[..|s| - 1] == NatToString(n / 10);
      ParseNatToString(n / 10);
    }
  }

  // ---------------------------------------------------------------------------
  // mutateBoard
  // ---------------------------------------------------------------------------

  /** The board with one square overwritten. */
  function Write(b: Grid, sq: Square, c: Cell): (r: Grid)
    requires ValidBoard(b) && InBoard(sq, b)
    ensures ValidBoard(r) && |r| == |b| && |r[0]| == |b[0]|
  {
    b[sq.row := b[sq.row][sq.col := c]]
  }

  /** The writes of a batch applied in order to the copy, failing at the first
      square outside the board. */
  function ApplyMutations(b: Grid, mutations: seq<Mutation>): (r: Result<Grid>)
    requires ValidBoard(b)
    ensures r.Success? ==> ValidBoard(r.value) && |r.value| == |b| && |r.value[0]| == |b[0]|
    decreases |mutations|
  {
    if |mutations| == 0 then Success(b)
    else if !InBoard(mutations[0].square, b) then Failure("Square is not in board.")
    else ApplyMutations(Write(b, mutations[0].square, mutations[0].piece), mutations[1..])
  }

  /** `mutateBoard` as a value: the writes, then the shape check. */
  function Mutated(mutations: seq<Mutation>, b: Grid): (r: Result<Grid>)
    requires ValidBoard(b)
    ensures r.Success? ==> ValidBoard(r.value) && |r.value| == |b| && |r.value[0]| == |b[0]|
  {
    match ApplyMutations(b, mutations)
    case Failure(e) => Failure(e)
    case Success(nb) =>
      if IsBoardValid(nb) then Success(nb) else Failure("Mutations resulted in an invalid board!")
  }

  /** `mutateBoard`: copies the board, then writes each mutation in turn. */
  method MutateBoard(mutations: seq<Mutation>, b: Grid) returns (r: Result<Grid>)
    requires ValidBoard(b)
    ensures r == Mutated(mutations, b)
  {
    var newBoard := b;
    var k := 0;
    while k < |mutations|
      invariant 0 <= k <= |mutations|
      invariant ValidBoard(newBoard) && |newBoard| == |b| && |newBoard[0]| == |b[0]|
      invariant ApplyMutations(b, mutations) == ApplyMutations(newBoard, mutations[k..])
    {
      var m := mutations[k];
      if !InBoard(m.square, newBoard) {
        return Failure("Square is not in board.");
      }
      var row := newBoard[m.square.row];
      row := row[m.square.col := m.piece];
      newBoard := newBoard[m.square.row := row];
      k := k + 1;
    }
    IsBoardValidMeansRectangular(newBoard);
    if !IsBoardValid(newBoard) {
      return Failure("Mutations resulted in an invalid board!");
    }
    return Success(newBoard);
  }

  /** The content the last write to `sq` leaves there, or `prev` if no write of
      the batch touches `sq`. */
  function LastWrite(mutations: seq<Mutation>, sq: Square, prev: Cell): Cell {
    if |mutations| == 0 then prev
    else if mutations[|mutations| - 1].square == sq then mutations[|mutations| - 1].piece
    else LastWrite(mutations[..|mutations| - 1], sq, prev)
  }

  lemma {:induction false} LastWriteCons(m: Mutation, rest: seq<Mutation>, sq: Square, prev: Cell)
    ensures LastWrite([m] + rest, sq, prev) == LastWrite(rest, sq, if m.square == sq then m.piece else prev)
    decreases |rest|
  {
    var ms := [m] + rest;
    if |rest| > 0 {
      assert ms[..|ms| - 1] == [m] + rest[..|rest| - 1];
      LastWriteCons(m, rest[..|rest| - 1], sq, prev);
    }
  }

  lemma {:induction false} ApplyMutationsCells(b: Grid, mutations: seq<Mutation>)
    requires ValidBoard(b)
    ensures ApplyMutations(b, mutations).Success? <==>
            forall k :: 0 <= k < |mutations| ==> InBoard(mutations[k].square, b)
    ensures ApplyMutations(b, mutations).Success? ==>
            forall sq :: InBoard(sq, b) ==>
              CellAt(ApplyMutations(b, mutations).value, sq) == LastWrite(mutations, sq, CellAt(b, sq))
    decreases |mutations|
  {
    if |mutations| > 0 {
      var m := mutations[0];
      if InBoard(m.square, b) {
        var b' := Write(b, m.square, m.piece);
        ApplyMutationsCells(b', mutations[1..]);
        assert forall k :: 1 <= k < |mutations| ==> mutations[k] == mutations[1..][k - 1];
        forall sq | InBoard(sq, b)
          ensures LastWrite(mutations[1..], sq, CellAt(b', sq)) == LastWrite(mutations, sq, CellAt(b, sq))
        {
          assert mutations == [m] + mutations[1..];
          LastWriteCons(m, mutations[1..], sq, CellAt(b, sq));
        }
      }
    }
  }

  /** `mutateBoard` fails exactly when some write lies outside the board;
      otherwise the result has the same shape, and each square holds what the
      last write to it put there, or its previous content if no write touches it. */
  lemma MutatedSpec(mutations: seq<Mutation>, b: Grid)
    requires ValidBoard(b)
    ensures Mutated(mutations, b).Success? <==>
            forall k :: 0 <= k < |mutations| ==> InBoard(mutations[k].square, b)
    ensures Mutated(mutations, b).Success? ==>
            var nb := Mutated(mutations, b).value;
            ValidBoard(nb) && |nb| == |b| && |nb[0]| == |b[0]| &&
            forall sq :: InBoard(sq, b) ==> CellAt(nb, sq) == LastWrite(mutations, sq, CellAt(b, sq))
  {
    ApplyMutationsCells(b, mutations);
    if ApplyMutations(b, mutations).Success? {
      IsBoardValidMeansRectangular(ApplyMutations(b, mutations).value);
    }
  }

  /** Reading a square of the mutated board gives the last write to it. */
  lemma AtSquareAfterMutation(mutations: seq<Mutation>, b: Grid, sq: Square)
    requires ValidBoard(b) && Mutated(mutations, b).Success?
    ensures ValidBoard(Mutated(mutations, b).value)
    ensures AtSquare(sq, Mutated(mutations, b).value) ==
            if InBoard(sq, b) then Success(LastWrite(mutations, sq, CellAt(b, sq))) else AtSquare(sq, b)
  {
    MutatedSpec(mutations, b);
  }
}
