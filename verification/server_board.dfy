/** The board module of the server package (`packages/server/src/board.ts`).
    Its piece codec, boxed board codec, `findPieces` filter and standard
    board are the same code as the core package's and are modelled there;
    what differs is an `opposite` of its own and the guards that make
    `serializeBoard`, `inBoard` and `getAllSquares` total on a board with no
    rows, and `serializeSquare` check the board's shape first. */
module ServerBoard {
  import opened Wrappers
  import opened Text
  import opened Board
  import opened BoardText

  /** `opposite`: the other side. */
  function Opposite(side: Side): (r: Side)
    ensures r != side
  {
    if side == Black then White else Black
  }

  /** `opposite` swaps the two sides and agrees with the core `getEnemySide`. */
  lemma OppositeInvolution(side: Side)
    ensures Opposite(Opposite(side)) == side
    ensures Opposite(side) == Enemy(side)
  {
  }

  /** `inBoard`: false on a board without rows; otherwise both coordinates
      inside the board, the first row giving the width. */
  predicate ServerInBoard(sq: Square, b: Grid)
    ensures ServerInBoard(sq, b) <==> |b| > 0 && 0 <= sq.row < |b| && 0 <= sq.col < |b[0]|
  {
    if |b| == 0 then false else InBoard(sq, b)
  }

  /** `getAllSquares`: no squares for a board without rows; otherwise the
      nested loops over the rows and the width of the first row. */
  method ServerGetAllSquares(b: Grid) returns (squares: seq<Square>)
    ensures |b| == 0 ==> squares == []
    ensures |b| > 0 ==> squares == AllSquares(|b|, |b[0]|)
  {
    if |b| == 0 {
      return [];
    }
    squares := GetAllSquares(b);
  }

  /** `findPieces` on a board that is either empty or rectangular. */
  function ServerFindPieces(b: Grid, kind: Option<PieceType>, side: Option<Side>): (r: seq<Square>)
    requires |b| == 0 || ValidBoard(b)
    ensures |b| == 0 ==> r == []
    ensures forall sq :: sq in r <==> ServerInBoard(sq, b) && Matches(b, sq, kind, side)
  {
    if |b| == 0 then [] else FindPieces(b, kind, side)
  }

  /** `serializeBoard`: the empty string for a board without rows; otherwise
      the boxed form, which starts and ends with a divider as wide as the
      first row asks for. */
  function ServerSerializeBoard(b: Grid): (r: string)
    ensures |b| == 0 ==> r == ""
    ensures |b| > 0 ==>
              var w := 3 * |b[0]| + 1;
              |r| >= 2 * w && r[..w] == Divider(|b[0]|) && r[|r| - w..] == Divider(|b[0]|)
  {
    if |b| == 0 then "" else
      var d := Divider(|b[0]|);
      var x := Join(RowTexts(b), "\n" + d + "\n");
      var parts := [d, x, d];
      assert parts[1..] == [x, d] && parts[1..][1..] == [d];
      assert Join([d], "\n") == d;
      assert Join([x, d], "\n") == x + "\n" + d;
      assert Join(parts, "\n") == d + "\n" + Join([x, d], "\n");
      SerializeBoard(b)
  }

  /** Reading what `serializeBoard` writes gives the board back. */
  lemma ServerBoardRoundTrip(b: Grid)
    requires ValidBoard(b)
    ensures ReadBoard(ServerSerializeBoard(b)) == Success(b)
  {
    ReadSerializedBoard(b);
  }

  /** `serializeSquare`: throws on a board that is not rectangular, then on a
      square outside it; otherwise the file letter and the rank. */
  function ServerSerializeSquare(sq: Square, b: Grid): (r: Result<string>)
    requires |b| == 0 || |b[0]| <= MaxColumns
    ensures r.Success? <==> ValidBoard(b) && InBoard(sq, b)
    ensures r.Success? ==>
              |r.value| >= 2 && r.value[0] == ColumnLetter(sq.col) &&
              (forall i :: 1 <= i < |r.value| ==> '0' <= r.value[i] <= '9') &&
              ParseNat(r.value[1..]) == |b| - sq.row
    ensures r.Failure? ==>
              r.error == (if ValidBoard(b) then "Square is not in board." else "Invalid board.")
  {
    IsBoardValidMeansRectangular(b);
    if !IsBoardValid(b) then Failure("Invalid board.")
    else SerializeSquare(sq, b)
  }

  /** On a four-row board the square [1, 1] is "b3". */
  lemma SerializeSquareOnFourRows(b: Grid)
    requires ValidBoard(b) && |b| == 4 && 2 <= |b[0]| <= MaxColumns
    ensures ServerSerializeSquare(Sq(1, 1), b) == Success("b3")
  {
    IsBoardValidMeansRectangular(b);
    SerializeSquareExample(b);
  }
}
