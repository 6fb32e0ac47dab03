/** The piece shorthand and the board printer of the server package
    (`packages/server/src/index.ts`). The shorthand is the side letter and a
    type letter, as in the board codec, except that `toShorthand` writes a
    pawn as 'X' while `fromShorthand` reads a pawn as 'P'. */
module ServerIndex {
  import opened Wrappers
  import opened Text
  import opened Board
  import opened BoardText

  /** The `shortName` table of `toShorthand`. */
  function ShortName(kind: PieceType): char {
    match kind
    case Bishop => 'B'
    case Knight => 'N'
    case Rook => 'R'
    case King => 'K'
    case Queen => 'Q'
    case Pawn => 'X'
  }

  /** The `shortSide` table of `toShorthand`. */
  function ShortSide(side: Side): char {
    match side
    case White => 'w'
    case Black => 'b'
  }

  /** `toShorthand`: the side letter, then the type letter. */
  function ToShorthand(p: Piece): (r: string)
    ensures |r| == 2 && IsSideLetter(r[0]) && (IsTypeLetter(r[1]) || r[1] == 'X')
    ensures r[1] == 'X' <==> p.kind == Pawn
  {
    [ShortSide(p.side), ShortName(p.kind)]
  }

  predicate IsSideLetter(c: char) {
    c == 'w' || c == 'b'
  }

  /** A type letter `fromShorthand` reads: the pawn is 'P' there. */
  predicate IsTypeLetter(c: char) {
    c == 'B' || c == 'N' || c == 'R' || c == 'K' || c == 'Q' || c == 'P'
  }

  /** The `shortName` table of `fromShorthand`. */
  function NameOfShort(c: char): Option<PieceType> {
    match c
    case 'B' => Some(Bishop)
    case 'N' => Some(Knight)
    case 'R' => Some(Rook)
    case 'K' => Some(King)
    case 'Q' => Some(Queen)
    case 'P' => Some(Pawn)
    case _ => None
  }

  /** The `shortSide` table of `fromShorthand`. */
  function SideOfShort(c: char): Option<Side> {
    match c
    case 'w' => Some(White)
    case 'b' => Some(Black)
    case _ => None
  }

  /** `fromShorthand`: the side from the first character and the type from the
      second; a missing or unknown character is "bad notation!". Characters
      after the second are ignored. */
  function FromShorthand(shorthand: string): (r: Result<Piece>)
    ensures r.Success? <==> |shorthand| >= 2 && IsSideLetter(shorthand[0]) && IsTypeLetter(shorthand[1])
    ensures r.Failure? ==> r.error == "bad notation!"
  {
    var side := if |shorthand| > 0 then SideOfShort(shorthand[0]) else None;
    var name := if |shorthand| > 1 then NameOfShort(shorthand[1]) else None;
    if side.None? || name.None? then Failure("bad notation!")
    else Success(Piece(name.value, side.value))
  }

  /** Every piece but a pawn reads back from its shorthand; a pawn's 'X' is
      bad notation. */
  lemma ShorthandRoundTrip(p: Piece)
    ensures p.kind != Pawn ==> FromShorthand(ToShorthand(p)) == Success(p)
    ensures p.kind == Pawn ==> FromShorthand(ToShorthand(p)) == Failure("bad notation!")
  {
  }

  /** A shorthand that reads as a piece other than a pawn is that piece's
      shorthand, up to the characters after the second. */
  lemma ReadShorthand(s: string)
    requires FromShorthand(s).Success? && FromShorthand(s).value.kind != Pawn
    ensures ToShorthand(FromShorthand(s).value) == s[..2]
  {
  }

  /** The board codec's piece code, character by character. */
  lemma PieceCodeLetters(p: Piece)
    ensures var code := SerializePiece(p);
            |code| == 2 && code[0] == ShortSide(p.side) &&
            code[1] == (if p.kind == Pawn then 'P' else ShortName(p.kind))
  {
    var side := SideLetter(p.side);
    var kind := TypeLetter(p.kind);
    assert SerializePiece(p) == side + kind;
    assert side == [ShortSide(p.side)];
  }

  /** Apart from the pawn, the shorthand is the board codec's piece code. */
  lemma ShorthandIsPieceCode(p: Piece)
    ensures p.kind != Pawn <==> ToShorthand(p) == SerializePiece(p)
  {
    PieceCodeLetters(p);
    var code := SerializePiece(p);
    if p.kind != Pawn {
      assert ToShorthand(p) == code;
    } else {
      assert ToShorthand(p)[1] != code[1];
    }
  }

  /** `fromShorthand` reads every piece code, the pawn's included. */
  lemma ReadPieceCode(p: Piece)
    ensures FromShorthand(SerializePiece(p)) == Success(p)
  {
    PieceCodeLetters(p);
    ReadLetters(SerializePiece(p), p);
  }

  /** Two characters spelling a piece's side and type, 'P' for a pawn, read
      back as that piece. */
  lemma ReadLetters(s: string, p: Piece)
    requires |s| == 2 && s[0] == ShortSide(p.side) && s[1] == (if p.kind == Pawn then 'P' else ShortName(p.kind))
    ensures FromShorthand(s) == Success(p)
  {
  }

  // ---------------------------------------------------------------------------
  // createBoard
  // ---------------------------------------------------------------------------

  /** `gen` over a row of shorthands, left to right; the first bad one throws. */
  function GenRow(shorthands: seq<string>): (r: Result<seq<Cell>>)
    ensures r.Success? <==> forall i :: 0 <= i < |shorthands| ==> FromShorthand(shorthands[i]).Success?
    ensures r.Success? ==>
              |r.value| == |shorthands| &&
              forall i :: 0 <= i < |shorthands| ==> r.value[i] == Some(FromShorthand(shorthands[i]).value)
  {
    if |shorthands| == 0 then Success([])
    else
      match FromShorthand(shorthands[0])
      case Failure(e) => Failure(e)
      case Success(piece) =>
        var rest := GenRow(shorthands[1..]);
        assert forall i :: 1 <= i < |shorthands| ==> shorthands[i] == shorthands[1..][i - 1];
        match rest
        case Failure(e) => Failure(e)
        case Success(cells) => Success([Some(piece)] + cells)
  }

  /** The pawn rows `createBoard` writes with `gen`, eight equal codes each;
      the back ranks are the codes of `BlackBackCodes` and `WhiteBackCodes`. */
  const BlackPawnCodes: seq<string> := Repeat("bP", 8)
  const WhitePawnCodes: seq<string> := Repeat("wP", 8)

  /** `createBoard`: the standard position written with `gen`. */
  function CreateBoard(): Result<Grid> {
    var empty := Repeat(None, 8);
    match GenRow(BlackBackCodes)
    case Failure(e) => Failure(e)
    case Success(blackBack) =>
      match GenRow(BlackPawnCodes)
      case Failure(e) => Failure(e)
      case Success(blackPawns) =>
        match GenRow(WhitePawnCodes)
        case Failure(e) => Failure(e)
        case Success(whitePawns) =>
          match GenRow(WhiteBackCodes)
          case Failure(e) => Failure(e)
          case Success(whiteBack) =>
            Success([blackBack, blackPawns, empty, empty, empty, empty, whitePawns, whiteBack])
  }

  /** A row of shorthands, each naming the piece of `side` with the kind at
      the same place, generates those pieces. */
  lemma GenPieces(shorthands: seq<string>, kinds: seq<PieceType>, side: Side)
    requires |shorthands| == |kinds| == 8
    requires forall i :: 0 <= i < 8 ==> FromShorthand(shorthands[i]) == Success(Piece(kinds[i], side))
    ensures GenRow(shorthands) == Success(PieceRow(kinds, side))
  {
    var r := GenRow(shorthands);
    assert r.Success?;
    var row := PieceRow(kinds, side);
    forall i | 0 <= i < 8 ensures r.value[i] == row[i] {
      assert FromShorthand(shorthands[i]).value == Piece(kinds[i], side);
    }
    assert r.value == row;
  }

  /** Eight copies of a shorthand that reads generate eight copies of its
      piece. */
  lemma {:induction false} GenUniform(shorthand: string, p: Piece, n: nat)
    requires FromShorthand(shorthand) == Success(p)
    ensures GenRow(Repeat(shorthand, n)) == Success(Repeat(Some(p), n))
    decreases n
  {
    if n > 0 {
      GenUniform(shorthand, p, n - 1);
      assert Repeat(shorthand, n)[1..] == Repeat(shorthand, n - 1);
      assert Repeat(Some(p), n) == [Some(p)] + Repeat(Some(p), n - 1);
    }
  }

  lemma GenBlackBackRank()
    ensures GenRow(BlackBackCodes) == Success(PieceRow(BackRank, Black))
  {
    assert FromShorthand("bR") == Success(Piece(Rook, Black));
    assert FromShorthand("bN") == Success(Piece(Knight, Black));
    assert FromShorthand("bB") == Success(Piece(Bishop, Black));
    assert FromShorthand("bQ") == Success(Piece(Queen, Black));
    assert FromShorthand("bK") == Success(Piece(King, Black));
    GenPieces(BlackBackCodes, BackRank, Black);
  }

  lemma GenWhiteBackRank()
    ensures GenRow(WhiteBackCodes) == Success(PieceRow(BackRank, White))
  {
    assert FromShorthand("wR") == Success(Piece(Rook, White));
    assert FromShorthand("wN") == Success(Piece(Knight, White));
    assert FromShorthand("wB") == Success(Piece(Bishop, White));
    assert FromShorthand("wQ") == Success(Piece(Queen, White));
    assert FromShorthand("wK") == Success(Piece(King, White));
    GenPieces(WhiteBackCodes, BackRank, White);
  }

  lemma GenPawnRows()
    ensures GenRow(BlackPawnCodes) == Success(Repeat(Some(Piece(Pawn, Black)), 8))
    ensures GenRow(WhitePawnCodes) == Success(Repeat(Some(Piece(Pawn, White)), 8))
  {
    assert FromShorthand("bP") == Success(Piece(Pawn, Black));
    GenUniform("bP", Piece(Pawn, Black), 8);
    assert FromShorthand("wP") == Success(Piece(Pawn, White));
    GenUniform("wP", Piece(Pawn, White), 8);
  }

  /** `createBoard` succeeds with the standard position, the same board the
      engine's `createStandardBoard` reads from its text. */
  lemma CreateBoardShape()
    ensures CreateBoard() == Success(StandardPosition())
    ensures CreateBoard() == CreateStandardBoard()
  {
    GenBlackBackRank();
    GenWhiteBackRank();
    GenPawnRows();
    CreateStandardBoardIsStandard();
  }

  // ---------------------------------------------------------------------------
  // printRow and printBoard
  // ---------------------------------------------------------------------------

  /** A cell of the printout: the shorthand, or two blanks. */
  function ShortText(c: Cell): string {
    match c
    case None => "  "
    case Some(p) => ToShorthand(p)
  }

  function ShortTexts(row: seq<Cell>): (r: seq<string>)
    ensures |r| == |row| && forall i :: 0 <= i < |row| ==> r[i] == ShortText(row[i])
  {
    seq(|row|, i requires 0 <= i < |row| => ShortText(row[i]))
  }

  /** `printRow`: the cells between bars. */
  function PrintRow(row: seq<Cell>): string {
    "|" + Join(ShortTexts(row), "|") + "|"
  }

  function PrintRows(b: Grid): (r: seq<string>)
    ensures |r| == |b| && forall i :: 0 <= i < |b| ==> r[i] == PrintRow(b[i])
  {
    seq(|b|, i requires 0 <= i < |b| => PrintRow(b[i]))
  }

  /** `printBoard`: nothing for a board without rows; otherwise a divider as
      wide as the first row asks for, the rows separated by dividers, and a
      final divider, each on its own line. */
  function PrintBoard(b: Grid): (r: string)
    ensures |b| == 0 ==> r == ""
  {
    if |b| == 0 then ""
    else
      var divider := "-" + RepeatString("---", |b[0]|);
      Join([divider, "\n", Join(PrintRows(b), "\n" + divider + "\n"), "\n", divider], "")
  }

  /** `'---'.repeat(n)` is 3n dashes. */
  lemma {:induction false} RepeatDashes(n: nat)
    ensures RepeatString("---", n) == Repeat('-', 3 * n)
  {
    if n > 0 {
      RepeatDashes(n - 1);
      assert "---" + Repeat('-', 3 * (n - 1)) == Repeat('-', 3 * n);
    }
  }

  /** The printed board starts and ends with a line of 3 * width + 1 dashes. */
  lemma PrintBoardFrame(b: Grid)
    requires |b| > 0
    ensures var d := Divider(|b[0]|);
            PrintBoard(b) == d + "\n" + Join(PrintRows(b), "\n" + d + "\n") + "\n" + d
  {
    var d := Divider(|b[0]|);
    RepeatDashes(|b[0]|);
    assert "-" + RepeatString("---", |b[0]|) == d;
    var x := Join(PrintRows(b), "\n" + d + "\n");
    var parts := [d, "\n", x, "\n", d];
    assert parts[1..] == ["\n", x, "\n", d];
    assert parts[1..][1..] == [x, "\n", d];
    assert parts[1..][1..][1..] == ["\n", d];
    assert parts[1..][1..][1..][1..] == [d];
    assert Join(["\n", d], "") == "\n" + d;
    assert Join([x, "\n", d], "") == x + "\n" + d;
    assert Join(["\n", x, "\n", d], "") == "\n" + x + "\n" + d;
  }

  ghost predicate NoPawns(b: Grid) {
    forall i, j :: 0 <= i < |b| && 0 <= j < |b[i]| ==> b[i][j].None? || b[i][j].value.kind != Pawn
  }

  /** Without pawns the printout is the board codec's serialized form, so
      reading it gives the board back. */
  lemma PrintBoardWithoutPawns(b: Grid)
    requires |b| > 0 && NoPawns(b)
    ensures PrintBoard(b) == SerializeBoard(b)
    ensures ValidBoard(b) ==> ReadBoard(PrintBoard(b)) == Success(b)
  {
    forall i | 0 <= i < |b| ensures PrintRow(b[i]) == RowText(b[i]) {
      forall j | 0 <= j < |b[i]| ensures ShortText(b[i][j]) == CellText(b[i][j]) {
        if b[i][j].Some? {
          ShorthandIsPieceCode(b[i][j].value);
        }
      }
      assert ShortTexts(b[i]) == CellTexts(b[i]);
    }
    assert PrintRows(b) == RowTexts(b);
    PrintBoardFrame(b);
    var d := Divider(|b[0]|);
    var x := Join(RowTexts(b), "\n" + d + "\n");
    var parts := [d, x, d];
    assert parts[1..] == [x, d] && parts[1..][1..] == [d];
    assert Join([x, d], "\n") == x + "\n" + d;
    assert SerializeBoard(b) == d + "\n" + x + "\n" + d;
    if ValidBoard(b) {
      ReadSerializedBoard(b);
    }
  }
}
