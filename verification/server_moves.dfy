/** The move generator of the server package (`packages/server/src/moves.ts`),
    an older copy of the core engine: no en passant, no two-square pawn
    advance, no check of the moving side inside the generators, and moves that
    record the taken piece without its square.

    The module it imports `getEnemySide` and `mutateBoard` from does not define
    them; the model uses the core package's `getEnemySide` (which the server's
    own `opposite` equals) and `mutateBoard`.

    Two places where the code is evidently not what was meant are modelled
    both ways: `getQueenMoves` checks for a knight (the `Variant` parameter
    chooses between the code as written and the queen check), and `move`
    looks up the requested target with `===`, which compares arrays by
    identity (`MakeMoveAsWritten` against `MakeMove`). */
module ServerMoves {
  import opened Wrappers
  import opened Board
  import opened Moves
  import opened Legality

  /** A server move: the piece goes from `from` to `to`, taking `takenPiece`
      when present. */
  datatype ServerMove = ServerMove(from: Square, to: Square, takenPiece: Option<Piece>)

  /** The queen's type check as written (`AsWritten`: it wants a knight) or as
      intended (`Corrected`: it wants a queen). */
  datatype Variant = AsWritten | Corrected

  /** The server's record of an engine move: the taken piece, not its square. */
  function Strip(m: MoveWithTake): ServerMove {
    ServerMove(m.from, m.to, if m.take.Some? then Some(m.take.value.piece) else None)
  }

  function StripAll(ms: seq<MoveWithTake>): (r: seq<ServerMove>)
    ensures |r| == |ms| && forall i :: 0 <= i < |ms| ==> r[i] == Strip(ms[i])
  {
    seq(|ms|, i requires 0 <= i < |ms| => Strip(ms[i]))
  }

  /** An engine move that takes on its target square, made from a server move. */
  function Annotated(m: ServerMove): MoveWithTake {
    MoveWithTake(m.from, m.to, if m.takenPiece.Some? then Some(Take(m.takenPiece.value, m.to)) else None)
  }

  /** A target a piece of `side` may move to: an in-board square that is empty
      (nothing is taken) or holds an enemy piece (that piece is taken). */
  ghost predicate Lands(m: ServerMove, side: Side, b: Grid)
    requires ValidBoard(b)
  {
    InBoard(m.to, b) &&
    match CellAt(b, m.to)
    case None => m.takenPiece == None
    case Some(p) => p.side == Enemy(side) && m.takenPiece == Some(p)
  }

  lemma StripLands(c: MoveWithTake, side: Side, b: Grid)
    requires ValidBoard(b) && EmptyOrCapture(c, side, b)
    ensures Lands(Strip(c), side, b) && Annotated(Strip(c)) == c
  {
  }

  lemma AnnotatedLands(m: ServerMove, side: Side, b: Grid)
    requires ValidBoard(b) && Lands(m, side, b)
    ensures EmptyOrCapture(Annotated(m), side, b) && Strip(Annotated(m)) == m
  {
  }

  lemma StripAllLands(ms: seq<MoveWithTake>, from: Square, side: Side, b: Grid)
    requires ValidBoard(b)
    requires forall c :: c in ms ==> c.from == from && EmptyOrCapture(c, side, b)
    ensures forall m :: m in StripAll(ms) ==> m.from == from && Lands(m, side, b)
  {
    forall m | m in StripAll(ms) ensures m.from == from && Lands(m, side, b) {
      var i :| 0 <= i < |ms| && StripAll(ms)[i] == m;
      assert ms[i] in ms;
    }
  }

  lemma StripAllAppend(a: seq<MoveWithTake>, c: seq<MoveWithTake>)
    ensures StripAll(a + c) == StripAll(a) + StripAll(c)
  {
  }

  // ---------------------------------------------------------------------------
  // getTraversalUntilBlockOrEnemy and the sliding pieces
  // ---------------------------------------------------------------------------

  /** `getTraversalUntilBlockOrEnemy`: the same walk as the engine's, each move
      recording the piece it takes. */
  function ServerTraversal(from: Square, side: Side, dirs: seq<Direction>, b: Grid): seq<ServerMove>
    requires ValidBoard(b) && NonZeroDirs(dirs)
  {
    StripAll(Traversal(from, side, dirs, b))
  }

  /** The walk reaches exactly the empty or enemy-held squares a whole number
      of steps along one of its directions with only empty squares between. */
  lemma ServerTraversalMembers(from: Square, side: Side, dirs: seq<Direction>, b: Grid, m: ServerMove)
    requires ValidBoard(b) && NonZeroDirs(dirs)
    ensures m in ServerTraversal(from, side, dirs, b) <==>
            m.from == from && Lands(m, side, b) &&
            exists i, k: nat :: 0 <= i < |dirs| && 1 <= k && m.to == Step(from, dirs[i], k) &&
                                ClearBetween(from, dirs[i], 1, k, b)
  {
    var t := Traversal(from, side, dirs, b);
    if m in StripAll(t) {
      var j :| 0 <= j < |t| && StripAll(t)[j] == m;
      TraversalMembers(from, side, dirs, b, t[j]);
    }
    if m.from == from && Lands(m, side, b) &&
       exists i, k: nat :: 0 <= i < |dirs| && 1 <= k && m.to == Step(from, dirs[i], k) &&
                           ClearBetween(from, dirs[i], 1, k, b) {
      var c := Annotated(m);
      AnnotatedLands(m, side, b);
      TraversalMembers(from, side, dirs, b, c);
      var j :| 0 <= j < |t| && t[j] == c;
      assert StripAll(t)[j] == m;
    }
  }

  /** The checks each generator starts with: a piece at `from` of the expected
      type, of either side. */
  function PieceAt(from: Square, kind: PieceType, b: Grid, notKind: string): (r: Result<Piece>)
    requires ValidBoard(b)
    ensures r.Success? <==> InBoard(from, b) && CellAt(b, from).Some? && CellAt(b, from).value.kind == kind
    ensures r.Success? ==> r.value == CellAt(b, from).value
  {
    match AtSquare(from, b)
    case Failure(e) => Failure(e)
    case Success(None) => Failure("Piece not available to move!")
    case Success(Some(piece)) => if piece.kind != kind then Failure(notKind) else Success(piece)
  }

  /** A piece that slides along `dirs`, moving for its own side. */
  function SlideMoves(from: Square, kind: PieceType, dirs: seq<Direction>, b: Grid, notKind: string)
    : (r: Result<seq<ServerMove>>)
    requires ValidBoard(b) && NonZeroDirs(dirs)
    ensures r.Success? <==> InBoard(from, b) && CellAt(b, from).Some? && CellAt(b, from).value.kind == kind
    ensures r.Success? ==> r.value == ServerTraversal(from, CellAt(b, from).value.side, dirs, b)
  {
    match PieceAt(from, kind, b, notKind)
    case Failure(e) => Failure(e)
    case Success(piece) => Success(ServerTraversal(from, piece.side, dirs, b))
  }

  function BishopMoves(from: Square, b: Grid): Result<seq<ServerMove>>
    requires ValidBoard(b)
  {
    DirsNonZero();
    SlideMoves(from, Bishop, BishopDirs, b, "Piece is not a bishop to move!")
  }

  function RookMoves(from: Square, b: Grid): Result<seq<ServerMove>>
    requires ValidBoard(b)
  {
    DirsNonZero();
    SlideMoves(from, Rook, RookDirs, b, "Piece is not a rook to move!")
  }

  function KnightMoves(from: Square, b: Grid): Result<seq<ServerMove>>
    requires ValidBoard(b)
  {
    DirsNonZero();
    SlideMoves(from, Knight, KnightDirs, b, "Piece is not a knight to move!")
  }

  /** `getQueenMoves` as written: it demands a knight, then walks the eight
      queen directions. */
  function QueenMovesAsWritten(from: Square, b: Grid): Result<seq<ServerMove>>
    requires ValidBoard(b)
  {
    DirsNonZero();
    SlideMoves(from, Knight, AllDirs, b, "Piece is not a knight to move!")
  }

  /** `getQueenMoves` with the type check it evidently intends. */
  function QueenMoves(from: Square, b: Grid): Result<seq<ServerMove>>
    requires ValidBoard(b)
  {
    DirsNonZero();
    SlideMoves(from, Queen, AllDirs, b, "Piece is not a queen to move!")
  }

  function QueenGenerator(v: Variant, from: Square, b: Grid): Result<seq<ServerMove>>
    requires ValidBoard(b)
  {
    if v == AsWritten then QueenMovesAsWritten(from, b) else QueenMoves(from, b)
  }

  /** As written, the queen generator throws on every queen; corrected, a
      queen walks the eight directions. */
  lemma QueenTypeCheck(from: Square, b: Grid)
    requires ValidBoard(b) && InBoard(from, b) && CellAt(b, from).Some? && CellAt(b, from).value.kind == Queen
    ensures QueenMovesAsWritten(from, b) == Failure("Piece is not a knight to move!")
    ensures NonZeroDirs(AllDirs) &&
            QueenMoves(from, b) == Success(ServerTraversal(from, CellAt(b, from).value.side, AllDirs, b))
  {
    DirsNonZero();
  }

  /** The server's knight slides like the engine's: its moves are the
      engine's feasible knight moves for the knight's own side. */
  lemma KnightAsEngine(from: Square, b: Grid)
    requires ValidBoard(b) && InBoard(from, b) && CellAt(b, from).Some? && CellAt(b, from).value.kind == Knight
    ensures var side := CellAt(b, from).value.side;
            KnightMoves(from, b).Success? && FeasibleKnightMoves(from, side, b).Success? &&
            KnightMoves(from, b).value == StripAll(FeasibleKnightMoves(from, side, b).value)
  {
    DirsNonZero();
  }

  // ---------------------------------------------------------------------------
  // getPawnMoves
  // ---------------------------------------------------------------------------

  /** The single advance onto an empty square; there is no two-square advance. */
  function PawnAdvance(from: Square, side: Side, b: Grid): (r: seq<ServerMove>)
    requires ValidBoard(b)
    ensures |r| <= 1
  {
    var moveSquare := Shift(from, Sq(Forward(side), 0));
    if InBoard(moveSquare, b) && CellAt(b, moveSquare).None? then [ServerMove(from, moveSquare, None)] else []
  }

  /** `getPawnMoves`: the advance, then the diagonal captures; no en passant. */
  function PawnMoves(from: Square, b: Grid): (r: Result<seq<ServerMove>>)
    requires ValidBoard(b)
    ensures r.Success? <==> InBoard(from, b) && CellAt(b, from).Some? && CellAt(b, from).value.kind == Pawn
  {
    match PieceAt(from, Pawn, b, "Piece is not a pawn to move!")
    case Failure(e) => Failure(e)
    case Success(piece) =>
      Success(PawnAdvance(from, piece.side, b) + StripAll(Captures(from, piece.side, TakeDirs(piece.side), b)))
  }

  /** `getPawnMoves`: checks the piece, pushes the advance, then loops over
      the two capture directions. */
  method GetPawnMoves(from: Square, b: Grid) returns (r: Result<seq<ServerMove>>)
    requires ValidBoard(b)
    ensures r == PawnMoves(from, b)
  {
    var pieceAtSquare := PieceAt(from, Pawn, b, "Piece is not a pawn to move!");
    if pieceAtSquare.Failure? {
      return Failure(pieceAtSquare.error);
    }
    var side := pieceAtSquare.value.side;
    var moves: seq<ServerMove> := [];
    var moveSquare := Shift(from, Sq(Forward(side), 0));
    if InBoard(moveSquare, b) && CellAt(b, moveSquare).None? {
      moves := moves + [ServerMove(from, moveSquare, None)];
    }
    var takeDirections := TakeDirs(side);
    for i := 0 to |takeDirections|
      invariant moves == PawnAdvance(from, side, b) + StripAll(Captures(from, side, takeDirections[..i], b))
    {
      var takeSquare := Shift(from, takeDirections[i]);
      var takeSquareInBoard := InBoard(takeSquare, b);
      var takenPiece := if takeSquareInBoard then CellAt(b, takeSquare) else None;
      assert takeDirections[..i + 1][..i] == takeDirections[..i];
      StripAllAppend(Captures(from, side, takeDirections[..i], b), CaptureAt(from, takeDirections[i], side, b));
      if takeSquareInBoard && takenPiece.Some? && takenPiece.value.side == Enemy(side) {
        moves := moves + [ServerMove(from, takeSquare, takenPiece)];
      }
    }
    assert takeDirections[..|takeDirections|] == takeDirections;
    return Success(moves);
  }

  lemma CapturesOfPair(from: Square, side: Side, b: Grid)
    requires ValidBoard(b)
    ensures Captures(from, side, TakeDirs(side), b) ==
            CaptureAt(from, TakeDirs(side)[0], side, b) + CaptureAt(from, TakeDirs(side)[1], side, b)
  {
    var dirs := TakeDirs(side);
    assert Captures(from, side, dirs, b) == Captures(from, side, dirs[..1], b) + CaptureAt(from, dirs[1], side, b);
    assert dirs[..1][..0] == [];
    assert Captures(from, side, dirs[..1], b) == Captures(from, side, [], b) + CaptureAt(from, dirs[0], side, b);
  }

  /** The advance is the move one square forward, onto an empty square. */
  lemma AdvanceMembers(from: Square, side: Side, b: Grid, m: ServerMove)
    requires ValidBoard(b)
    ensures m in PawnAdvance(from, side, b) <==>
            m.from == from && Lands(m, side, b) && m.takenPiece.None? && m.to == Shift(from, Sq(Forward(side), 0))
  {
  }

  /** The capture along `d` takes the enemy piece standing there. */
  lemma CaptureMembers(from: Square, d: Direction, side: Side, b: Grid, m: ServerMove)
    requires ValidBoard(b)
    ensures m in StripAll(CaptureAt(from, d, side, b)) <==>
            m.from == from && Lands(m, side, b) && m.takenPiece.Some? && m.to == Shift(from, d)
  {
    var c := CaptureAt(from, d, side, b);
    if |c| == 1 {
      assert StripAll(c) == [Strip(c[0])];
    } else {
      assert StripAll(c) == [];
    }
  }

  /** A pawn moves one square forward onto an empty square, or one square
      diagonally forward onto an enemy piece, which it takes; nothing else. */
  lemma PawnMovesMembers(from: Square, b: Grid, m: ServerMove)
    requires ValidBoard(b) && PawnMoves(from, b).Success?
    ensures var side := CellAt(b, from).value.side;
            m in PawnMoves(from, b).value <==>
            m.from == from && Lands(m, side, b) &&
            ((m.takenPiece.None? && m.to == Shift(from, Sq(Forward(side), 0))) ||
             (m.takenPiece.Some? && (m.to == Shift(from, TakeDirs(side)[0]) || m.to == Shift(from, TakeDirs(side)[1]))))
  {
    var side := CellAt(b, from).value.side;
    var dirs := TakeDirs(side);
    var c0 := CaptureAt(from, dirs[0], side, b);
    var c1 := CaptureAt(from, dirs[1], side, b);
    CapturesOfPair(from, side, b);
    StripAllAppend(c0, c1);
    assert PawnMoves(from, b).value == PawnAdvance(from, side, b) + (StripAll(c0) + StripAll(c1));
    AdvanceMembers(from, side, b, m);
    CaptureMembers(from, dirs[0], side, b, m);
    CaptureMembers(from, dirs[1], side, b, m);
  }

  // ---------------------------------------------------------------------------
  // getKingMoves
  // ---------------------------------------------------------------------------

  /** `getKingMoves`: one step in each of the eight directions onto an empty
      or enemy-held square. */
  function KingMoves(from: Square, b: Grid): (r: Result<seq<ServerMove>>)
    requires ValidBoard(b)
    ensures r.Success? <==> InBoard(from, b) && CellAt(b, from).Some? && CellAt(b, from).value.kind == King
  {
    match AtSquare(from, b)
    case Failure(e) => Failure(e)
    case Success(piece) =>
      if piece.None? || piece.value.kind != King then Failure("Not a king being moved!")
      else Success(StripAll(KingSteps(from, piece.value.side, AllDirs, b)))
  }

  /** The king reaches exactly its in-board neighbours that are empty or hold
      an enemy piece. */
  lemma KingMovesMembers(from: Square, b: Grid, m: ServerMove)
    requires ValidBoard(b) && KingMoves(from, b).Success?
    ensures var side := CellAt(b, from).value.side;
            m in KingMoves(from, b).value <==>
            m.from == from && Lands(m, side, b) && exists i :: 0 <= i < |AllDirs| && m.to == Shift(from, AllDirs[i])
  {
    var side := CellAt(b, from).value.side;
    var steps := KingSteps(from, side, AllDirs, b);
    if m in StripAll(steps) {
      var j :| 0 <= j < |steps| && StripAll(steps)[j] == m;
      assert steps[j] in steps;
    }
    if m.from == from && Lands(m, side, b) && exists i :: 0 <= i < |AllDirs| && m.to == Shift(from, AllDirs[i]) {
      var i :| 0 <= i < |AllDirs| && m.to == Shift(from, AllDirs[i]);
      KingStepsComplete(from, side, AllDirs, b, i);
      var c :| c in steps && c.to == Shift(from, AllDirs[i]);
      StripLands(c, side, b);
      var j :| 0 <= j < |steps| && steps[j] == c;
      assert StripAll(steps)[j] == m;
    }
  }

  // ---------------------------------------------------------------------------
  // getPotentialMoves and getAllPotentialMoves
  // ---------------------------------------------------------------------------

  /** `getPotentialMoves`: the generator of the piece at `from`. As written it
      throws exactly on an empty square and on a queen. */
  function PotentialMoves(v: Variant, from: Square, b: Grid): (r: Result<seq<ServerMove>>)
    requires ValidBoard(b)
    ensures r.Success? <==>
            InBoard(from, b) && CellAt(b, from).Some? && !(v == AsWritten && CellAt(b, from).value.kind == Queen)
  {
    match AtSquare(from, b)
    case Failure(e) => Failure(e)
    case Success(None) => Failure("No piece at square to get moves for!")
    case Success(Some(piece)) =>
      match piece.kind
      case Pawn => PawnMoves(from, b)
      case Bishop => BishopMoves(from, b)
      case Rook => RookMoves(from, b)
      case Knight => KnightMoves(from, b)
      case Queen => QueenGenerator(v, from, b)
      case King => KingMoves(from, b)
  }

  /** Every potential move starts at `from` and lands on an empty square or
      takes an enemy piece; so no piece moves onto its own square or onto a
      piece of its own side. */
  lemma PotentialMovesLand(v: Variant, from: Square, b: Grid)
    requires ValidBoard(b) && PotentialMoves(v, from, b).Success?
    ensures var side := CellAt(b, from).value.side;
            forall m :: m in PotentialMoves(v, from, b).value ==> m.from == from && Lands(m, side, b) && m.to != from
  {
    var side := CellAt(b, from).value.side;
    DirsNonZero();
    match CellAt(b, from).value.kind
    case Pawn =>
      var dirs := TakeDirs(side);
      StripAllLands(Captures(from, side, dirs, b), from, side, b);
    case King =>
      StripAllLands(KingSteps(from, side, AllDirs, b), from, side, b);
    case Bishop =>
      TraversalTargets(from, side, BishopDirs, 0, b);
      StripAllLands(Traversal(from, side, BishopDirs, b), from, side, b);
    case Rook =>
      TraversalTargets(from, side, RookDirs, 0, b);
      StripAllLands(Traversal(from, side, RookDirs, b), from, side, b);
    case Knight =>
      TraversalTargets(from, side, KnightDirs, 0, b);
      StripAllLands(Traversal(from, side, KnightDirs, b), from, side, b);
    case Queen =>
      TraversalTargets(from, side, AllDirs, 0, b);
      StripAllLands(Traversal(from, side, AllDirs, b), from, side, b);
  }

  /** The potential moves of each square in turn, concatenated; the first
      square whose generator throws makes the whole call throw. */
  function PotentialFrom(v: Variant, squares: seq<Square>, b: Grid): (r: Result<seq<ServerMove>>)
    requires ValidBoard(b)
    ensures r.Success? <==> forall i :: 0 <= i < |squares| ==> PotentialMoves(v, squares[i], b).Success?
    ensures r.Success? ==>
              forall m :: m in r.value <==>
                exists i :: 0 <= i < |squares| && m in PotentialMoves(v, squares[i], b).value
  {
    if |squares| == 0 then Success([])
    else
      match PotentialMoves(v, squares[0], b)
      case Failure(e) => Failure(e)
      case Success(first) =>
        var rest := PotentialFrom(v, squares[1..], b);
        assert forall i :: 1 <= i < |squares| ==> squares[i] == squares[1..][i - 1];
        match rest
        case Failure(e) => Failure(e)
        case Success(more) => Success(first + more)
  }

  /** `getAllPotentialMoves`: the potential moves of every piece of `side`, in
      the row-major order of the pieces. */
  function AllPotentialMoves(v: Variant, side: Side, b: Grid): Result<seq<ServerMove>>
    requires ValidBoard(b)
  {
    PotentialFrom(v, FindPieces(b, None, Some(side)), b)
  }

  /** As written, `getAllPotentialMoves` throws exactly when the side has a
      queen; corrected, it never throws. */
  lemma AllPotentialMovesFails(v: Variant, side: Side, b: Grid)
    requires ValidBoard(b)
    ensures AllPotentialMoves(v, side, b).Failure? <==>
            v == AsWritten && exists sq :: InBoard(sq, b) && CellAt(b, sq) == Some(Piece(Queen, side))
  {
    if AllPotentialMoves(v, side, b).Failure? {
      FailureHasQueen(v, side, b);
    }
    if v == AsWritten {
      if sq :| InBoard(sq, b) && CellAt(b, sq) == Some(Piece(Queen, side)) {
        QueenMakesFailure(side, b, sq);
      }
    }
  }

  lemma FailureHasQueen(v: Variant, side: Side, b: Grid)
    requires ValidBoard(b) && AllPotentialMoves(v, side, b).Failure?
    ensures v == AsWritten && exists sq :: InBoard(sq, b) && CellAt(b, sq) == Some(Piece(Queen, side))
  {
    var squares := FindPieces(b, None, Some(side));
    var i :| 0 <= i < |squares| && PotentialMoves(v, squares[i], b).Failure?;
    assert squares[i] in squares;
  }

  lemma QueenMakesFailure(side: Side, b: Grid, sq: Square)
    requires ValidBoard(b) && InBoard(sq, b) && CellAt(b, sq) == Some(Piece(Queen, side))
    ensures AllPotentialMoves(AsWritten, side, b).Failure?
  {
    var squares := FindPieces(b, None, Some(side));
    assert sq in squares;
    var i :| 0 <= i < |squares| && squares[i] == sq;
    assert PotentialMoves(AsWritten, squares[i], b).Failure?;
  }

  /** The moves `getAllPotentialMoves` returns are exactly the potential moves
      of the pieces of `side`. */
  lemma AllPotentialMovesMembers(v: Variant, side: Side, b: Grid, m: ServerMove)
    requires ValidBoard(b) && AllPotentialMoves(v, side, b).Success?
    ensures m in AllPotentialMoves(v, side, b).value <==>
            exists sq :: InBoard(sq, b) && CellAt(b, sq).Some? && CellAt(b, sq).value.side == side &&
                         PotentialMoves(v, sq, b).Success? && m in PotentialMoves(v, sq, b).value
  {
    var squares := FindPieces(b, None, Some(side));
    if sq :| InBoard(sq, b) && CellAt(b, sq).Some? && CellAt(b, sq).value.side == side &&
             PotentialMoves(v, sq, b).Success? && m in PotentialMoves(v, sq, b).value {
      assert sq in squares;
      var i :| 0 <= i < |squares| && squares[i] == sq;
    }
    if m in AllPotentialMoves(v, side, b).value {
      var i :| 0 <= i < |squares| && m in PotentialMoves(v, squares[i], b).value;
      assert squares[i] in squares;
    }
  }

  // ---------------------------------------------------------------------------
  // isCheck
  // ---------------------------------------------------------------------------

  /** `moves.some(move => move.to equals to)`. */
  function AnyTo(moves: seq<ServerMove>, to: Square): (r: bool)
    ensures r <==> exists m :: m in moves && m.to == to
  {
    if |moves| == 0 then false
    else
      assert forall m :: m in moves ==> m == moves[0] || m in moves[1..];
      moves[0].to == to || AnyTo(moves[1..], to)
  }

  /** `isCheck`: some potential move of the enemy lands on the first own king
      square; false without an own king. */
  function IsCheck(v: Variant, side: Side, b: Grid): (r: Result<bool>)
    requires ValidBoard(b)
    ensures r.Success? && FirstKing(side, b).None? ==> !r.value
  {
    var ownKingSquare := FirstKing(side, b);
    match AllPotentialMoves(v, Enemy(side), b)
    case Failure(e) => Failure(e)
    case Success(enemyMoves) => Success(ownKingSquare.Some? && AnyTo(enemyMoves, ownKingSquare.value))
  }

  /** As written, `isCheck` throws exactly when the enemy has a queen on the
      board; corrected, it never throws. */
  lemma IsCheckFails(v: Variant, side: Side, b: Grid)
    requires ValidBoard(b)
    ensures IsCheck(v, side, b).Failure? <==>
            v == AsWritten && exists sq :: InBoard(sq, b) && CellAt(b, sq) == Some(Piece(Queen, Enemy(side)))
  {
    AllPotentialMovesFails(v, Enemy(side), b);
  }

  /** The side is in check exactly when it has a king and an enemy piece has
      a potential move onto the first king square. */
  lemma IsCheckAttacked(v: Variant, side: Side, b: Grid)
    requires ValidBoard(b) && IsCheck(v, side, b).Success?
    ensures IsCheck(v, side, b).value <==>
            FirstKing(side, b).Some? &&
            exists sq, m :: InBoard(sq, b) && CellAt(b, sq).Some? && CellAt(b, sq).value.side == Enemy(side) &&
                            PotentialMoves(v, sq, b).Success? && m in PotentialMoves(v, sq, b).value &&
                            m.to == FirstKing(side, b).value
  {
    var enemy := Enemy(side);
    var king := FirstKing(side, b);
    if IsCheck(v, side, b).value {
      var m :| m in AllPotentialMoves(v, enemy, b).value && m.to == king.value;
      AllPotentialMovesMembers(v, enemy, b, m);
    }
    if king.Some? &&
       exists sq, m :: InBoard(sq, b) && CellAt(b, sq).Some? && CellAt(b, sq).value.side == enemy &&
                       PotentialMoves(v, sq, b).Success? && m in PotentialMoves(v, sq, b).value && m.to == king.value {
      var sq, m :| InBoard(sq, b) && CellAt(b, sq).Some? && CellAt(b, sq).value.side == enemy &&
                   PotentialMoves(v, sq, b).Success? && m in PotentialMoves(v, sq, b).value && m.to == king.value;
      AllPotentialMovesMembers(v, enemy, b, m);
    }
  }

  // ---------------------------------------------------------------------------
  // getValidMoves
  // ---------------------------------------------------------------------------

  /** Whether the own king is out of check after the piece is moved to the
      move's target. */
  function LeavesKingSafe(v: Variant, from: Square, piece: Piece, m: ServerMove, b: Grid): Result<bool>
    requires ValidBoard(b)
  {
    match Mutated(Relocation(from, m.to, piece), b)
    case Failure(e) => Failure(e)
    case Success(boardAfterMove) =>
      match IsCheck(v, piece.side, boardAfterMove)
      case Failure(e) => Failure(e)
      case Success(check) => Success(!check)
  }

  function Verdicts(v: Variant, from: Square, piece: Piece, moves: seq<ServerMove>, b: Grid)
    : (r: seq<Result<bool>>)
    requires ValidBoard(b)
    ensures |r| == |moves|
    ensures forall i :: 0 <= i < |moves| ==> r[i] == LeavesKingSafe(v, from, piece, moves[i], b)
  {
    seq(|moves|, i requires 0 <= i < |moves| => LeavesKingSafe(v, from, piece, moves[i], b))
  }

  /** `getValidMoves`: no moves from an empty square; otherwise the potential
      moves after which the own king is not in check. */
  function ValidMoves(v: Variant, from: Square, b: Grid): (r: Result<seq<ServerMove>>)
    requires ValidBoard(b)
    ensures !InBoard(from, b) ==> r.Failure?
    ensures InBoard(from, b) && CellAt(b, from).None? ==> r == Success([])
    ensures r.Success? && InBoard(from, b) && CellAt(b, from).Some? ==> PotentialMoves(v, from, b).Success?
  {
    match AtSquare(from, b)
    case Failure(e) => Failure(e)
    case Success(None) => Success([])
    case Success(Some(piece)) =>
      match PotentialMoves(v, from, b)
      case Failure(e) => Failure(e)
      case Success(potentialMoves) => KeptBy(potentialMoves, Verdicts(v, from, piece, potentialMoves, b))
  }

  /** `getValidMoves`: reads the square, asks for the potential moves and
      keeps those after whose simulation the own king is safe. */
  method GetValidMoves(v: Variant, from: Square, b: Grid) returns (r: Result<seq<ServerMove>>)
    requires ValidBoard(b)
    ensures r == ValidMoves(v, from, b)
  {
    var atFrom := AtSquare(from, b);
    if atFrom.Failure? {
      return Failure(atFrom.error);
    }
    if atFrom.value.None? {
      return Success([]);
    }
    var piece := atFrom.value.value;
    var potential := PotentialMoves(v, from, b);
    if potential.Failure? {
      return Failure(potential.error);
    }
    r := FilterSafeMoves(v, from, piece, potential.value, b);
  }

  /** The `forEach` of `getValidMoves`. */
  method FilterSafeMoves(v: Variant, from: Square, piece: Piece, potentialMoves: seq<ServerMove>, b: Grid)
    returns (r: Result<seq<ServerMove>>)
    requires ValidBoard(b)
    ensures r == KeptBy(potentialMoves, Verdicts(v, from, piece, potentialMoves, b))
  {
    var validMoves: seq<ServerMove> := [];
    ghost var verdicts := Verdicts(v, from, piece, potentialMoves, b);
    for i := 0 to |potentialMoves|
      invariant KeptBy(potentialMoves[..i], verdicts[..i]) == Success(validMoves)
    {
      var move := potentialMoves[i];
      KeptByStep(potentialMoves, verdicts, i);
      var boardAfterMove := MutateBoard(Relocation(from, move.to, piece), b);
      if boardAfterMove.Failure? {
        KeptByPrefixFails(potentialMoves, verdicts, i + 1);
        return Failure(boardAfterMove.error);
      }
      var check := IsCheck(v, piece.side, boardAfterMove.value);
      if check.Failure? {
        KeptByPrefixFails(potentialMoves, verdicts, i + 1);
        return Failure(check.error);
      }
      if !check.value {
        validMoves := validMoves + [move];
      }
    }
    assert potentialMoves[..|potentialMoves|] == potentialMoves;
    assert verdicts[..|potentialMoves|] == verdicts;
    return Success(validMoves);
  }

  /** The valid moves of a piece are exactly its potential moves after whose
      relocation the own king is not in check. */
  lemma ValidMovesMembers(v: Variant, from: Square, b: Grid, m: ServerMove)
    requires ValidBoard(b) && ValidMoves(v, from, b).Success?
    requires InBoard(from, b) && CellAt(b, from).Some?
    ensures PotentialMoves(v, from, b).Success?
    ensures m in ValidMoves(v, from, b).value <==>
            m in PotentialMoves(v, from, b).value &&
            var after := Mutated(Relocation(from, m.to, CellAt(b, from).value), b);
            after.Success? && IsCheck(v, CellAt(b, from).value.side, after.value) == Success(false)
  {
    var piece := CellAt(b, from).value;
    var potentialMoves := PotentialMoves(v, from, b).value;
    var verdicts := Verdicts(v, from, piece, potentialMoves, b);
    KeptByMembers(potentialMoves, verdicts, m);
    if m in potentialMoves && LeavesKingSafe(v, from, piece, m, b) == Success(true) {
      var i :| 0 <= i < |potentialMoves| && potentialMoves[i] == m;
      assert verdicts[i] == Success(true);
    }
  }

  /** With the queen's type check corrected, `getValidMoves` throws only for
      a square outside the board. */
  lemma ValidMovesSucceed(from: Square, b: Grid)
    requires ValidBoard(b)
    ensures ValidMoves(Corrected, from, b).Success? <==> InBoard(from, b)
  {
    if InBoard(from, b) && CellAt(b, from).Some? {
      var piece := CellAt(b, from).value;
      var potentialMoves := PotentialMoves(Corrected, from, b).value;
      var verdicts := Verdicts(Corrected, from, piece, potentialMoves, b);
      PotentialMovesLand(Corrected, from, b);
      forall i | 0 <= i < |potentialMoves| ensures verdicts[i].Success? {
        var m := potentialMoves[i];
        assert m in potentialMoves;
        RelocationSucceeds(from, m.to, piece, b);
        IsCheckFails(Corrected, piece.side, Mutated(Relocation(from, m.to, piece), b).value);
      }
      KeptBySucceeds(potentialMoves, verdicts);
    }
  }

  /** As written, a piece has no valid moves at all while the enemy has a
      queen, as soon as one of its potential moves does not take that queen:
      the simulation's `isCheck` throws. */
  lemma ValidMovesFailWithEnemyQueen(from: Square, b: Grid, queen: Square, m: ServerMove)
    requires ValidBoard(b) && PotentialMoves(AsWritten, from, b).Success?
    requires m in PotentialMoves(AsWritten, from, b).value && m.to != queen
    requires InBoard(queen, b) && CellAt(b, queen) == Some(Piece(Queen, Enemy(CellAt(b, from).value.side)))
    ensures ValidMoves(AsWritten, from, b).Failure?
  {
    var piece := CellAt(b, from).value;
    var potentialMoves := PotentialMoves(AsWritten, from, b).value;
    var verdicts := Verdicts(AsWritten, from, piece, potentialMoves, b);
    PotentialMovesLand(AsWritten, from, b);
    RelocationSucceeds(from, m.to, piece, b);
    MutatedSpec(Relocation(from, m.to, piece), b);
    var after := Mutated(Relocation(from, m.to, piece), b).value;
    RelocationLast(from, m.to, piece, queen, CellAt(b, queen));
    assert CellAt(after, queen) == Some(Piece(Queen, Enemy(piece.side)));
    IsCheckFails(AsWritten, piece.side, after);
    var i :| 0 <= i < |potentialMoves| && potentialMoves[i] == m;
    assert verdicts[i].Failure?;
    KeptBySucceeds(potentialMoves, verdicts);
  }

  /** The cell a square holds after the relocation writes. */
  lemma RelocationLast(from: Square, to: Square, piece: Piece, sq: Square, prev: Cell)
    ensures LastWrite(Relocation(from, to, piece), sq, prev) ==
            if sq == to then Some(piece) else if sq == from then None else prev
  {
    ExecutionWritesLast(MoveWithTake(from, to, None), Some(piece), sq, prev);
    assert ExecutionWrites(MoveWithTake(from, to, None), Some(piece), to) == Relocation(from, to, piece);
  }

  // ---------------------------------------------------------------------------
  // move
  // ---------------------------------------------------------------------------

  /** What `move` gives back: the board after the move and the valid move
      that was made. */
  datatype MoveOutcome = MoveOutcome(board: Grid, move: ServerMove)

  /** The first move whose target is `to`, compared by value. */
  function FindTo(moves: seq<ServerMove>, to: Square): (r: Option<ServerMove>)
    ensures r.Some? <==> exists m :: m in moves && m.to == to
    ensures r.Some? ==> r.value in moves && r.value.to == to
    ensures r.Some? ==>
              exists i :: 0 <= i < |moves| && moves[i] == r.value &&
                          forall j :: 0 <= j < i ==> moves[j].to != to
  {
    if |moves| == 0 then None
    else if moves[0].to == to then Some(moves[0])
    else
      var r := FindTo(moves[1..], to);
      assert forall m :: m in moves[1..] ==> m in moves;
      assert forall m :: m in moves && m.to == to ==> m in moves[1..];
      if r.None? then r
      else
        var i :| 0 <= i < |moves| - 1 && moves[1..][i] == r.value &&
                 forall j :: 0 <= j < i ==> moves[1..][j].to != to;
        assert moves[i + 1] == r.value;
        assert forall j :: 0 <= j < i + 1 ==> moves[j].to != to by {
          forall j | 0 < j < i + 1
            ensures moves[j].to != to
          {
            assert moves[j] == moves[1..][j - 1];
          }
        }
        r
  }

  /** `move` with the requested target looked up by value: the valid moves
      are computed first, then the piece is checked (present, of the moving
      side), then the target must be one of the valid moves; the relocated
      board is checked once more for check. */
  function MakeMove(v: Variant, b: Grid, side: Side, from: Square, to: Square): (r: Result<MoveOutcome>)
    requires ValidBoard(b)
    ensures r.Success? ==> ValidBoard(r.value.board)
  {
    match ValidMoves(v, from, b)
    case Failure(e) => Failure(e)
    case Success(validMoves) =>
      var matchedValidMove := FindTo(validMoves, to);
      match AtSquare(from, b)
      case Failure(e) => Failure(e)
      case Success(None) => Failure("No piece exists at square")
      case Success(Some(piece)) =>
        if piece.side != side then Failure("Side to move is not piece side.")
        else if matchedValidMove.None? then Failure("Move is not valid.")
        else
          match Mutated(Relocation(from, to, piece), b)
          case Failure(e) => Failure(e)
          case Success(boardAfterMove) =>
            match IsCheck(v, side, boardAfterMove)
            case Failure(e) => Failure(e)
            case Success(inCheck) =>
              if inCheck then Failure("Move would put you in check!")
              else Success(MoveOutcome(boardAfterMove, matchedValidMove.value))
  }

  /** `move` succeeds exactly when `getValidMoves` does, the piece at `from`
      belongs to the moving side and one of its valid moves goes to `to`. So
      the final check test never throws: every valid move already passed it. */
  lemma MakeMoveSucceeds(v: Variant, b: Grid, side: Side, from: Square, to: Square)
    requires ValidBoard(b)
    ensures MakeMove(v, b, side, from, to).Success? <==>
            ValidMoves(v, from, b).Success? && InBoard(from, b) &&
            CellAt(b, from).Some? && CellAt(b, from).value.side == side &&
            exists m :: m in ValidMoves(v, from, b).value && m.to == to
  {
    var valid := ValidMoves(v, from, b);
    if valid.Success? && InBoard(from, b) && CellAt(b, from).Some? && CellAt(b, from).value.side == side {
      var matched := FindTo(valid.value, to);
      if matched.Some? {
        var piece := CellAt(b, from).value;
        ValidMovesMembers(v, from, b, matched.value);
        assert matched.value.to == to;
        var after := Mutated(Relocation(from, to, piece), b);
        assert after.Success? && IsCheck(v, side, after.value) == Success(false);
        assert MakeMove(v, b, side, from, to) == Success(MoveOutcome(after.value, matched.value));
      }
    }
  }

  /** After `move`: `from` is empty, the piece stands on `to`, every other
      square is unchanged, the mover is not in check, and the move returned
      is a valid move to `to` recording the piece that stood there. */
  lemma MakeMoveBoard(v: Variant, b: Grid, side: Side, from: Square, to: Square)
    requires ValidBoard(b) && MakeMove(v, b, side, from, to).Success?
    ensures var r := MakeMove(v, b, side, from, to).value;
            InBoard(from, b) && InBoard(to, b) && from != to && CellAt(b, from).Some? &&
            CellAt(r.board, from) == None && CellAt(r.board, to) == CellAt(b, from) &&
            (forall sq :: InBoard(sq, b) && sq != from && sq != to ==> CellAt(r.board, sq) == CellAt(b, sq)) &&
            IsCheck(v, side, r.board) == Success(false) &&
            r.move in ValidMoves(v, from, b).value && r.move.from == from && r.move.to == to &&
            r.move.takenPiece == CellAt(b, to)
  {
    var piece := CellAt(b, from).value;
    var r := MakeMove(v, b, side, from, to).value;
    ValidMovesMembers(v, from, b, r.move);
    PotentialMovesLand(v, from, b);
    MutatedSpec(Relocation(from, to, piece), b);
    forall sq | InBoard(sq, b)
      ensures CellAt(r.board, sq) == if sq == to then Some(piece) else if sq == from then None else CellAt(b, sq)
    {
      RelocationLast(from, to, piece, sq, CellAt(b, sq));
    }
  }

  /** A square as the server passes it around: a two-element array, which
      `===` compares by identity. */
  class SquareRef {
    const row: int
    const col: int

    constructor (row: int, col: int)
      ensures this.row == row && this.col == col
    {
      this.row := row;
      this.col := col;
    }

    function Value(): Square {
      Sq(row, col)
    }
  }

  /** `move` as written: `validMoves.find(v => v.to === to)` compares the
      caller's array with the arrays `shift` built while the moves were
      generated, so it never finds a target, and the call throws "Move is not
      valid." at best. */
  method MakeMoveAsWritten(v: Variant, b: Grid, side: Side, from: Square, to: SquareRef)
    returns (r: Result<MoveOutcome>)
    requires ValidBoard(b)
    ensures r.Failure?
    ensures ValidMoves(v, from, b).Success? && InBoard(from, b) &&
            CellAt(b, from).Some? && CellAt(b, from).value.side == side ==>
              r == Failure("Move is not valid.")
  {
    var validMoves := GetValidMoves(v, from, b);
    if validMoves.Failure? {
      return Failure(validMoves.error);
    }
    var found := FindTarget(validMoves.value, to);
    var piece := AtSquare(from, b);
    if piece.Failure? {
      return Failure("Square is not in board!");
    }
    if piece.value.None? {
      return Failure("No piece exists at square");
    }
    if piece.value.value.side != side {
      return Failure("Side to move is not piece side.");
    }
    if !found {
      return Failure("Move is not valid.");
    }
    assert false;
  }

  /** `validMoves.find(v => v.to === to)`: the target arrays are the ones
      `shift` made while the moves were generated, one new array per move, so
      none of them is the caller's `to`. */
  method FindTarget(validMoves: seq<ServerMove>, to: SquareRef) returns (found: bool)
    ensures !found
  {
    var targets: seq<SquareRef> := [];
    for i := 0 to |validMoves|
      invariant |targets| == i
      invariant forall j :: 0 <= j < i ==> fresh(targets[j]) && targets[j].Value() == validMoves[j].to
    {
      var target := new SquareRef(validMoves[i].to.row, validMoves[i].to.col);
      targets := targets + [target];
    }
    var i := 0;
    while i < |targets| && targets[i] != to
      invariant 0 <= i <= |targets|
    {
      i := i + 1;
    }
    found := i < |targets|;
  }
}
