/** The legality half of the core engine's move module
    (`packages/core/src/moves.ts`, second half): check detection, the filter
    that drops moves leaving the own king attacked, the check state, promotion
    eligibility and the execution of a move. */
module Legality {
  import opened Wrappers
  import opened Board
  import opened Moves

  datatype CheckState = Safe | Check | Checkmate

  /** What executing a move gives: the new board, the capture the move made
      and the promotion type that was passed in, each only when present. */
  datatype MoveResult = MoveResult(board: Grid, take: Option<Take>, promotion: Option<PieceType>)

  // ---------------------------------------------------------------------------
  // isCheck
  // ---------------------------------------------------------------------------

  /** The first square of a row-major sequence comes before every other. */
  lemma RowMajorFirst(s: seq<Square>)
    requires RowMajor(s) && |s| > 0
    ensures forall sq :: sq in s ==> !RowMajorLess(sq, s[0])
  {
    forall sq | sq in s ensures !RowMajorLess(sq, s[0]) {
      var j :| 0 <= j < |s| && s[j] == sq;
      if j > 0 {
        assert RowMajorLess(s[0], s[j]);
      }
    }
  }

  /** `findPieces({type: 'king', side}, board)[0]`: the own king that comes
      first in row-major order, if the side has one. */
  function FirstKing(side: Side, b: Grid): (r: Option<Square>)
    requires ValidBoard(b)
    ensures r.None? <==> forall sq :: InBoard(sq, b) ==> CellAt(b, sq) != Some(Piece(King, side))
    ensures r.Some? ==>
              InBoard(r.value, b) && CellAt(b, r.value) == Some(Piece(King, side)) &&
              forall sq :: InBoard(sq, b) && CellAt(b, sq) == Some(Piece(King, side)) ==> !RowMajorLess(sq, r.value)
  {
    var kings := FindPieces(b, Some(King), Some(side));
    if |kings| == 0 then None
    else
      RowMajorFirst(kings);
      assert kings[0] in kings;
      Some(kings[0])
  }

  /** `isCheck`: some feasible move of the enemy lands on the first own king
      square. It throws exactly when the enemy's moves do: the last move ends
      outside the board and the enemy has a pawn. Without an own king it is
      false. */
  function IsCheck(previous: Option<Move>, side: Side, b: Grid): (r: Result<bool>)
    requires ValidBoard(b)
    ensures r.Failure? <==>
            previous.Some? && !InBoard(previous.value.to, b) &&
            exists sq :: InBoard(sq, b) && CellAt(b, sq) == Some(Piece(Pawn, Enemy(side)))
    ensures r.Success? && FirstKing(side, b).None? ==> !r.value
  {
    AllFeasibleMovesFails(previous, Enemy(side), b);
    var ownKingSquare := FirstKing(side, b);
    match AllFeasibleMoves(previous, Enemy(side), b)
    case Failure(e) => Failure(e)
    case Success(enemyMoves) =>
      Success(ownKingSquare.Some? && FirstTo(enemyMoves, ownKingSquare.value).Some?)
  }

  /** The side is in check exactly when it has a king and a piece of the enemy
      has a feasible move onto the first king square. */
  lemma IsCheckAttacked(previous: Option<Move>, side: Side, b: Grid)
    requires ValidBoard(b) && IsCheck(previous, side, b).Success?
    ensures IsCheck(previous, side, b).value <==>
            FirstKing(side, b).Some? &&
            exists sq, m :: InBoard(sq, b) && CellAt(b, sq).Some? && CellAt(b, sq).value.side == Enemy(side) &&
                            FeasibleMoves(sq, previous, Enemy(side), b).Success? &&
                            m in FeasibleMoves(sq, previous, Enemy(side), b).value &&
                            m.to == FirstKing(side, b).value
  {
    var enemy := Enemy(side);
    var all := AllFeasibleMoves(previous, enemy, b).value;
    var king := FirstKing(side, b);
    if IsCheck(previous, side, b).value {
      var m :| m in all && m.to == king.value;
      AllFeasibleMovesMembers(previous, enemy, b, m);
    }
    if king.Some? &&
       exists sq, m :: InBoard(sq, b) && CellAt(b, sq).Some? && CellAt(b, sq).value.side == enemy &&
                       FeasibleMoves(sq, previous, enemy, b).Success? &&
                       m in FeasibleMoves(sq, previous, enemy, b).value && m.to == king.value {
      var sq, m :| InBoard(sq, b) && CellAt(b, sq).Some? && CellAt(b, sq).value.side == enemy &&
                   FeasibleMoves(sq, previous, enemy, b).Success? &&
                   m in FeasibleMoves(sq, previous, enemy, b).value && m.to == king.value;
      AllFeasibleMovesMembers(previous, enemy, b, m);
    }
  }

  // ---------------------------------------------------------------------------
  // getValidMoves
  // ---------------------------------------------------------------------------

  /** The writes `getValidMoves` simulates a move with: `from` emptied and the
      piece put on the target. A pawn taken en passant stays on the board. */
  function Relocation(from: Square, to: Square, piece: Piece): seq<Mutation> {
    [Mutation(from, None), Mutation(to, Some(piece))]
  }

  /** Whether the own king is out of check after the simulated move. */
  function LeavesKingSafe(from: Square, piece: Piece, previous: Option<Move>, m: MoveWithTake, b: Grid)
    : Result<bool>
    requires ValidBoard(b)
  {
    match Mutated(Relocation(from, m.to, piece), b)
    case Failure(e) => Failure(e)
    case Success(boardAfterMove) =>
      match IsCheck(previous, piece.side, boardAfterMove)
      case Failure(e) => Failure(e)
      case Success(check) => Success(!check)
  }

  /** The outcome of simulating each move, in order. */
  function Verdicts(from: Square, piece: Piece, previous: Option<Move>, moves: seq<MoveWithTake>, b: Grid)
    : (r: seq<Result<bool>>)
    requires ValidBoard(b)
    ensures |r| == |moves|
    ensures forall i :: 0 <= i < |moves| ==> r[i] == LeavesKingSafe(from, piece, previous, moves[i], b)
  {
    seq(|moves|, i requires 0 <= i < |moves| => LeavesKingSafe(from, piece, previous, moves[i], b))
  }

  /** A loop over `moves` that keeps each move whose verdict is true and
      throws at the first verdict that is an error. */
  function KeptBy<T>(moves: seq<T>, verdicts: seq<Result<bool>>): (r: Result<seq<T>>)
    requires |verdicts| == |moves|
    ensures r.Success? ==> |r.value| <= |moves|
    decreases |moves|
  {
    if |moves| == 0 then Success([])
    else
      var front := moves[..|moves| - 1];
      var last := moves[|moves| - 1];
      match KeptBy(front, verdicts[..|moves| - 1])
      case Failure(e) => Failure(e)
      case Success(kept) =>
        match verdicts[|moves| - 1]
        case Failure(e) => Failure(e)
        case Success(keep) => Success(if keep then kept + [last] else kept)
  }

  lemma {:induction false} KeptBySucceeds<T>(moves: seq<T>, verdicts: seq<Result<bool>>)
    requires |verdicts| == |moves|
    ensures KeptBy(moves, verdicts).Success? <==> forall i :: 0 <= i < |moves| ==> verdicts[i].Success?
    decreases |moves|
  {
    if |moves| > 0 {
      var n := |moves| - 1;
      KeptBySucceeds(moves[..n], verdicts[..n]);
      assert forall i :: 0 <= i < n ==> verdicts[..n][i] == verdicts[i];
    }
  }

  lemma {:induction false} KeptByMembers<T>(moves: seq<T>, verdicts: seq<Result<bool>>, m: T)
    requires |verdicts| == |moves| && KeptBy(moves, verdicts).Success?
    ensures m in KeptBy(moves, verdicts).value <==>
            exists i :: 0 <= i < |moves| && moves[i] == m && verdicts[i] == Success(true)
    decreases |moves|
  {
    if |moves| > 0 {
      var n := |moves| - 1;
      KeptByMembers(moves[..n], verdicts[..n], m);
      if exists i :: 0 <= i < n && moves[..n][i] == m && verdicts[..n][i] == Success(true) {
        var i :| 0 <= i < n && moves[..n][i] == m && verdicts[..n][i] == Success(true);
        assert moves[i] == m && verdicts[i] == Success(true);
      }
      if exists i :: 0 <= i < |moves| && moves[i] == m && verdicts[i] == Success(true) {
        var i :| 0 <= i < |moves| && moves[i] == m && verdicts[i] == Success(true);
        if i < n {
          assert moves[..n][i] == m && verdicts[..n][i] == Success(true);
        }
      }
    }
  }

  /** The `forEach` of `getValidMoves`: the moves after which the own king is
      safe; the first simulation that throws makes the whole call throw. */
  function KeepSafe(from: Square, piece: Piece, previous: Option<Move>, moves: seq<MoveWithTake>, b: Grid)
    : (r: Result<seq<MoveWithTake>>)
    requires ValidBoard(b)
    ensures r.Success? ==> |r.value| <= |moves|
  {
    KeptBy(moves, Verdicts(from, piece, previous, moves, b))
  }

  /** The loop throws exactly when one of the simulations throws. */
  lemma KeepSafeSucceeds(from: Square, piece: Piece, previous: Option<Move>, moves: seq<MoveWithTake>, b: Grid)
    requires ValidBoard(b)
    ensures KeepSafe(from, piece, previous, moves, b).Success? <==>
            forall i :: 0 <= i < |moves| ==> LeavesKingSafe(from, piece, previous, moves[i], b).Success?
  {
    KeptBySucceeds(moves, Verdicts(from, piece, previous, moves, b));
  }

  /** The moves kept are exactly those after which the own king is safe. */
  lemma KeepSafeMembers(from: Square, piece: Piece, previous: Option<Move>,
                        moves: seq<MoveWithTake>, b: Grid, m: MoveWithTake)
    requires ValidBoard(b) && KeepSafe(from, piece, previous, moves, b).Success?
    ensures m in KeepSafe(from, piece, previous, moves, b).value <==>
            m in moves && LeavesKingSafe(from, piece, previous, m, b) == Success(true)
  {
    KeptByMembers(moves, Verdicts(from, piece, previous, moves, b), m);
  }

  /** One more turn of the loop: the next verdict decides. */
  lemma KeptByStep<T>(moves: seq<T>, verdicts: seq<Result<bool>>, i: nat)
    requires |verdicts| == |moves| && i < |moves|
    ensures KeptBy(moves[..i + 1], verdicts[..i + 1]) ==
            match KeptBy(moves[..i], verdicts[..i])
            case Failure(e) => Failure(e)
            case Success(kept) =>
              match verdicts[i]
              case Failure(e) => Failure(e)
              case Success(keep) => Success(if keep then kept + [moves[i]] else kept)
  {
    assert moves[..i + 1][..i] == moves[..i];
    assert verdicts[..i + 1][..i] == verdicts[..i];
  }

  /** Once a prefix throws, the whole loop throws the same error. */
  lemma {:induction false} KeptByPrefixFails<T>(moves: seq<T>, verdicts: seq<Result<bool>>, j: nat)
    requires |verdicts| == |moves| && j <= |moves|
    requires KeptBy(moves[..j], verdicts[..j]).Failure?
    ensures KeptBy(moves, verdicts) == KeptBy(moves[..j], verdicts[..j])
    decreases |moves| - j
  {
    if j < |moves| {
      var n := |moves| - 1;
      assert moves[..n][..j] == moves[..j];
      assert verdicts[..n][..j] == verdicts[..j];
      KeptByPrefixFails(moves[..n], verdicts[..n], j);
    } else {
      assert moves[..j] == moves;
      assert verdicts[..j] == verdicts;
    }
  }

  /** `getValidMoves`: no moves from an empty square; otherwise the feasible
      moves after whose simulation the own king is not in check. */
  function ValidMoves(from: Square, previous: Option<Move>, side: Side, b: Grid): (r: Result<seq<MoveWithTake>>)
    requires ValidBoard(b)
    ensures !InBoard(from, b) ==> r.Failure?
    ensures InBoard(from, b) && CellAt(b, from).None? ==> r == Success([])
    ensures r.Success? && InBoard(from, b) && CellAt(b, from).Some? ==>
              FeasibleMoves(from, previous, side, b).Success? &&
              r == KeepSafe(from, CellAt(b, from).value, previous, FeasibleMoves(from, previous, side, b).value, b)
  {
    match AtSquare(from, b)
    case Failure(e) => Failure(e)
    case Success(None) => Success([])
    case Success(Some(piece)) =>
      match FeasibleMoves(from, previous, side, b)
      case Failure(e) => Failure(e)
      case Success(feasibleMoves) => KeepSafe(from, piece, previous, feasibleMoves, b)
  }

  /** `getValidMoves`: reads the square, then filters the feasible moves. */
  method GetValidMoves(from: Square, previous: Option<Move>, side: Side, b: Grid)
    returns (r: Result<seq<MoveWithTake>>)
    requires ValidBoard(b)
    ensures r == ValidMoves(from, previous, side, b)
  {
    var atFrom := AtSquare(from, b);
    if atFrom.Failure? {
      return Failure(atFrom.error);
    }
    if atFrom.value.None? {
      return Success([]);
    }
    var piece := atFrom.value.value;
    var feasible := GetFeasibleMoves(from, previous, side, b);
    if feasible.Failure? {
      return Failure(feasible.error);
    }
    r := FilterSafeMoves(from, piece, previous, feasible.value, b);
  }

  /** The `forEach` of `getValidMoves`: simulates each move and pushes those
      after which the own king is not in check. */
  method FilterSafeMoves(from: Square, piece: Piece, previous: Option<Move>, feasibleMoves: seq<MoveWithTake>, b: Grid)
    returns (r: Result<seq<MoveWithTake>>)
    requires ValidBoard(b)
    ensures r == KeepSafe(from, piece, previous, feasibleMoves, b)
  {
    var validMoves: seq<MoveWithTake> := [];
    ghost var verdicts := Verdicts(from, piece, previous, feasibleMoves, b);
    for i := 0 to |feasibleMoves|
      invariant KeptBy(feasibleMoves[..i], verdicts[..i]) == Success(validMoves)
    {
      var move := feasibleMoves[i];
      KeptByStep(feasibleMoves, verdicts, i);
      var boardAfterMove := MutateBoard(Relocation(from, move.to, piece), b);
      if boardAfterMove.Failure? {
        KeptByPrefixFails(feasibleMoves, verdicts, i + 1);
        return Failure(boardAfterMove.error);
      }
      var check := IsCheck(previous, piece.side, boardAfterMove.value);
      if check.Failure? {
        KeptByPrefixFails(feasibleMoves, verdicts, i + 1);
        return Failure(check.error);
      }
      if !check.value {
        validMoves := validMoves + [move];
      }
    }
    assert feasibleMoves[..|feasibleMoves|] == feasibleMoves;
    assert verdicts[..|feasibleMoves|] == verdicts;
    return Success(validMoves);
  }

  /** The valid moves of a piece are exactly its feasible moves after whose
      plain relocation the own king is not in check. */
  lemma ValidMovesMembers(from: Square, previous: Option<Move>, side: Side, b: Grid, m: MoveWithTake)
    requires ValidBoard(b) && ValidMoves(from, previous, side, b).Success?
    requires InBoard(from, b) && CellAt(b, from).Some?
    ensures FeasibleMoves(from, previous, side, b).Success?
    ensures m in ValidMoves(from, previous, side, b).value <==>
            m in FeasibleMoves(from, previous, side, b).value &&
            var after := Mutated(Relocation(from, m.to, CellAt(b, from).value), b);
            after.Success? && IsCheck(previous, side, after.value) == Success(false)
  {
    var feasibleMoves := FeasibleMoves(from, previous, side, b).value;
    KeepSafeMembers(from, CellAt(b, from).value, previous, feasibleMoves, b, m);
  }

  /** A feasible move that is not valid leaves the own king in check once
      simulated. */
  lemma ValidMovesRejects(from: Square, previous: Option<Move>, side: Side, b: Grid, m: MoveWithTake)
    requires ValidBoard(b) && ValidMoves(from, previous, side, b).Success?
    requires InBoard(from, b) && CellAt(b, from).Some?
    requires m in FeasibleMoves(from, previous, side, b).value && m !in ValidMoves(from, previous, side, b).value
    ensures var after := Mutated(Relocation(from, m.to, CellAt(b, from).value), b);
            after.Success? && IsCheck(previous, side, after.value) == Success(true)
  {
    var piece := CellAt(b, from).value;
    var feasibleMoves := FeasibleMoves(from, previous, side, b).value;
    KeepSafeMembers(from, piece, previous, feasibleMoves, b, m);
    KeepSafeSucceeds(from, piece, previous, feasibleMoves, b);
    var i :| 0 <= i < |feasibleMoves| && feasibleMoves[i] == m;
  }

  /** A board write of two in-board squares succeeds and keeps the shape. */
  lemma RelocationSucceeds(from: Square, to: Square, piece: Piece, b: Grid)
    requires ValidBoard(b) && InBoard(from, b) && InBoard(to, b)
    ensures Mutated(Relocation(from, to, piece), b).Success?
  {
    MutatedSpec(Relocation(from, to, piece), b);
  }

  /** When the last move (if any) ends inside the board, `getValidMoves`
      throws only for a square outside the board or a piece of the other
      side. */
  lemma ValidMovesSucceed(from: Square, previous: Option<Move>, side: Side, b: Grid)
    requires ValidBoard(b) && (previous.None? || InBoard(previous.value.to, b))
    ensures ValidMoves(from, previous, side, b).Success? <==>
            InBoard(from, b) && (CellAt(b, from).None? || CellAt(b, from).value.side == side)
  {
    if InBoard(from, b) && CellAt(b, from).Some? && CellAt(b, from).value.side == side {
      var piece := CellAt(b, from).value;
      var feasibleMoves := FeasibleMoves(from, previous, side, b).value;
      FeasibleTargets(from, previous, side, b);
      forall i | 0 <= i < |feasibleMoves|
        ensures LeavesKingSafe(from, piece, previous, feasibleMoves[i], b).Success?
      {
        var m := feasibleMoves[i];
        assert SoundMove(m, from, side, b);
        RelocationSucceeds(from, m.to, piece, b);
      }
      KeepSafeSucceeds(from, piece, previous, feasibleMoves, b);
    }
  }

  /** `isValidMove`: some valid move from the same square reaches the same
      target. */
  function IsValidMove(move: Move, previous: Option<Move>, side: Side, b: Grid): (r: Result<bool>)
    requires ValidBoard(b)
    ensures r.Success? <==> ValidMoves(move.from, previous, side, b).Success?
    ensures r.Success? ==>
              (r.value <==> exists m :: m in ValidMoves(move.from, previous, side, b).value && m.to == move.to)
  {
    match ValidMoves(move.from, previous, side, b)
    case Failure(e) => Failure(e)
    case Success(validMoves) => Success(FirstTo(validMoves, move.to).Some?)
  }

  /** Every valid move is feasible, and can be annotated with its capture. */
  lemma ValidIsFeasible(move: Move, previous: Option<Move>, side: Side, b: Grid)
    requires ValidBoard(b) && IsValidMove(move, previous, side, b) == Success(true)
    ensures IsFeasibleMove(move, previous, side, b) == Success(true)
    ensures AnnotateMoveWithTake(move, previous, side, b).Success?
  {
    var m :| m in ValidMoves(move.from, previous, side, b).value && m.to == move.to;
    KeepSafeMembers(move.from, CellAt(b, move.from).value, previous,
                    FeasibleMoves(move.from, previous, side, b).value, b, m);
  }

  /** The valid moves of each square in turn, concatenated; the first square
      whose filter throws makes the whole call throw. */
  function ValidFrom(squares: seq<Square>, previous: Option<Move>, side: Side, b: Grid)
    : (r: Result<seq<MoveWithTake>>)
    requires ValidBoard(b)
    ensures r.Success? <==> forall i :: 0 <= i < |squares| ==> ValidMoves(squares[i], previous, side, b).Success?
    ensures r.Success? ==>
              forall m :: m in r.value <==>
                exists i :: 0 <= i < |squares| && m in ValidMoves(squares[i], previous, side, b).value
  {
    if |squares| == 0 then Success([])
    else
      match ValidMoves(squares[0], previous, side, b)
      case Failure(e) => Failure(e)
      case Success(first) =>
        var rest := ValidFrom(squares[1..], previous, side, b);
        assert forall i :: 1 <= i < |squares| ==> squares[i] == squares[1..][i - 1];
        match rest
        case Failure(e) => Failure(e)
        case Success(more) =>
          assert forall m :: m in first + more <==> m in first || m in more;
          Success(first + more)
  }

  /** `getAllValidMoves`: the valid moves of every piece of `side`. */
  function AllValidMoves(previous: Option<Move>, side: Side, b: Grid): Result<seq<MoveWithTake>>
    requires ValidBoard(b)
  {
    ValidFrom(FindPieces(b, None, Some(side)), previous, side, b)
  }

  /** The moves `getAllValidMoves` returns are exactly the valid moves of the
      pieces of `side`. */
  lemma AllValidMovesMembers(previous: Option<Move>, side: Side, b: Grid, m: MoveWithTake)
    requires ValidBoard(b) && AllValidMoves(previous, side, b).Success?
    ensures m in AllValidMoves(previous, side, b).value <==>
            exists sq :: InBoard(sq, b) && CellAt(b, sq).Some? && CellAt(b, sq).value.side == side &&
                         ValidMoves(sq, previous, side, b).Success? &&
                         m in ValidMoves(sq, previous, side, b).value
  {
    var squares := FindPieces(b, None, Some(side));
    if sq :| InBoard(sq, b) && CellAt(b, sq).Some? && CellAt(b, sq).value.side == side &&
             ValidMoves(sq, previous, side, b).Success? &&
             m in ValidMoves(sq, previous, side, b).value {
      assert sq in squares;
      var i :| 0 <= i < |squares| && squares[i] == sq;
    }
    if m in AllValidMoves(previous, side, b).value {
      var i :| 0 <= i < |squares| && m in ValidMoves(squares[i], previous, side, b).value;
      assert squares[i] in squares;
    }
  }

  // ---------------------------------------------------------------------------
  // getCheckState
  // ---------------------------------------------------------------------------

  /** `getCheckState`: throws without an own king; checkmate when in check and
      the king itself has no valid move, check when in check otherwise, safe
      when not in check. Only the king's moves are looked at. */
  function GetCheckState(previous: Option<Move>, side: Side, b: Grid): (r: Result<CheckState>)
    requires ValidBoard(b)
    ensures FirstKing(side, b).None? ==> r.Failure?
    ensures r.Success? ==> (r.value == Safe <==> IsCheck(previous, side, b) == Success(false))
    ensures r.Success? ==>
              (r.value == Checkmate <==>
                 IsCheck(previous, side, b) == Success(true) &&
                 ValidMoves(FirstKing(side, b).value, previous, side, b) == Success([]))
  {
    match FirstKing(side, b)
    case None => Failure("Could not find own king!")
    case Some(ownKingSquare) =>
      match ValidMoves(ownKingSquare, previous, side, b)
      case Failure(e) => Failure(e)
      case Success(kingMoves) =>
        match IsCheck(previous, side, b)
        case Failure(e) => Failure(e)
        case Success(hasCheck) =>
          if |kingMoves| == 0 && hasCheck then Success(Checkmate)
          else if hasCheck then Success(Check)
          else Success(Safe)
  }

  /** With a king and a last move that ends inside the board, the check state
      is always defined. */
  lemma CheckStateDefined(previous: Option<Move>, side: Side, b: Grid)
    requires ValidBoard(b) && FirstKing(side, b).Some?
    requires previous.None? || InBoard(previous.value.to, b)
    ensures GetCheckState(previous, side, b).Success?
  {
    ValidMovesSucceed(FirstKing(side, b).value, previous, side, b);
  }

  /** At checkmate the side is in check and every feasible move of its king
      leaves the king in check once simulated. */
  lemma CheckmateMeans(previous: Option<Move>, side: Side, b: Grid)
    requires ValidBoard(b) && GetCheckState(previous, side, b) == Success(Checkmate)
    ensures IsCheck(previous, side, b) == Success(true)
    ensures var king := FirstKing(side, b).value;
            FeasibleMoves(king, previous, side, b).Success? &&
            forall m :: m in FeasibleMoves(king, previous, side, b).value ==>
              var after := Mutated(Relocation(king, m.to, Piece(King, side)), b);
              after.Success? && IsCheck(previous, side, after.value) == Success(true)
  {
    var king := FirstKing(side, b).value;
    forall m | m in FeasibleMoves(king, previous, side, b).value
      ensures var after := Mutated(Relocation(king, m.to, Piece(King, side)), b);
              after.Success? && IsCheck(previous, side, after.value) == Success(true)
    {
      ValidMovesRejects(king, previous, side, b, m);
    }
  }

  // ---------------------------------------------------------------------------
  // canPromoteFromAssumedValidMove and executeMove
  // ---------------------------------------------------------------------------

  /** `canPromoteFromAssumedValidMove`: throws when `from` is outside the board
      or does not hold a piece of `side`. For white the last row is row 0; for
      black the source compares the target row with the last row's array of
      squares rather than its index, which never matches, so a black pawn is
      never eligible. */
  function CanPromote(move: Move, side: Side, b: Grid): (r: Result<bool>)
    requires ValidBoard(b)
    ensures r.Success? <==> InBoard(move.from, b) && CellAt(b, move.from).Some? && CellAt(b, move.from).value.side == side
    ensures r.Success? ==> (r.value ==> CellAt(b, move.from).value.kind == Pawn && move.to.row == 0)
  {
    match AtSquare(move.from, b)
    case Failure(e) => Failure(e)
    case Success(piece) =>
      if piece.None? || piece.value.side != side then Failure("Piece moved does not match moving side.")
      else
        var reachesLastRow := side == White && move.to.row == 0;
        Success(piece.value.kind == Pawn && reachesLastRow)
  }

  /** A white pawn moving onto row 0 is eligible; nothing of black ever is. */
  lemma PromotionEligibility(move: Move, side: Side, b: Grid)
    requires ValidBoard(b) && CanPromote(move, side, b).Success?
    ensures CanPromote(move, side, b).value <==>
            side == White && CellAt(b, move.from).value.kind == Pawn && move.to.row == 0
    ensures side == Black ==> !CanPromote(move, side, b).value
  {
  }

  /** The writes of `executeMove`: `from` emptied, the (possibly promoted)
      piece on the target, and the taken square emptied when it is not the
      target (en passant). */
  function ExecutionWrites(moveWithTake: MoveWithTake, moved: Cell, to: Square): seq<Mutation> {
    var clearTake :=
      if moveWithTake.take.Some? && !SquareEquals(moveWithTake.take.value.square, to)
      then [Mutation(moveWithTake.take.value.square, None)]
      else [];
    [Mutation(moveWithTake.from, None), Mutation(moveWithTake.to, moved)] + clearTake
  }

  /** The cell a square holds after the execution writes, given the cell it
      held before: the square taken en passant ends empty, the target holds
      the moved piece, `from` ends empty, and any other square keeps `prev`. */
  function ExecutionCell(moveWithTake: MoveWithTake, moved: Cell, sq: Square, prev: Cell): Cell {
    if moveWithTake.take.Some? && moveWithTake.take.value.square != moveWithTake.to &&
       sq == moveWithTake.take.value.square then None
    else if sq == moveWithTake.to then moved
    else if sq == moveWithTake.from then None
    else prev
  }

  lemma ExecutionWritesLast(moveWithTake: MoveWithTake, moved: Cell, sq: Square, prev: Cell)
    ensures LastWrite(ExecutionWrites(moveWithTake, moved, moveWithTake.to), sq, prev) ==
            ExecutionCell(moveWithTake, moved, sq, prev)
  {
    var one := [Mutation(moveWithTake.from, None)];
    var two := one + [Mutation(moveWithTake.to, moved)];
    assert one[..0] == [];
    assert LastWrite(one, sq, prev) == if sq == moveWithTake.from then None else prev;
    assert two[..1] == one;
    assert LastWrite(two, sq, prev) == if sq == moveWithTake.to then moved else LastWrite(one, sq, prev);
    if moveWithTake.take.Some? && moveWithTake.take.value.square != moveWithTake.to {
      var three := two + [Mutation(moveWithTake.take.value.square, None)];
      assert three[..2] == two;
      assert ExecutionWrites(moveWithTake, moved, moveWithTake.to) == three;
      assert LastWrite(three, sq, prev) ==
             if sq == moveWithTake.take.value.square then None else LastWrite(two, sq, prev);
    } else {
      assert ExecutionWrites(moveWithTake, moved, moveWithTake.to) == two;
    }
  }

  /** `executeMove`: throws unless the move is valid, or when a promotion is
      due and no promotion type is given; otherwise writes the move on a copy
      of the board. */
  function ExecuteMove(move: Move, previous: Option<Move>, promotePiece: Option<PieceType>, side: Side, b: Grid)
    : (r: Result<MoveResult>)
    requires ValidBoard(b)
    ensures r.Success? ==> IsValidMove(move, previous, side, b) == Success(true)
    ensures r.Success? ==> r.value.promotion == promotePiece
    ensures r.Success? ==> ValidBoard(r.value.board) && |r.value.board| == |b| && |r.value.board[0]| == |b[0]|
  {
    match IsValidMove(move, previous, side, b)
    case Failure(e) => Failure(e)
    case Success(isValid) =>
      if !isValid then Failure("Move is not valid.")
      else
        match AnnotateMoveWithTake(move, previous, side, b)
        case Failure(e) => Failure(e)
        case Success(moveWithTake) => ApplyAnnotatedMove(moveWithTake, move.to, promotePiece, side, b)
  }

  /** The rest of `executeMove` once the move is known valid and annotated:
      the promotion check, then the writes. */
  function ApplyAnnotatedMove(moveWithTake: MoveWithTake, to: Square, promotePiece: Option<PieceType>, side: Side, b: Grid)
    : (r: Result<MoveResult>)
    requires ValidBoard(b)
    ensures r.Success? ==> r.value.promotion == promotePiece && r.value.take == moveWithTake.take
    ensures r.Success? ==> ValidBoard(r.value.board) && |r.value.board| == |b| && |r.value.board[0]| == |b[0]|
  {
    match AtSquare(moveWithTake.from, b)
    case Failure(e) => Failure(e)
    case Success(piece) =>
      match CanPromote(Move(moveWithTake.from, moveWithTake.to), side, b)
      case Failure(e) => Failure(e)
      case Success(canPromote) =>
        if canPromote && promotePiece.None? then Failure("Cannot make a final rank move without promotion.")
        else
          var moved := if canPromote then Some(Piece(promotePiece.value, side)) else piece;
          match Mutated(ExecutionWrites(moveWithTake, moved, to), b)
          case Failure(e) => Failure(e)
          case Success(boardAfterMove) => Success(MoveResult(boardAfterMove, moveWithTake.take, promotePiece))
  }

  /** The piece that lands on the target: the moving piece, or the promotion
      type when the move is eligible. */
  function Landed(move: Move, promotePiece: Option<PieceType>, side: Side, b: Grid): Cell
    requires ValidBoard(b) && InBoard(move.from, b)
  {
    if CanPromote(move, side, b) == Success(true) && promotePiece.Some? then Some(Piece(promotePiece.value, side))
    else CellAt(b, move.from)
  }

  /** The writes of a sound move by a piece of `side`: they succeed unless
      a promotion type is missing; `from` ends empty, the target holds the
      landed piece, a square taken en passant ends empty and nothing else
      changes. */
  lemma ApplyAnnotatedMoveSpec(mwt: MoveWithTake, promotePiece: Option<PieceType>, side: Side, b: Grid)
    requires ValidBoard(b) && InBoard(mwt.from, b) && SoundMove(mwt, mwt.from, side, b)
    requires CellAt(b, mwt.from).Some? && CellAt(b, mwt.from).value.side == side
    ensures var move := Move(mwt.from, mwt.to);
            ApplyAnnotatedMove(mwt, mwt.to, promotePiece, side, b).Success? <==>
            !(CanPromote(move, side, b) == Success(true) && promotePiece.None?)
    ensures var move := Move(mwt.from, mwt.to);
            var r := ApplyAnnotatedMove(mwt, mwt.to, promotePiece, side, b);
            r.Success? ==>
              CellAt(r.value.board, mwt.from) == None &&
              CellAt(r.value.board, mwt.to) == Landed(move, promotePiece, side, b) &&
              (mwt.take.Some? && mwt.take.value.square != mwt.to ==> CellAt(r.value.board, mwt.take.value.square) == None) &&
              forall sq :: InBoard(sq, b) && sq != mwt.from && sq != mwt.to &&
                           (mwt.take.None? || sq != mwt.take.value.square) ==>
                             CellAt(r.value.board, sq) == CellAt(b, sq)
  {
    var move := Move(mwt.from, mwt.to);
    var moved := Landed(move, promotePiece, side, b);
    var writes := ExecutionWrites(mwt, moved, mwt.to);
    assert forall k :: 0 <= k < |writes| ==> InBoard(writes[k].square, b);
    MutatedSpec(writes, b);
    forall sq | InBoard(sq, b) ensures LastWrite(writes, sq, CellAt(b, sq)) == ExecutionCell(mwt, moved, sq, CellAt(b, sq)) {
      ExecutionWritesLast(mwt, moved, sq, CellAt(b, sq));
    }
  }

  /** The annotation of a valid move is a sound feasible move from the same
      square to the same target. */
  lemma ValidAnnotation(move: Move, previous: Option<Move>, side: Side, b: Grid)
    requires ValidBoard(b) && IsValidMove(move, previous, side, b) == Success(true)
    ensures AnnotateMoveWithTake(move, previous, side, b).Success?
    ensures var mwt := AnnotateMoveWithTake(move, previous, side, b).value;
            mwt.from == move.from && mwt.to == move.to &&
            InBoard(move.from, b) && CellAt(b, move.from).Some? && CellAt(b, move.from).value.side == side &&
            SoundMove(mwt, move.from, side, b)
  {
    ValidIsFeasible(move, previous, side, b);
    FeasibleTargets(move.from, previous, side, b);
  }

  /** `executeMove` succeeds exactly for a valid move that is not an eligible
      promotion left without a promotion type. */
  lemma ExecuteMoveSucceeds(move: Move, previous: Option<Move>, promotePiece: Option<PieceType>, side: Side, b: Grid)
    requires ValidBoard(b)
    ensures ExecuteMove(move, previous, promotePiece, side, b).Success? <==>
            IsValidMove(move, previous, side, b) == Success(true) &&
            !(CanPromote(move, side, b) == Success(true) && promotePiece.None?)
  {
    if IsValidMove(move, previous, side, b) == Success(true) {
      ValidAnnotation(move, previous, side, b);
      ApplyAnnotatedMoveSpec(AnnotateMoveWithTake(move, previous, side, b).value, promotePiece, side, b);
    }
  }

  /** After `executeMove`: `from` is empty, the target holds the moved (or
      promoted) piece, a pawn taken en passant is gone from its own square,
      every other square is unchanged, and the result carries the capture of
      the feasible move. */
  lemma ExecuteMoveBoard(move: Move, previous: Option<Move>, promotePiece: Option<PieceType>, side: Side, b: Grid)
    requires ValidBoard(b) && ExecuteMove(move, previous, promotePiece, side, b).Success?
    ensures AnnotateMoveWithTake(move, previous, side, b).Success?
    ensures var r := ExecuteMove(move, previous, promotePiece, side, b).value;
            var take := AnnotateMoveWithTake(move, previous, side, b).value.take;
            InBoard(move.from, b) && InBoard(move.to, b) && move.from != move.to &&
            r.take == take &&
            CellAt(r.board, move.from) == None &&
            CellAt(r.board, move.to) == Landed(move, promotePiece, side, b) &&
            (take.Some? ==> InBoard(take.value.square, b)) &&
            (take.Some? && take.value.square != move.to ==> CellAt(r.board, take.value.square) == None) &&
            forall sq :: InBoard(sq, b) && sq != move.from && sq != move.to &&
                         (take.None? || sq != take.value.square) ==>
                           CellAt(r.board, sq) == CellAt(b, sq)
  {
    ValidAnnotation(move, previous, side, b);
    ApplyAnnotatedMoveSpec(AnnotateMoveWithTake(move, previous, side, b).value, promotePiece, side, b);
  }

  /** A move that neither takes en passant nor promotes writes exactly the
      relocation `getValidMoves` simulated, so the mover's king is not in
      check afterwards. */
  lemma ExecuteMoveKeepsKingSafe(move: Move, previous: Option<Move>, promotePiece: Option<PieceType>, side: Side, b: Grid)
    requires ValidBoard(b) && ExecuteMove(move, previous, promotePiece, side, b).Success?
    requires AnnotateMoveWithTake(move, previous, side, b).Success?
    requires var take := AnnotateMoveWithTake(move, previous, side, b).value.take;
             take.None? || take.value.square == move.to
    requires CanPromote(move, side, b) != Success(true)
    ensures IsCheck(previous, side, ExecuteMove(move, previous, promotePiece, side, b).value.board) == Success(false)
  {
    var mwt := AnnotateMoveWithTake(move, previous, side, b).value;
    var piece := CellAt(b, move.from).value;
    var validMoves := ValidMoves(move.from, previous, side, b).value;
    var m :| m in validMoves && m.to == move.to;
    ValidMovesMembers(move.from, previous, side, b, m);
    assert ExecutionWrites(mwt, Some(piece), move.to) == Relocation(move.from, move.to, piece);
  }
}
