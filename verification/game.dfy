/** The mutable game record of the core package (`packages/core/src/game.ts`):
    whose turn it is, the board, the moves made and the check state of the
    side to move. The move step is a parameter; the check state is the
    engine's `getCheckState` with no previous move. */
module CoreGame {
  import opened Wrappers
  import opened Board
  import opened BoardText
  import opened Moves
  import opened Legality

  /** What a move step gives back: the board after the move and the move to
      record. */
  datatype MoveOutcome = MoveOutcome(board: Grid, move: Move)

  /** The `move(from, to, side, board)` that `submitMove` calls. The module
      it is imported from does not define it, so it is a parameter here. */
  type MoveStep = (Square, Square, Side, Grid) -> Result<MoveOutcome>

  /** The `executeMove(from, to, board)` that `executeGameMove` calls, whose
      arguments do not match the engine's `executeMove`; a parameter too. */
  type ExecuteStep = (Square, Square, Grid) -> Result<MoveOutcome>

  class Game {
    var id: string
    var currentSide: Side
    var board: Grid
    var history: seq<Move>
    var checkState: CheckState

    /** The board stays rectangular with at least one row and column. */
    ghost predicate Valid()
      reads this
    {
      ValidBoard(board)
    }

    /** A game record with the given fields. */
    constructor (id: string, currentSide: Side, board: Grid, history: seq<Move>, checkState: CheckState)
      requires ValidBoard(board)
      ensures Valid()
      ensures this.id == id && this.currentSide == currentSide && this.board == board
      ensures this.history == history && this.checkState == checkState
    {
      this.id := id;
      this.currentSide := currentSide;
      this.board := board;
      this.history := history;
      this.checkState := checkState;
    }

    /** `submitMove`: makes the move for the side to move, hands the turn to
        the enemy, records the move and recomputes the check state of the new
        side to move. A failing step writes nothing; a failing check state
        (the new side has no king) leaves the other writes in place. */
    method SubmitMove(from: Square, to: Square, move: MoveStep) returns (r: Result<()>)
      requires Valid()
      requires move(from, to, currentSide, board).Success? ==> ValidBoard(move(from, to, currentSide, board).value.board)
      modifies this
      ensures Valid()
      ensures id == old(id)
      ensures var outcome := move(from, to, old(currentSide), old(board));
              if outcome.Failure? then
                r == Failure(outcome.error) && currentSide == old(currentSide) && board == old(board) &&
                history == old(history) && checkState == old(checkState)
              else
                currentSide == Enemy(old(currentSide)) && board == outcome.value.board &&
                history == old(history) + [outcome.value.move] &&
                var state := GetCheckState(None, currentSide, board);
                (state.Success? ==> r.Success? && checkState == state.value) &&
                (state.Failure? ==> r == Failure(state.error) && checkState == old(checkState))
    {
      var moveOutcome := move(from, to, currentSide, board);
      if moveOutcome.Failure? {
        return Failure(moveOutcome.error);
      }
      board := moveOutcome.value.board;
      currentSide := Enemy(currentSide);
      history := history + [moveOutcome.value.move];
      var state := GetCheckState(None, currentSide, board);
      if state.Failure? {
        return Failure(state.error);
      }
      checkState := state.value;
      return Success(());
    }

    /** `executeGameMove`: as `submitMove`, but the side to move stays the
        same. */
    method ExecuteGameMove(from: Square, to: Square, executeMove: ExecuteStep) returns (r: Result<()>)
      requires Valid()
      requires executeMove(from, to, board).Success? ==> ValidBoard(executeMove(from, to, board).value.board)
      modifies this
      ensures Valid()
      ensures id == old(id) && currentSide == old(currentSide)
      ensures var outcome := executeMove(from, to, old(board));
              if outcome.Failure? then
                r == Failure(outcome.error) && board == old(board) && history == old(history) &&
                checkState == old(checkState)
              else
                board == outcome.value.board && history == old(history) + [outcome.value.move] &&
                var state := GetCheckState(None, currentSide, board);
                (state.Success? ==> r.Success? && checkState == state.value) &&
                (state.Failure? ==> r == Failure(state.error) && checkState == old(checkState))
    {
      var moveOutcome := executeMove(from, to, board);
      if moveOutcome.Failure? {
        return Failure(moveOutcome.error);
      }
      board := moveOutcome.value.board;
      history := history + [moveOutcome.value.move];
      var state := GetCheckState(None, currentSide, board);
      if state.Failure? {
        return Failure(state.error);
      }
      checkState := state.value;
      return Success(());
    }
  }

  /** `createGame`: white to move on the standard position, no moves and no
      check. Reading the standard board never fails. */
  method CreateGame(id: string) returns (game: Game)
    ensures fresh(game) && game.Valid() && game.id == id
    ensures game.currentSide == White && game.board == StandardPosition()
    ensures game.history == [] && game.checkState == Safe
  {
    CreateStandardBoardIsStandard();
    var standard := CreateStandardBoard();
    game := new Game(id, White, standard.value, [], Safe);
  }
}
