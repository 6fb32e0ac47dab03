/** The mutable game record of the server package (`packages/server/src/game.ts`):
    the side to move, the board, the moves made, the check state and whether
    the board shows the latest position or one from the history.

    The `move` it calls is a parameter: the call sites pass
    `(from, to, side, board)` to the server generator's `move`, which is
    declared `(board, side, from, to)`; `ServerMoves.MakeMove` with its
    arguments in the declared order is the step meant. The `getCheckState` it
    imports is not defined by the server's move module; the engine's check
    state with no previous move stands in for it. */
module ServerGame {
  import opened Wrappers
  import opened Board
  import opened BoardText
  import opened Legality
  import opened ServerMoves

  datatype ViewState = Viewing | Current

  /** The `move(from, to, side, board)` the game calls. */
  type MoveStep = (Square, Square, Side, Grid) -> Result<MoveOutcome>

  /** A move step that turns a rectangular board into a rectangular board, as
      `MakeMove` does. */
  ghost predicate KeepsBoards(move: MoveStep) {
    forall from, to, side, b :: ValidBoard(b) && move(from, to, side, b).Success? ==>
                                 ValidBoard(move(from, to, side, b).value.board)
  }

  /** A board and the side to move on it. */
  datatype Position = Position(board: Grid, side: Side)

  /** The position after replaying the first `k` moves of `history` from
      `start`, white moving first; the first move that fails stops the replay. */
  function Replay(history: seq<ServerMove>, k: nat, move: MoveStep, start: Grid): (r: Result<Position>)
    requires KeepsBoards(move) && ValidBoard(start) && k <= |history|
    ensures r.Success? ==> ValidBoard(r.value.board)
    decreases k
  {
    if k == 0 then Success(Position(start, White))
    else
      match Replay(history, k - 1, move, start)
      case Failure(e) => Failure(e)
      case Success(position) =>
        match move(history[k - 1].from, history[k - 1].to, position.side, position.board)
        case Failure(e) => Failure(e)
        case Success(outcome) => Success(Position(outcome.board, Enemy(position.side)))
  }

  /** Sides alternate from white: after an even number of moves white is to
      move, after an odd number black. */
  lemma {:induction false} ReplaySide(history: seq<ServerMove>, k: nat, move: MoveStep, start: Grid)
    requires KeepsBoards(move) && ValidBoard(start) && k <= |history| && Replay(history, k, move, start).Success?
    ensures Replay(history, k, move, start).value.side == if k % 2 == 0 then White else Black
    decreases k
  {
    if k > 0 {
      ReplaySide(history, k - 1, move, start);
    }
  }

  lemma NextParity(n: nat)
    ensures (n + 1) % 2 == 0 <==> n % 2 == 1
  {
  }

  /** A replay that gets through `k` moves got through each shorter prefix. */
  lemma {:induction false} ReplayPrefix(history: seq<ServerMove>, j: nat, k: nat, move: MoveStep, start: Grid)
    requires KeepsBoards(move) && ValidBoard(start) && j <= k <= |history| && Replay(history, k, move, start).Success?
    ensures Replay(history, j, move, start).Success?
    decreases k
  {
    if j < k {
      ReplayPrefix(history, j, k - 1, move, start);
    }
  }

  class Game {
    var currentSide: Side
    var board: Grid
    var history: seq<ServerMove>
    var checkState: CheckState
    var viewState: ViewState

    /** The board stays rectangular with at least one row and column. */
    ghost predicate Valid()
      reads this
    {
      ValidBoard(board)
    }

    /** A game record with the given fields. */
    constructor (currentSide: Side, board: Grid, history: seq<ServerMove>, checkState: CheckState, viewState: ViewState)
      requires ValidBoard(board)
      ensures Valid()
      ensures this.currentSide == currentSide && this.board == board && this.history == history
      ensures this.checkState == checkState && this.viewState == viewState
    {
      this.currentSide := currentSide;
      this.board := board;
      this.history := history;
      this.checkState := checkState;
      this.viewState := viewState;
    }

    /** `submitMove`: refused while the history is being reviewed; otherwise
        makes the move for the side to move, hands the turn to the enemy,
        records the move and recomputes the check state of the new side to
        move. A failing move writes nothing; a failing check state leaves the
        other writes in place. */
    method SubmitMove(from: Square, to: Square, move: MoveStep) returns (r: Result<()>)
      requires Valid() && KeepsBoards(move)
      modifies this
      ensures Valid()
      ensures viewState == old(viewState)
      ensures old(viewState) != Current ==>
                r == Failure("Cannot make a move in a game when reviewing history") &&
                currentSide == old(currentSide) && board == old(board) && history == old(history) &&
                checkState == old(checkState)
      ensures old(viewState) == Current ==>
                var outcome := move(from, to, old(currentSide), old(board));
                if outcome.Failure? then
                  r == Failure(outcome.error) && currentSide == old(currentSide) && board == old(board) &&
                  history == old(history) && checkState == old(checkState)
                else
                  currentSide == Enemy(old(currentSide)) && board == outcome.value.board &&
                  history == old(history) + [outcome.value.move] &&
                  var state := GetCheckState(None, currentSide, board);
                  (state.Success? ==> r.Success? && checkState == state.value) &&
                  (state.Failure? ==> r == Failure(state.error) && checkState == old(checkState))
    {
      if viewState != Current {
        return Failure("Cannot make a move in a game when reviewing history");
      }
      var moveOutcome := move(from, to, currentSide, board);
      if moveOutcome.Failure? {
        return Failure(moveOutcome.error);
      }
      board := moveOutcome.value.board;
      currentSide := Enemy(currentSide);
      history := history + [moveOutcome.value.move];
      var state := GetCheckState(None, currentSide, board);
      if state.Failure? {
        return Failure(state.error);
      }
      checkState := state.value;
      return Success(());
    }

    /** `gotoMove`: shows the position after move `moveNumber` (counted from
        zero) by replaying the history from the standard position. The history
        is kept; the view is current exactly when the last move is shown, and
        white is to move exactly when `moveNumber` is odd. Nothing is written
        when the number is out of range or the replay fails; a failing check
        state leaves the board and side written and the check and view states
        as they were. */
    method GotoMove(moveNumber: int, move: MoveStep) returns (r: Result<()>)
      requires Valid() && KeepsBoards(move)
      modifies this
      ensures Valid()
      ensures history == old(history)
      ensures !(0 <= moveNumber < |history|) ==>
                r == Failure("Move number is out of game range.") &&
                currentSide == old(currentSide) && board == old(board) &&
                checkState == old(checkState) && viewState == old(viewState)
      ensures 0 <= moveNumber < |history| ==>
                match Replay(history, moveNumber + 1, move, StandardPosition())
                case Failure(e) =>
                  r == Failure(e) && currentSide == old(currentSide) && board == old(board) &&
                  checkState == old(checkState) && viewState == old(viewState)
                case Success(position) =>
                  board == position.board && currentSide == position.side &&
                  (currentSide == White <==> moveNumber % 2 == 1) &&
                  var state := GetCheckState(None, currentSide, board);
                  (state.Success? ==>
                     r.Success? && checkState == state.value &&
                     viewState == (if moveNumber == |history| - 1 then Current else Viewing)) &&
                  (state.Failure? ==>
                     r == Failure(state.error) && checkState == old(checkState) && viewState == old(viewState))
    {
      if moveNumber < 0 || moveNumber >= |history| {
        return Failure("Move number is out of game range.");
      }
      CreateStandardBoardIsStandard();
      var standard := CreateStandardBoard();
      var replayed := ReplayHistory(history, moveNumber + 1, move, standard.value);
      if replayed.Failure? {
        return Failure(replayed.error);
      }
      ReplaySide(history, moveNumber + 1, move, standard.value);
      var side := replayed.value.side;
      assert side == (if (moveNumber + 1) % 2 == 0 then White else Black);
      NextParity(moveNumber);
      r := Show(replayed.value, if moveNumber == |history| - 1 then Current else Viewing);
    }

    /** The writes that end `gotoMove`: the replayed board and side, then the
        check state of that side, then the view state. */
    method Show(position: Position, view: ViewState) returns (r: Result<()>)
      requires ValidBoard(position.board)
      modifies this
      ensures Valid()
      ensures history == old(history) && board == position.board && currentSide == position.side
      ensures var state := GetCheckState(None, position.side, position.board);
              (state.Success? ==> r.Success? && checkState == state.value && viewState == view) &&
              (state.Failure? ==> r == Failure(state.error) && checkState == old(checkState) && viewState == old(viewState))
    {
      board := position.board;
      currentSide := position.side;
      var state := GetCheckState(None, currentSide, board);
      if state.Failure? {
        return Failure(state.error);
      }
      checkState := state.value;
      viewState := view;
      return Success(());
    }
  }

  /** The loop of `gotoMove`: replays `count` moves of `history` from `start`,
      each by the side to move, which then passes to the enemy. */
  method ReplayHistory(history: seq<ServerMove>, count: nat, move: MoveStep, start: Grid) returns (r: Result<Position>)
    requires KeepsBoards(move) && ValidBoard(start) && count <= |history|
    ensures r == Replay(history, count, move, start)
  {
    var board := start;
    var moveSide := White;
    for i := 0 to count
      invariant Replay(history, i, move, start) == Success(Position(board, moveSide))
    {
      var historyMove := history[i];
      var moveResult := move(historyMove.from, historyMove.to, moveSide, board);
      if moveResult.Failure? {
        ReplayFailureSticks(history, i + 1, count, move, start);
        return Failure(moveResult.error);
      }
      board := moveResult.value.board;
      moveSide := Enemy(moveSide);
    }
    return Success(Position(board, moveSide));
  }

  /** Once a prefix of the replay fails, the whole replay fails the same way. */
  lemma {:induction false} ReplayFailureSticks(history: seq<ServerMove>, j: nat, k: nat, move: MoveStep, start: Grid)
    requires KeepsBoards(move) && ValidBoard(start) && j <= k <= |history| && Replay(history, j, move, start).Failure?
    ensures Replay(history, k, move, start) == Replay(history, j, move, start)
    decreases k
  {
    if j < k {
      ReplayFailureSticks(history, j, k - 1, move, start);
    }
  }

  /** `createGame`: white to move on the standard position, no moves, no
      check, showing the latest position. Reading the standard board never
      fails. */
  method CreateGame() returns (game: Game)
    ensures fresh(game) && game.Valid()
    ensures game.currentSide == White && game.board == StandardPosition()
    ensures game.history == [] && game.checkState == Safe && game.viewState == Current
  {
    CreateStandardBoardIsStandard();
    var standard := CreateStandardBoard();
    game := new Game(White, standard.value, [], Safe, Current);
  }
}
