/** The move generator of the core engine (`packages/core/src/moves.ts`, first
    half): the moves each piece could make by its own movement rules, before any
    check is considered. */
module Moves {
  import opened Wrappers
  import opened Board

  datatype Move = Move(from: Square, to: Square)

  /** A captured piece and the square it is taken from. */
  datatype Take = Take(piece: Piece, square: Square)

  /** A move together with the capture it makes, if any. */
  datatype MoveWithTake = MoveWithTake(from: Square, to: Square, take: Option<Take>)

  /** A step between squares, as a row and a column offset. */
  type Direction = Square

  const BishopDirs: seq<Direction> := [Sq(-1, -1), Sq(-1, 1), Sq(1, -1), Sq(1, 1)]
  const RookDirs: seq<Direction> := [Sq(-1, 0), Sq(0, 1), Sq(0, -1), Sq(1, 0)]
  /** The eight L-shaped offsets; as written they are walked like a rook's or a
      bishop's lines, not jumped once. */
  const KnightDirs: seq<Direction> :=
    [Sq(-1, 2), Sq(-1, -2), Sq(1, -2), Sq(1, 2), Sq(-2, -1), Sq(-2, 1), Sq(2, 1), Sq(2, -1)]
  const AllDirs: seq<Direction> :=
    [Sq(-1, -1), Sq(-1, 1), Sq(1, -1), Sq(1, 1), Sq(-1, 0), Sq(0, 1), Sq(0, -1), Sq(1, 0)]

  predicate NonZeroDirs(dirs: seq<Direction>) {
    forall i :: 0 <= i < |dirs| ==> dirs[i] != Sq(0, 0)
  }

  /** A target the sliding walk and the king accept: an in-board square that is
      empty (and nothing is taken) or holds an enemy piece (taken on that square). */
  ghost predicate EmptyOrCapture(m: MoveWithTake, side: Side, b: Grid)
    requires ValidBoard(b)
  {
    InBoard(m.to, b) &&
    match CellAt(b, m.to)
    case None => m.take == None
    case Some(p) => p.side == Enemy(side) && m.take == Some(Take(p, m.to))
  }

  // ---------------------------------------------------------------------------
  // getTraversalUntilBlockOrEnemy
  // ---------------------------------------------------------------------------

  /** How many more steps along `d` can stay inside the board. */
  function RayBound(cur: Square, d: Direction, b: Grid): nat
    requires |b| > 0
  {
    if d.row > 0 then (if cur.row < |b| then |b| - cur.row else 0)
    else if d.row < 0 then (if cur.row >= 0 then cur.row + 1 else 0)
    else if d.col > 0 then (if cur.col < |b[0]| then |b[0]| - cur.col else 0)
    else if cur.col >= 0 then cur.col + 1 else 0
  }

  /** The walk of one direction from `cur` on: every empty square, then the
      first occupied square if it holds an enemy piece. */
  function Ray(from: Square, cur: Square, side: Side, d: Direction, b: Grid): seq<MoveWithTake>
    requires ValidBoard(b) && d != Sq(0, 0)
    decreases RayBound(cur, d, b)
  {
    if !InBoard(cur, b) then []
    else
      match CellAt(b, cur)
      case None => [MoveWithTake(from, cur, None)] + Ray(from, Shift(cur, d), side, d, b)
      case Some(p) =>
        if p.side == Enemy(side) then [MoveWithTake(from, cur, Some(Take(p, cur)))] else []
  }

  /** `getTraversalUntilBlockOrEnemy` as a value: the walks of the directions,
      one after the other. */
  function Traversal(from: Square, side: Side, dirs: seq<Direction>, b: Grid): seq<MoveWithTake>
    requires ValidBoard(b) && NonZeroDirs(dirs)
  {
    TraversalAt(from, side, dirs, 0, b)
  }

  /** The walks of the directions from the `i`th on. */
  function TraversalAt(from: Square, side: Side, dirs: seq<Direction>, i: nat, b: Grid): seq<MoveWithTake>
    requires ValidBoard(b) && NonZeroDirs(dirs) && i <= |dirs|
    decreases |dirs| - i
  {
    if i == |dirs| then []
    else Ray(from, Shift(from, dirs[i]), side, dirs[i], b) + TraversalAt(from, side, dirs, i + 1, b)
  }

  /** `getTraversalUntilBlockOrEnemy`: for each direction, step while the square
      is in the board and empty, then add the square that stopped the walk if
      it holds an enemy piece. */
  method GetTraversalUntilBlockOrEnemy(from: Square, side: Side, dirs: seq<Direction>, b: Grid)
    returns (traversal: seq<MoveWithTake>)
    requires ValidBoard(b) && NonZeroDirs(dirs)
    ensures traversal == Traversal(from, side, dirs, b)
  {
    traversal := [];
    for i := 0 to |dirs|
      invariant Traversal(from, side, dirs, b) == traversal + TraversalAt(from, side, dirs, i, b)
    {
      var ray := WalkDirection(from, side, dirs[i], b);
      var rest := TraversalAt(from, side, dirs, i + 1, b);
      assert traversal + (ray + rest) == (traversal + ray) + rest;
      traversal := traversal + ray;
    }
  }

  /** The body of the walk's loop for one direction. */
  method WalkDirection(from: Square, side: Side, dir: Direction, b: Grid) returns (ray: seq<MoveWithTake>)
    requires ValidBoard(b) && dir != Sq(0, 0)
    ensures ray == Ray(from, Shift(from, dir), side, dir, b)
  {
    ray := [];
    var current := Shift(from, dir);
    while InBoard(current, b) && CellAt(b, current).None?
      invariant Ray(from, Shift(from, dir), side, dir, b) == ray + Ray(from, current, side, dir, b)
      decreases RayBound(current, dir, b)
    {
      var next := MoveWithTake(from, current, None);
      assert ray + Ray(from, current, side, dir, b) == (ray + [next]) + Ray(from, Shift(current, dir), side, dir, b);
      ray := ray + [next];
      current := Shift(current, dir);
    }
    var finalSquareInBoard := InBoard(current, b);
    if finalSquareInBoard && CellAt(b, current).Some? && CellAt(b, current).value.side == Enemy(side) {
      ray := ray + [MoveWithTake(from, current, Some(Take(CellAt(b, current).value, current)))];
    }
  }

  /** The square `k` steps along `d` from `sq`. */
  function Step(sq: Square, d: Direction, k: nat): Square {
    Sq(sq.row + k * d.row, sq.col + k * d.col)
  }

  /** The squares `n` to `k - 1` steps along `d` are in the board and empty. */
  ghost predicate ClearBetween(from: Square, d: Direction, n: nat, k: nat, b: Grid)
    requires ValidBoard(b)
  {
    forall j :: n <= j < k ==> InBoard(Step(from, d, j), b) && CellAt(b, Step(from, d, j)).None?
  }

  lemma RayMembers(from: Square, side: Side, d: Direction, b: Grid, n: nat, m: MoveWithTake)
    requires ValidBoard(b) && d != Sq(0, 0)
    ensures m in Ray(from, Step(from, d, n), side, d, b) <==>
            m.from == from && EmptyOrCapture(m, side, b) &&
            exists k: nat :: n <= k && m.to == Step(from, d, k) && ClearBetween(from, d, n, k, b)
  {
    if m in Ray(from, Step(from, d, n), side, d, b) {
      RayMembersReached(from, side, d, b, n, m);
    }
    if m.from == from && EmptyOrCapture(m, side, b) {
      if k: nat :| n <= k && m.to == Step(from, d, k) && ClearBetween(from, d, n, k, b) {
        RayMembersEmitted(from, side, d, b, n, k, m);
      }
    }
  }

  /** Every move of the walk is reached over empty squares. */
  lemma {:induction false} RayMembersReached(from: Square, side: Side, d: Direction, b: Grid, n: nat, m: MoveWithTake)
    requires ValidBoard(b) && d != Sq(0, 0)
    requires m in Ray(from, Step(from, d, n), side, d, b)
    ensures m.from == from && EmptyOrCapture(m, side, b)
    ensures exists k: nat :: n <= k && m.to == Step(from, d, k) && ClearBetween(from, d, n, k, b)
    decreases RayBound(Step(from, d, n), d, b)
  {
    var cur := Step(from, d, n);
    assert InBoard(cur, b);
    var first := Ray(from, cur, side, d, b)[0];
    if m == first {
      assert ClearBetween(from, d, n, n, b);
    } else {
      assert CellAt(b, cur).None?;
      var next := Shift(cur, d);
      assert next == Step(from, d, n + 1);
      assert m in Ray(from, next, side, d, b);
      RayMembersReached(from, side, d, b, n + 1, m);
      var k: nat :| n + 1 <= k && m.to == Step(from, d, k) && ClearBetween(from, d, n + 1, k, b);
      assert ClearBetween(from, d, n, k, b);
    }
  }

  /** Every empty or enemy-held square reached over empty squares is a move of
      the walk. */
  lemma {:induction false} RayMembersEmitted(from: Square, side: Side, d: Direction, b: Grid, n: nat, k: nat,
                                             m: MoveWithTake)
    requires ValidBoard(b) && d != Sq(0, 0)
    requires m.from == from && EmptyOrCapture(m, side, b)
    requires n <= k && m.to == Step(from, d, k) && ClearBetween(from, d, n, k, b)
    ensures m in Ray(from, Step(from, d, n), side, d, b)
    decreases k - n
  {
    var cur := Step(from, d, n);
    if k > n {
      assert InBoard(cur, b) && CellAt(b, cur).None?;
      assert Shift(cur, d) == Step(from, d, n + 1);
      RayMembersEmitted(from, side, d, b, n + 1, k, m);
    }
  }

  /** The sliding walk emits exactly the empty or enemy-held squares some number
      of steps along one of its directions with only empty squares before them;
      an enemy piece is taken on the square moved to. */
  lemma TraversalMembers(from: Square, side: Side, dirs: seq<Direction>, b: Grid, m: MoveWithTake)
    requires ValidBoard(b) && NonZeroDirs(dirs)
    ensures m in Traversal(from, side, dirs, b) <==>
            m.from == from && EmptyOrCapture(m, side, b) &&
            exists i, k: nat :: 0 <= i < |dirs| && 1 <= k && m.to == Step(from, dirs[i], k) &&
                                ClearBetween(from, dirs[i], 1, k, b)
  {
    TraversalAtMembers(from, side, dirs, 0, b, m);
  }

  lemma {:induction false} TraversalAtMembers(from: Square, side: Side, dirs: seq<Direction>, n: nat, b: Grid,
                                              m: MoveWithTake)
    requires ValidBoard(b) && NonZeroDirs(dirs) && n <= |dirs|
    ensures m in TraversalAt(from, side, dirs, n, b) <==>
            m.from == from && EmptyOrCapture(m, side, b) &&
            exists i, k: nat :: n <= i < |dirs| && 1 <= k && m.to == Step(from, dirs[i], k) &&
                                ClearBetween(from, dirs[i], 1, k, b)
    decreases |dirs| - n
  {
    if n < |dirs| {
      assert Shift(from, dirs[n]) == Step(from, dirs[n], 1);
      RayMembers(from, side, dirs[n], b, 1, m);
      TraversalAtMembers(from, side, dirs, n + 1, b, m);
    }
  }

  // ---------------------------------------------------------------------------
  // Per-piece moves
  // ---------------------------------------------------------------------------

  /** The checks each per-piece generator starts with: a piece at `from`, of
      the expected type, belonging to the moving side. */
  function PieceToMove(from: Square, side: Side, kind: PieceType, b: Grid, notKind: string): (r: Result<Piece>)
    requires ValidBoard(b)
    ensures r.Success? <==> InBoard(from, b) && CellAt(b, from) == Some(Piece(kind, side))
    ensures r.Success? ==> r.value == Piece(kind, side)
  {
    match AtSquare(from, b)
    case Failure(e) => Failure(e)
    case Success(None) => Failure("Piece not available to move!")
    case Success(Some(piece)) =>
      if piece.kind != kind then Failure(notKind)
      else if piece.side != side then Failure("Piece moved does not match moving side.")
      else Success(piece)
  }

  /** The moves of a piece that slides along `dirs`. */
  function Slides(from: Square, side: Side, kind: PieceType, dirs: seq<Direction>, b: Grid, notKind: string)
    : (r: Result<seq<MoveWithTake>>)
    requires ValidBoard(b) && NonZeroDirs(dirs)
    ensures r.Success? <==> InBoard(from, b) && CellAt(b, from) == Some(Piece(kind, side))
    ensures r.Success? ==> r.value == Traversal(from, side, dirs, b)
  {
    match PieceToMove(from, side, kind, b, notKind)
    case Failure(e) => Failure(e)
    case Success(piece) => Success(Traversal(from, piece.side, dirs, b))
  }

  function FeasibleBishopMoves(from: Square, side: Side, b: Grid): (r: Result<seq<MoveWithTake>>)
    requires ValidBoard(b)
    ensures r.Success? <==> InBoard(from, b) && CellAt(b, from) == Some(Piece(Bishop, side))
    ensures r.Success? ==> r.value == Traversal(from, side, BishopDirs, b)
  {
    Slides(from, side, Bishop, BishopDirs, b, "Piece is not a bishop to move!")
  }

  function FeasibleRookMoves(from: Square, side: Side, b: Grid): (r: Result<seq<MoveWithTake>>)
    requires ValidBoard(b)
    ensures r.Success? <==> InBoard(from, b) && CellAt(b, from) == Some(Piece(Rook, side))
    ensures r.Success? ==> r.value == Traversal(from, side, RookDirs, b)
  {
    Slides(from, side, Rook, RookDirs, b, "Piece is not a rook to move!")
  }

  function FeasibleKnightMoves(from: Square, side: Side, b: Grid): (r: Result<seq<MoveWithTake>>)
    requires ValidBoard(b)
    ensures r.Success? <==> InBoard(from, b) && CellAt(b, from) == Some(Piece(Knight, side))
    ensures r.Success? ==> r.value == Traversal(from, side, KnightDirs, b)
  {
    Slides(from, side, Knight, KnightDirs, b, "Piece is not a knight to move!")
  }

  function FeasibleQueenMoves(from: Square, side: Side, b: Grid): (r: Result<seq<MoveWithTake>>)
    requires ValidBoard(b)
    ensures r.Success? <==> InBoard(from, b) && CellAt(b, from) == Some(Piece(Queen, side))
    ensures r.Success? ==> r.value == Traversal(from, side, AllDirs, b)
  {
    Slides(from, side, Queen, AllDirs, b, "Piece is not a knight to move!")
  }

  // --- pawn ------------------------------------------------------------------

  /** The row direction a pawn of `side` moves in: black down the rows, white up. */
  function Forward(side: Side): int {
    if side == Black then 1 else -1
  }

  function StartRow(side: Side, b: Grid): int {
    if side == Black then 1 else |b| - 2
  }

  function EnemyStartRow(side: Side, b: Grid): int {
    if side == Black then |b| - 2 else 1
  }

  function EnemyJumpRow(side: Side, b: Grid): int {
    if side == Black then |b| - 4 else 3
  }

  /** The one-step and two-step advances of a pawn: each onto an empty in-board
      square, the jump only from the start row. The square jumped over is not
      looked at. */
  function PawnAdvances(from: Square, side: Side, b: Grid): (r: seq<MoveWithTake>)
    requires ValidBoard(b)
    ensures var one := Shift(from, Sq(Forward(side), 0));
            MoveWithTake(from, one, None) in r <==> InBoard(one, b) && CellAt(b, one).None?
    ensures var two := Shift(from, Sq(2 * Forward(side), 0));
            MoveWithTake(from, two, None) in r <==>
              from.row == StartRow(side, b) && InBoard(two, b) && CellAt(b, two).None?
    ensures forall m :: m in r ==>
              m.from == from && m.take == None && EmptyOrCapture(m, side, b) &&
              (m.to == Shift(from, Sq(Forward(side), 0)) || m.to == Shift(from, Sq(2 * Forward(side), 0)))
  {
    var moveSquare := Shift(from, Sq(Forward(side), 0));
    var forward := if InBoard(moveSquare, b) && CellAt(b, moveSquare).None?
                   then [MoveWithTake(from, moveSquare, None)] else [];
    var jumpSquare := Shift(from, Sq(2 * Forward(side), 0));
    var jump := if from.row == StartRow(side, b) && InBoard(jumpSquare, b) && CellAt(b, jumpSquare).None?
                then [MoveWithTake(from, jumpSquare, None)] else [];
    forward + jump
  }

  /** The conditions under which the last move allows an en-passant capture:
      it ended on an enemy pawn that jumped from its start row and stands right
      beside `from`. */
  ghost predicate EnPassantAllowed(from: Square, prev: Move, side: Side, b: Grid)
    requires ValidBoard(b)
  {
    InBoard(prev.to, b) && CellAt(b, prev.to) == Some(Piece(Pawn, Enemy(side))) &&
    prev.from.row == EnemyStartRow(side, b) && prev.to.row == EnemyJumpRow(side, b) &&
    (prev.to == Shift(from, Sq(0, -1)) || prev.to == Shift(from, Sq(0, 1)))
  }

  /** The en-passant part of the pawn generator. Reading the last move's target
      square throws when it lies outside the board. */
  function EnPassant(from: Square, previous: Option<Move>, side: Side, b: Grid): (r: Result<seq<MoveWithTake>>)
    requires ValidBoard(b)
    ensures r.Failure? <==> previous.Some? && !InBoard(previous.value.to, b)
    ensures r.Success? && previous.Some? && EnPassantAllowed(from, previous.value, side, b) ==>
              r.value == [MoveWithTake(from, Sq(from.row + Forward(side), previous.value.to.col),
                                       Some(Take(Piece(Pawn, Enemy(side)), previous.value.to)))]
    ensures r.Success? && !(previous.Some? && EnPassantAllowed(from, previous.value, side, b)) ==>
              r.value == []
  {
    match previous
    case None => Success([])
    case Some(prev) =>
      match AtSquare(prev.to, b)
      case Failure(e) => Failure(e)
      case Success(target) =>
        var enemyPawnMovedLast := target.Some? && target.value.kind == Pawn && target.value.side == Enemy(side);
        var enemyPawnJumped := prev.from.row == EnemyStartRow(side, b) && prev.to.row == EnemyJumpRow(side, b);
        var diffToEnemyPawn := SquareDiff(from, prev.to);
        var nextToEnemyPawn := SquareEquals(diffToEnemyPawn, Sq(0, -1)) || SquareEquals(diffToEnemyPawn, Sq(0, 1));
        if enemyPawnMovedLast && enemyPawnJumped && nextToEnemyPawn then
          var dir := Shift(diffToEnemyPawn, Sq(Forward(side), 0));
          Success([MoveWithTake(from, Shift(from, dir), Some(Take(target.value, prev.to)))])
        else Success([])
  }

  /** The two diagonal-forward squares a pawn of `side` captures on. */
  function TakeDirs(side: Side): seq<Direction> {
    if side == Black then [Sq(1, -1), Sq(1, 1)] else [Sq(-1, -1), Sq(-1, 1)]
  }

  /** A capture onto `from` shifted by `d`, when an enemy piece stands there. */
  function CaptureAt(from: Square, d: Direction, side: Side, b: Grid): (r: seq<MoveWithTake>)
    requires ValidBoard(b)
    ensures |r| <= 1
    ensures forall m :: m in r ==> m.from == from && m.to == Shift(from, d) && m.take.Some? && EmptyOrCapture(m, side, b)
    ensures var sq := Shift(from, d);
            InBoard(sq, b) && CellAt(b, sq).Some? && CellAt(b, sq).value.side == Enemy(side) ==> |r| == 1
  {
    var takeSquare := Shift(from, d);
    if InBoard(takeSquare, b) && CellAt(b, takeSquare).Some? && CellAt(b, takeSquare).value.side == Enemy(side)
    then [MoveWithTake(from, takeSquare, Some(Take(CellAt(b, takeSquare).value, takeSquare)))]
    else []
  }

  /** The captures along each of `dirs`, in order. */
  function Captures(from: Square, side: Side, dirs: seq<Direction>, b: Grid): (r: seq<MoveWithTake>)
    requires ValidBoard(b)
    ensures forall m :: m in r ==>
              m.from == from && m.take.Some? && EmptyOrCapture(m, side, b) &&
              exists i :: 0 <= i < |dirs| && m.to == Shift(from, dirs[i])
    decreases |dirs|
  {
    if |dirs| == 0 then []
    else
      var front := dirs[..|dirs| - 1];
      var r := Captures(from, side, front, b) + CaptureAt(from, dirs[|dirs| - 1], side, b);
      assert forall i :: 0 <= i < |front| ==> front[i] == dirs[i];
      r
  }

  /** `getFeasiblePawnMoves` as a value: the advances, then en passant, then the
      diagonal captures. */
  function FeasiblePawnMoves(from: Square, previous: Option<Move>, side: Side, b: Grid)
    : (r: Result<seq<MoveWithTake>>)
    requires ValidBoard(b)
    ensures r.Success? <==>
            InBoard(from, b) && CellAt(b, from) == Some(Piece(Pawn, side)) &&
            (previous.Some? ==> InBoard(previous.value.to, b))
    ensures r.Success? ==>
              r.value == PawnAdvances(from, side, b) + EnPassant(from, previous, side, b).value +
                         Captures(from, side, TakeDirs(side), b)
  {
    match PieceToMove(from, side, Pawn, b, "Piece is not a pawn to move!")
    case Failure(e) => Failure(e)
    case Success(piece) =>
      match EnPassant(from, previous, piece.side, b)
      case Failure(e) => Failure(e)
      case Success(enPassant) =>
        Success(PawnAdvances(from, piece.side, b) + enPassant + Captures(from, piece.side, TakeDirs(piece.side), b))
  }

  /** `getFeasiblePawnMoves`: pushes the advance, the jump, the en-passant
      capture and the diagonal captures in turn. */
  method GetFeasiblePawnMoves(from: Square, previous: Option<Move>, side: Side, b: Grid)
    returns (r: Result<seq<MoveWithTake>>)
    requires ValidBoard(b)
    ensures r == FeasiblePawnMoves(from, previous, side, b)
  {
    var check := PieceToMove(from, side, Pawn, b, "Piece is not a pawn to move!");
    if check.Failure? {
      return Failure(check.error);
    }
    var piece := check.value;
    var moves: seq<MoveWithTake> := [];
    var moveSquare := Shift(from, Sq(Forward(piece.side), 0));
    if InBoard(moveSquare, b) && CellAt(b, moveSquare).None? {
      moves := moves + [MoveWithTake(from, moveSquare, None)];
    }
    if from.row == StartRow(piece.side, b) {
      var jumpSquare := Shift(from, Sq(2 * Forward(piece.side), 0));
      if InBoard(jumpSquare, b) && CellAt(b, jumpSquare).None? {
        moves := moves + [MoveWithTake(from, jumpSquare, None)];
      }
    }
    assert moves == PawnAdvances(from, side, b);
    var enPassant := PushEnPassant(from, previous, side, b);
    if enPassant.Failure? {
      return Failure(enPassant.error);
    }
    moves := moves + enPassant.value;
    moves := PushCaptures(from, side, b, moves);
    return Success(moves);
  }

  /** The en-passant block of `getFeasiblePawnMoves`. */
  method PushEnPassant(from: Square, previous: Option<Move>, side: Side, b: Grid)
    returns (r: Result<seq<MoveWithTake>>)
    requires ValidBoard(b)
    ensures r == EnPassant(from, previous, side, b)
  {
    if previous.None? {
      return Success([]);
    }
    var prev := previous.value;
    var target := AtSquare(prev.to, b);
    if target.Failure? {
      return Failure(target.error);
    }
    var pieceAtPreviousMoveTarget := target.value;
    var enemyPawnMovedLast := pieceAtPreviousMoveTarget.Some? && pieceAtPreviousMoveTarget.value.kind == Pawn &&
                              pieceAtPreviousMoveTarget.value.side == Enemy(side);
    var enemyPawnJumped := prev.from.row == EnemyStartRow(side, b) && prev.to.row == EnemyJumpRow(side, b);
    var diffToEnemyPawn := SquareDiff(from, prev.to);
    var nextToEnemyPawn := SquareEquals(diffToEnemyPawn, Sq(0, -1)) || SquareEquals(diffToEnemyPawn, Sq(0, 1));
    if enemyPawnMovedLast && enemyPawnJumped && nextToEnemyPawn {
      var dir := Shift(diffToEnemyPawn, Sq(Forward(side), 0));
      return Success([MoveWithTake(from, Shift(from, dir), Some(Take(pieceAtPreviousMoveTarget.value, prev.to)))]);
    }
    return Success([]);
  }

  /** The capture loop of `getFeasiblePawnMoves`: one push per diagonal-forward
      square holding an enemy piece. */
  method PushCaptures(from: Square, side: Side, b: Grid, before: seq<MoveWithTake>)
    returns (moves: seq<MoveWithTake>)
    requires ValidBoard(b)
    ensures moves == before + Captures(from, side, TakeDirs(side), b)
  {
    moves := before;
    var takeDirections := TakeDirs(side);
    for i := 0 to |takeDirections|
      invariant moves == before + Captures(from, side, takeDirections[..i], b)
    {
      var takeSquare := Shift(from, takeDirections[i]);
      var takeSquareInBoard := InBoard(takeSquare, b);
      var takenPiece := if takeSquareInBoard then CellAt(b, takeSquare) else None;
      assert takeDirections[..i + 1][..i] == takeDirections[..i];
      if takeSquareInBoard && takenPiece.Some? && takenPiece.value.side == Enemy(side) {
        moves := moves + [MoveWithTake(from, takeSquare, Some(Take(takenPiece.value, takeSquare)))];
      }
    }
    assert takeDirections[..|takeDirections|] == takeDirections;
  }

  // --- king ------------------------------------------------------------------

  /** The king's move to `from` shifted by `d`: onto an empty square, or a
      capture of an enemy piece. */
  function KingStep(from: Square, d: Direction, side: Side, b: Grid): (r: seq<MoveWithTake>)
    requires ValidBoard(b)
    ensures |r| <= 1
    ensures forall m :: m in r ==> m.from == from && m.to == Shift(from, d) && EmptyOrCapture(m, side, b)
    ensures var sq := Shift(from, d);
            InBoard(sq, b) && (CellAt(b, sq).None? || CellAt(b, sq).value.side == Enemy(side)) ==> |r| == 1
  {
    var moveSquare := Shift(from, d);
    if !InBoard(moveSquare, b) then []
    else
      match CellAt(b, moveSquare)
      case None => [MoveWithTake(from, moveSquare, None)]
      case Some(p) => if p.side == Enemy(side) then [MoveWithTake(from, moveSquare, Some(Take(p, moveSquare)))] else []
  }

  /** The king's single steps along each of `dirs`, in order. */
  function KingSteps(from: Square, side: Side, dirs: seq<Direction>, b: Grid): (r: seq<MoveWithTake>)
    requires ValidBoard(b)
    ensures |r| <= |dirs|
    ensures forall m :: m in r ==>
              m.from == from && EmptyOrCapture(m, side, b) &&
              exists i :: 0 <= i < |dirs| && m.to == Shift(from, dirs[i])
    decreases |dirs|
  {
    if |dirs| == 0 then []
    else
      var front := dirs[..|dirs| - 1];
      var r := KingSteps(from, side, front, b) + KingStep(from, dirs[|dirs| - 1], side, b);
      assert forall i :: 0 <= i < |front| ==> front[i] == dirs[i];
      r
  }

  /** Every neighbour the king may step to is a target: the king is never
      blocked except by its own pieces. */
  lemma {:induction false} KingStepsComplete(from: Square, side: Side, dirs: seq<Direction>, b: Grid, i: nat)
    requires ValidBoard(b) && i < |dirs|
    requires var sq := Shift(from, dirs[i]);
             InBoard(sq, b) && (CellAt(b, sq).None? || CellAt(b, sq).value.side == Enemy(side))
    ensures exists m :: m in KingSteps(from, side, dirs, b) && m.to == Shift(from, dirs[i])
    decreases |dirs|
  {
    var front := dirs[..|dirs| - 1];
    if i == |dirs| - 1 {
      var step := KingStep(from, dirs[i], side, b);
      assert step[0] in KingSteps(from, side, dirs, b);
    } else {
      assert front[i] == dirs[i];
      KingStepsComplete(from, side, front, b, i);
    }
  }

  /** Taking one more direction appends that direction's step. */
  lemma KingStepsSnoc(from: Square, side: Side, dirs: seq<Direction>, i: nat, b: Grid)
    requires ValidBoard(b) && i < |dirs|
    ensures KingSteps(from, side, dirs[..i + 1], b) == KingSteps(from, side, dirs[..i], b) + KingStep(from, dirs[i], side, b)
  {
    assert dirs[..i + 1][..i] == dirs[..i];
  }

  function FeasibleKingMoves(from: Square, side: Side, b: Grid): (r: Result<seq<MoveWithTake>>)
    requires ValidBoard(b)
    ensures r.Success? <==> InBoard(from, b) && CellAt(b, from) == Some(Piece(King, side))
    ensures r.Success? ==> r.value == KingSteps(from, side, AllDirs, b)
  {
    match AtSquare(from, b)
    case Failure(e) => Failure(e)
    case Success(piece) =>
      if piece.None? || piece.value.kind != King then Failure("Not a king being moved!")
      else if piece.value.side != side then Failure("Piece moved does not match moving side.")
      else Success(KingSteps(from, side, AllDirs, b))
  }

  /** `getFeasibleKingMoves`: one push per in-board neighbour that is empty or
      holds an enemy piece. */
  method GetFeasibleKingMoves(from: Square, side: Side, b: Grid) returns (r: Result<seq<MoveWithTake>>)
    requires ValidBoard(b)
    ensures r == FeasibleKingMoves(from, side, b)
  {
    var at := AtSquare(from, b);
    if at.Failure? {
      return Failure(at.error);
    }
    var piece := at.value;
    if piece.None? || piece.value.kind != King {
      return Failure("Not a king being moved!");
    }
    if piece.value.side != side {
      return Failure("Piece moved does not match moving side.");
    }
    var moves: seq<MoveWithTake> := [];
    for i := 0 to |AllDirs|
      invariant moves == KingSteps(from, side, AllDirs[..i], b)
    {
      var moveSquare := Shift(from, AllDirs[i]);
      KingStepsSnoc(from, side, AllDirs, i, b);
      if !InBoard(moveSquare, b) {
        continue;
      }
      var pieceAtMoveSquare := CellAt(b, moveSquare);
      var squareEmpty := pieceAtMoveSquare.None?;
      var squareEnemy := pieceAtMoveSquare.Some? && pieceAtMoveSquare.value.side == Enemy(piece.value.side);
      if squareEmpty {
        moves := moves + [MoveWithTake(from, moveSquare, None)];
      }
      if squareEnemy {
        moves := moves + [MoveWithTake(from, moveSquare, Some(Take(pieceAtMoveSquare.value, moveSquare)))];
      }
    }
    assert AllDirs[..|AllDirs|] == AllDirs;
    return Success(moves);
  }

  // ---------------------------------------------------------------------------
  // getFeasibleMoves and its users
  // ---------------------------------------------------------------------------

  /** `getFeasibleMoves`: the piece at `from` must exist and belong to `side`;
      then the generator for its type. */
  function FeasibleMoves(from: Square, previous: Option<Move>, side: Side, b: Grid)
    : (r: Result<seq<MoveWithTake>>)
    requires ValidBoard(b)
    ensures r.Success? <==>
            InBoard(from, b) && CellAt(b, from).Some? && CellAt(b, from).value.side == side &&
            (CellAt(b, from).value.kind == Pawn && previous.Some? ==> InBoard(previous.value.to, b))
  {
    match AtSquare(from, b)
    case Failure(e) => Failure(e)
    case Success(None) => Failure("No piece at square to get moves for!")
    case Success(Some(piece)) =>
      if piece.side != side then Failure("Piece moved does not match moving side.")
      else
        match piece.kind
        case Pawn => FeasiblePawnMoves(from, previous, side, b)
        case Bishop => FeasibleBishopMoves(from, side, b)
        case Rook => FeasibleRookMoves(from, side, b)
        case Knight => FeasibleKnightMoves(from, side, b)
        case Queen => FeasibleQueenMoves(from, side, b)
        case King => FeasibleKingMoves(from, side, b)
  }

  /** `getFeasibleMoves`, dispatching to the imperative generators. */
  method GetFeasibleMoves(from: Square, previous: Option<Move>, side: Side, b: Grid)
    returns (r: Result<seq<MoveWithTake>>)
    requires ValidBoard(b)
    ensures r == FeasibleMoves(from, previous, side, b)
  {
    var at := AtSquare(from, b);
    if at.Failure? {
      return Failure(at.error);
    }
    if at.value.None? {
      return Failure("No piece at square to get moves for!");
    }
    var piece := at.value.value;
    if piece.side != side {
      return Failure("Piece moved does not match moving side.");
    }
    match piece.kind {
      case Pawn => r := GetFeasiblePawnMoves(from, previous, side, b);
      case Bishop => r := SlidingMoves(from, side, Bishop, BishopDirs, b, "Piece is not a bishop to move!");
      case Rook => r := SlidingMoves(from, side, Rook, RookDirs, b, "Piece is not a rook to move!");
      case Knight => r := SlidingMoves(from, side, Knight, KnightDirs, b, "Piece is not a knight to move!");
      case Queen => r := SlidingMoves(from, side, Queen, AllDirs, b, "Piece is not a knight to move!");
      case King => r := GetFeasibleKingMoves(from, side, b);
    }
  }

  /** The bishop, rook, knight and queen generators: the piece checks, then the
      imperative walk. */
  method SlidingMoves(from: Square, side: Side, kind: PieceType, dirs: seq<Direction>, b: Grid, notKind: string)
    returns (r: Result<seq<MoveWithTake>>)
    requires ValidBoard(b) && NonZeroDirs(dirs)
    ensures r == Slides(from, side, kind, dirs, b, notKind)
  {
    var check := PieceToMove(from, side, kind, b, notKind);
    if check.Failure? {
      return Failure(check.error);
    }
    var traversal := GetTraversalUntilBlockOrEnemy(from, check.value.side, dirs, b);
    return Success(traversal);
  }

  /** What every feasible move of the piece of `side` at `from` satisfies: it
      starts at `from` and ends on another in-board square; whatever it takes
      is an enemy piece standing on the taken square; and apart from en
      passant, whose taken square differs from its target, the target is empty
      (nothing taken) or holds the enemy piece taken there. */
  ghost predicate SoundMove(m: MoveWithTake, from: Square, side: Side, b: Grid)
    requires ValidBoard(b)
  {
    m.from == from && InBoard(m.to, b) && m.to != from &&
    (m.take.Some? ==> InBoard(m.take.value.square, b) && m.take.value.square != from &&
                      CellAt(b, m.take.value.square) == Some(m.take.value.piece) &&
                      m.take.value.piece.side == Enemy(side)) &&
    (m.take.None? || m.take.value.square == m.to ==> EmptyOrCapture(m, side, b))
  }

  /** A move onto an empty or enemy-held square is sound for a piece of `side`
      standing at `from`. */
  lemma EmptyOrCaptureSound(m: MoveWithTake, from: Square, side: Side, b: Grid)
    requires ValidBoard(b) && InBoard(from, b) && CellAt(b, from).Some? && CellAt(b, from).value.side == side
    requires m.from == from && EmptyOrCapture(m, side, b)
    ensures SoundMove(m, from, side, b)
  {
  }

  lemma {:induction false} RayTargets(from: Square, cur: Square, side: Side, d: Direction, b: Grid)
    requires ValidBoard(b) && d != Sq(0, 0)
    ensures forall m :: m in Ray(from, cur, side, d, b) ==> m.from == from && EmptyOrCapture(m, side, b)
    decreases RayBound(cur, d, b)
  {
    if InBoard(cur, b) && CellAt(b, cur).None? {
      RayTargets(from, Shift(cur, d), side, d, b);
    }
  }

  lemma {:induction false} TraversalTargets(from: Square, side: Side, dirs: seq<Direction>, n: nat, b: Grid)
    requires ValidBoard(b) && NonZeroDirs(dirs) && n <= |dirs|
    ensures forall m :: m in TraversalAt(from, side, dirs, n, b) ==> m.from == from && EmptyOrCapture(m, side, b)
    decreases |dirs| - n
  {
    if n < |dirs| {
      RayTargets(from, Shift(from, dirs[n]), side, dirs[n], b);
      TraversalTargets(from, side, dirs, n + 1, b);
    }
  }

  lemma SlidesSound(from: Square, side: Side, dirs: seq<Direction>, b: Grid)
    requires ValidBoard(b) && NonZeroDirs(dirs)
    requires InBoard(from, b) && CellAt(b, from).Some? && CellAt(b, from).value.side == side
    ensures forall m :: m in Traversal(from, side, dirs, b) ==> SoundMove(m, from, side, b)
  {
    TraversalTargets(from, side, dirs, 0, b);
    forall m | m in Traversal(from, side, dirs, b) ensures SoundMove(m, from, side, b) {
      EmptyOrCaptureSound(m, from, side, b);
    }
  }

  lemma PawnSound(from: Square, previous: Option<Move>, side: Side, b: Grid)
    requires ValidBoard(b) && FeasiblePawnMoves(from, previous, side, b).Success?
    ensures forall m :: m in FeasiblePawnMoves(from, previous, side, b).value ==> SoundMove(m, from, side, b)
  {
    var adv := PawnAdvances(from, side, b);
    var ep := EnPassant(from, previous, side, b).value;
    var caps := Captures(from, side, TakeDirs(side), b);
    forall m | m in adv + caps ensures SoundMove(m, from, side, b) {
      EmptyOrCaptureSound(m, from, side, b);
    }
    forall m | m in ep ensures SoundMove(m, from, side, b) {
      var prev := previous.value;
      assert EnPassantAllowed(from, prev, side, b);
      assert from.row == EnemyJumpRow(side, b);
    }
  }

  lemma KingSound(from: Square, side: Side, b: Grid)
    requires ValidBoard(b) && FeasibleKingMoves(from, side, b).Success?
    ensures forall m :: m in FeasibleKingMoves(from, side, b).value ==> SoundMove(m, from, side, b)
  {
    forall m | m in KingSteps(from, side, AllDirs, b) ensures SoundMove(m, from, side, b) {
      EmptyOrCaptureSound(m, from, side, b);
    }
  }

  lemma DirsNonZero()
    ensures NonZeroDirs(BishopDirs) && NonZeroDirs(RookDirs) && NonZeroDirs(KnightDirs) && NonZeroDirs(AllDirs)
  {
  }

  /** Every feasible move is sound: own pieces are never taken, and are never
      the target of a move other than en passant, which does not look at its
      target square (`EnPassantOntoOwnPiece`). */
  lemma FeasibleTargets(from: Square, previous: Option<Move>, side: Side, b: Grid)
    requires ValidBoard(b) && FeasibleMoves(from, previous, side, b).Success?
    ensures forall m :: m in FeasibleMoves(from, previous, side, b).value ==> SoundMove(m, from, side, b)
  {
    DirsNonZero();
    match CellAt(b, from).value.kind
    case Pawn => PawnSound(from, previous, side, b);
    case King => KingSound(from, side, b);
    case Bishop => SlidesSound(from, side, BishopDirs, b);
    case Rook => SlidesSound(from, side, RookDirs, b);
    case Knight => SlidesSound(from, side, KnightDirs, b);
    case Queen => SlidesSound(from, side, AllDirs, b);
  }

  /** The targets of the pawn generator: the advances, the en-passant capture
      and the diagonal captures, and nothing else. */
  lemma PawnTargets(from: Square, previous: Option<Move>, side: Side, b: Grid, m: MoveWithTake)
    requires ValidBoard(b) && FeasiblePawnMoves(from, previous, side, b).Success?
    requires m in FeasiblePawnMoves(from, previous, side, b).value
    ensures m.take.None? ==>
              m.to == Shift(from, Sq(Forward(side), 0)) ||
              (from.row == StartRow(side, b) && m.to == Shift(from, Sq(2 * Forward(side), 0)))
    ensures m.take.Some? && m.take.value.square == m.to ==>
              m.to == Shift(from, TakeDirs(side)[0]) || m.to == Shift(from, TakeDirs(side)[1])
    ensures m.take.Some? && m.take.value.square != m.to ==>
              previous.Some? && EnPassantAllowed(from, previous.value, side, b) &&
              m.take.value.square == previous.value.to &&
              m.to == Sq(from.row + Forward(side), previous.value.to.col)
  {
    var adv := PawnAdvances(from, side, b);
    var ep := EnPassant(from, previous, side, b).value;
    var caps := Captures(from, side, TakeDirs(side), b);
    if m in caps {
      var i :| 0 <= i < |TakeDirs(side)| && m.to == Shift(from, TakeDirs(side)[i]);
    }
  }

  /** `annotateMoveWithTake`: the first feasible move from the same square to
      the same target, with the capture it makes. */
  function AnnotateMoveWithTake(move: Move, previous: Option<Move>, side: Side, b: Grid)
    : (r: Result<MoveWithTake>)
    requires ValidBoard(b)
    ensures r.Success? <==>
            FeasibleMoves(move.from, previous, side, b).Success? &&
            exists m :: m in FeasibleMoves(move.from, previous, side, b).value && m.to == move.to
    ensures r.Success? ==>
              r.value in FeasibleMoves(move.from, previous, side, b).value &&
              r.value.from == move.from && r.value.to == move.to
    ensures r.Success? ==>
              var feasible := FeasibleMoves(move.from, previous, side, b).value;
              exists i :: 0 <= i < |feasible| && feasible[i] == r.value &&
                          forall j :: 0 <= j < i ==> feasible[j].to != move.to
  {
    match FeasibleMoves(move.from, previous, side, b)
    case Failure(e) => Failure(e)
    case Success(feasibleMoves) =>
      FeasibleTargets(move.from, previous, side, b);
      match FirstTo(feasibleMoves, move.to)
      case None => Failure("Given move is not feasible.")
      case Some(m) => Success(m)
  }

  /** `moves.find(m => squareEquals(m.to, to))`. */
  function FirstTo(moves: seq<MoveWithTake>, to: Square): (r: Option<MoveWithTake>)
    ensures r.Some? <==> exists m :: m in moves && m.to == to
    ensures r.Some? ==> r.value in moves && r.value.to == to
    ensures r.Some? ==>
              exists i :: 0 <= i < |moves| && moves[i] == r.value &&
                          forall j :: 0 <= j < i ==> moves[j].to != to
  {
    if |moves| == 0 then None
    else if SquareEquals(moves[0].to, to) then Some(moves[0])
    else
      var r := FirstTo(moves[1..], to);
      assert forall m :: m in moves[1..] ==> m in moves;
      assert forall m :: m in moves && m.to == to ==> m in moves[1..];
      if r.None? then r
      else
        var i :| 0 <= i < |moves| - 1 && moves[1..][i] == r.value &&
                 forall j :: 0 <= j < i ==> moves[1..][j].to != to;
        assert moves[i + 1] == r.value;
        assert forall j :: 0 <= j < i + 1 ==> moves[j].to != to by {
          forall j | 0 < j < i + 1
            ensures moves[j].to != to
          {
            assert moves[j] == moves[1..][j - 1];
          }
        }
        r
  }

  /** `isFeasibleMove`: some feasible move from the same square reaches the
      same target. */
  function IsFeasibleMove(move: Move, previous: Option<Move>, side: Side, b: Grid): (r: Result<bool>)
    requires ValidBoard(b)
    ensures r.Success? <==> FeasibleMoves(move.from, previous, side, b).Success?
    ensures r.Success? ==>
              (r.value <==> exists m :: m in FeasibleMoves(move.from, previous, side, b).value && m.to == move.to)
  {
    match FeasibleMoves(move.from, previous, side, b)
    case Failure(e) => Failure(e)
    case Success(feasibleMoves) => Success(FirstTo(feasibleMoves, move.to).Some?)
  }

  /** A move can be annotated exactly when it is feasible. */
  lemma AnnotateIffFeasible(move: Move, previous: Option<Move>, side: Side, b: Grid)
    requires ValidBoard(b)
    ensures AnnotateMoveWithTake(move, previous, side, b).Success? <==>
            IsFeasibleMove(move, previous, side, b) == Success(true)
  {
  }

  /** The feasible moves of each square in turn, concatenated; the first square
      whose generator throws makes the whole call throw. */
  function FeasibleFrom(squares: seq<Square>, previous: Option<Move>, side: Side, b: Grid)
    : (r: Result<seq<MoveWithTake>>)
    requires ValidBoard(b)
    ensures r.Success? <==> forall i :: 0 <= i < |squares| ==> FeasibleMoves(squares[i], previous, side, b).Success?
    ensures r.Success? ==>
              forall m :: m in r.value <==>
                exists i :: 0 <= i < |squares| && m in FeasibleMoves(squares[i], previous, side, b).value
  {
    if |squares| == 0 then Success([])
    else
      match FeasibleMoves(squares[0], previous, side, b)
      case Failure(e) => Failure(e)
      case Success(first) =>
        var rest := FeasibleFrom(squares[1..], previous, side, b);
        assert forall i :: 1 <= i < |squares| ==> squares[i] == squares[1..][i - 1];
        match rest
        case Failure(e) => Failure(e)
        case Success(more) => Success(first + more)
  }

  /** `getAllFeasibleMoves`: the feasible moves of every piece of `side`, in the
      row-major order of the pieces. */
  function AllFeasibleMoves(previous: Option<Move>, side: Side, b: Grid): (r: Result<seq<MoveWithTake>>)
    requires ValidBoard(b)
  {
    FeasibleFrom(FindPieces(b, None, Some(side)), previous, side, b)
  }

  /** `getAllFeasibleMoves` throws only when the last move's target lies outside
      the board and `side` has a pawn. */
  lemma AllFeasibleMovesFails(previous: Option<Move>, side: Side, b: Grid)
    requires ValidBoard(b)
    ensures AllFeasibleMoves(previous, side, b).Failure? <==>
            previous.Some? && !InBoard(previous.value.to, b) &&
            exists sq :: InBoard(sq, b) && CellAt(b, sq) == Some(Piece(Pawn, side))
  {
    if AllFeasibleMoves(previous, side, b).Failure? {
      FailureHasPawn(previous, side, b);
    }
    if previous.Some? && !InBoard(previous.value.to, b) {
      if sq :| InBoard(sq, b) && CellAt(b, sq) == Some(Piece(Pawn, side)) {
        PawnMakesFailure(previous, side, b, sq);
      }
    }
  }

  lemma FailureHasPawn(previous: Option<Move>, side: Side, b: Grid)
    requires ValidBoard(b) && AllFeasibleMoves(previous, side, b).Failure?
    ensures previous.Some? && !InBoard(previous.value.to, b)
    ensures exists sq :: InBoard(sq, b) && CellAt(b, sq) == Some(Piece(Pawn, side))
  {
    var squares := FindPieces(b, None, Some(side));
    var i :| 0 <= i < |squares| && FeasibleMoves(squares[i], previous, side, b).Failure?;
    var sq := squares[i];
    assert sq in squares;
    OwnPieceFails(sq, previous, side, b);
  }

  lemma PawnMakesFailure(previous: Option<Move>, side: Side, b: Grid, sq: Square)
    requires ValidBoard(b) && previous.Some? && !InBoard(previous.value.to, b)
    requires InBoard(sq, b) && CellAt(b, sq) == Some(Piece(Pawn, side))
    ensures AllFeasibleMoves(previous, side, b).Failure?
  {
    var squares := FindPieces(b, None, Some(side));
    OwnPieceFails(sq, previous, side, b);
    assert sq in squares;
    var i :| 0 <= i < |squares| && squares[i] == sq;
  }

  /** The generator fails on a square holding a piece of the moving side only
      for a pawn whose last move lands outside the board. */
  lemma OwnPieceFails(sq: Square, previous: Option<Move>, side: Side, b: Grid)
    requires ValidBoard(b) && InBoard(sq, b) && CellAt(b, sq).Some? && CellAt(b, sq).value.side == side
    ensures FeasibleMoves(sq, previous, side, b).Failure? <==>
            CellAt(b, sq).value.kind == Pawn && previous.Some? && !InBoard(previous.value.to, b)
  {
  }

  /** The moves `getAllFeasibleMoves` returns are exactly the feasible moves of
      the pieces of `side`. */
  lemma AllFeasibleMovesMembers(previous: Option<Move>, side: Side, b: Grid, m: MoveWithTake)
    requires ValidBoard(b) && AllFeasibleMoves(previous, side, b).Success?
    ensures m in AllFeasibleMoves(previous, side, b).value <==>
            exists sq :: InBoard(sq, b) && CellAt(b, sq).Some? && CellAt(b, sq).value.side == side &&
                         FeasibleMoves(sq, previous, side, b).Success? &&
                         m in FeasibleMoves(sq, previous, side, b).value
  {
    var squares := FindPieces(b, None, Some(side));
    if sq :| InBoard(sq, b) && CellAt(b, sq).Some? && CellAt(b, sq).value.side == side &&
             FeasibleMoves(sq, previous, side, b).Success? &&
             m in FeasibleMoves(sq, previous, side, b).value {
      assert sq in squares;
      var i :| 0 <= i < |squares| && squares[i] == sq;
    }
    if m in AllFeasibleMoves(previous, side, b).value {
      var i :| 0 <= i < |squares| && m in FeasibleMoves(squares[i], previous, side, b).value;
      assert squares[i] in squares;
    }
  }

  // ---------------------------------------------------------------------------
  // The knight's sliding walk on concrete boards
  // ---------------------------------------------------------------------------

  /** A 5x5 board with a white knight at [2,1], a black rook at [1,3] and a
      white queen at [4,2]. */
  function KnightTestBoard(): (b: Grid)
    ensures ValidBoard(b) && |b| == 5 && |b[0]| == 5
  {
    var e: Cell := None;
    [[e, e, e, e, e],
     [e, e, e, Some(Piece(Rook, Black)), e],
     [e, Some(Piece(Knight, White)), e, e, e],
     [e, e, e, e, e],
     [e, e, Some(Piece(Queen, White)), e, e]]
  }

  /** The squares of that board the knight's walks look at. */
  ghost predicate KnightTestCells(b: Grid) {
    ValidBoard(b) && |b| == 5 && |b[0]| == 5 &&
    CellAt(b, Sq(2, 1)) == Some(Piece(Knight, White)) &&
    CellAt(b, Sq(1, 3)) == Some(Piece(Rook, Black)) &&
    CellAt(b, Sq(4, 2)) == Some(Piece(Queen, White)) &&
    CellAt(b, Sq(3, 3)).None? && CellAt(b, Sq(0, 0)).None? &&
    CellAt(b, Sq(0, 2)).None? && CellAt(b, Sq(4, 0)).None?
  }

  /** On that board the knight reaches [1,3] (taking the rook), [3,3], [0,0],
      [0,2] and [4,0]; its own queen blocks [4,2]. */
  lemma KnightTestTargets()
    ensures FeasibleMoves(Sq(2, 1), None, White, KnightTestBoard()) ==
            Success([MoveWithTake(Sq(2, 1), Sq(1, 3), Some(Take(Piece(Rook, Black), Sq(1, 3)))),
                     MoveWithTake(Sq(2, 1), Sq(3, 3), None),
                     MoveWithTake(Sq(2, 1), Sq(0, 0), None),
                     MoveWithTake(Sq(2, 1), Sq(0, 2), None),
                     MoveWithTake(Sq(2, 1), Sq(4, 0), None)])
  {
    var b := KnightTestBoard();
    assert KnightTestCells(b);
    KnightTestTraversal(b);
  }

  lemma KnightTestTraversal(b: Grid)
    requires KnightTestCells(b)
    ensures Traversal(Sq(2, 1), White, KnightDirs, b) ==
            [MoveWithTake(Sq(2, 1), Sq(1, 3), Some(Take(Piece(Rook, Black), Sq(1, 3)))),
             MoveWithTake(Sq(2, 1), Sq(3, 3), None),
             MoveWithTake(Sq(2, 1), Sq(0, 0), None),
             MoveWithTake(Sq(2, 1), Sq(0, 2), None),
             MoveWithTake(Sq(2, 1), Sq(4, 0), None)]
  {
    DirsNonZero();
    KnightTestSuffixIs(b, 0);
    KnightTestSuffixValue();
  }

  /** The walks of the knight along its directions from the `i`th on. */
  function KnightTestSuffix(i: nat): seq<MoveWithTake>
    decreases 8 - i
  {
    if i >= 8 then [] else KnightTestRay(i) + KnightTestSuffix(i + 1)
  }

  lemma {:induction false} KnightTestSuffixIs(b: Grid, i: nat)
    requires KnightTestCells(b) && i <= 8 && NonZeroDirs(KnightDirs)
    ensures TraversalAt(Sq(2, 1), White, KnightDirs, i, b) == KnightTestSuffix(i)
    decreases 8 - i
  {
    if i < 8 {
      KnightTestSuffixIs(b, i + 1);
      KnightTestTail(b, i, KnightTestSuffix(i + 1));
    }
  }

  lemma KnightTestSuffixValue()
    ensures KnightTestSuffix(0) ==
            [MoveWithTake(Sq(2, 1), Sq(1, 3), Some(Take(Piece(Rook, Black), Sq(1, 3)))),
             MoveWithTake(Sq(2, 1), Sq(3, 3), None),
             MoveWithTake(Sq(2, 1), Sq(0, 0), None),
             MoveWithTake(Sq(2, 1), Sq(0, 2), None),
             MoveWithTake(Sq(2, 1), Sq(4, 0), None)]
  {
    assert KnightTestSuffix(5) == KnightTestRay(5) + KnightTestRay(7);
    assert KnightTestSuffix(3) == KnightTestRay(3) + KnightTestRay(4) + KnightTestSuffix(5);
  }

  /** The walk of the knight along its `i`th direction on that board. */
  function KnightTestRay(i: nat): seq<MoveWithTake> {
    var from := Sq(2, 1);
    if i == 0 then [MoveWithTake(from, Sq(1, 3), Some(Take(Piece(Rook, Black), Sq(1, 3))))]
    else if i == 3 then [MoveWithTake(from, Sq(3, 3), None)]
    else if i == 4 then [MoveWithTake(from, Sq(0, 0), None)]
    else if i == 5 then [MoveWithTake(from, Sq(0, 2), None)]
    else if i == 7 then [MoveWithTake(from, Sq(4, 0), None)]
    else []
  }

  lemma KnightTestTail(b: Grid, i: nat, rest: seq<MoveWithTake>)
    requires KnightTestCells(b) && i < 8 && NonZeroDirs(KnightDirs)
    requires TraversalAt(Sq(2, 1), White, KnightDirs, i + 1, b) == rest
    ensures TraversalAt(Sq(2, 1), White, KnightDirs, i, b) == KnightTestRay(i) + rest
  {
    KnightTestRayIs(b, i);
  }

  /** The eight walks of that knight, one direction each. */
  lemma KnightTestRayIs(b: Grid, i: nat)
    requires KnightTestCells(b) && i < 8
    ensures Ray(Sq(2, 1), Shift(Sq(2, 1), KnightDirs[i]), White, KnightDirs[i], b) == KnightTestRay(i)
  {
    var from := Sq(2, 1);
    var d := KnightDirs;
    if i == 3 {
      assert Ray(from, Sq(4, 5), White, d[3], b) == [];
    } else if i == 4 {
      assert Ray(from, Sq(-2, -1), White, d[4], b) == [];
    } else if i == 5 {
      assert Ray(from, Sq(-2, 3), White, d[5], b) == [];
    } else if i == 7 {
      assert Ray(from, Sq(6, -1), White, d[7], b) == [];
    }
  }

  /** A lone knight in the corner of a 5x5 board slides on to [2,4], two of its
      L-offsets away. */
  lemma KnightSlidesPastOneJump()
    ensures var e: Cell := None;
            var row: seq<Cell> := [e, e, e, e, e];
            var b := [[Some(Piece(Knight, White)), e, e, e, e], row, row, row, row];
            FeasibleMoves(Sq(0, 0), None, White, b).Success? &&
            MoveWithTake(Sq(0, 0), Sq(2, 4), None) in FeasibleMoves(Sq(0, 0), None, White, b).value
  {
    var e: Cell := None;
    var row: seq<Cell> := [e, e, e, e, e];
    var b := [[Some(Piece(Knight, White)), e, e, e, e], row, row, row, row];
    var from := Sq(0, 0);
    assert KnightDirs[3] == Sq(1, 2);
    TraversalMembers(from, White, KnightDirs, b, MoveWithTake(from, Sq(2, 4), None));
    assert Step(from, Sq(1, 2), 2) == Sq(2, 4);
    assert ClearBetween(from, Sq(1, 2), 1, 2, b);
  }

  /** En passant does not look at the square it moves to. Black's pawn has just
      jumped from [1,1] to [3,1] over a white knight (the jump looks only at its
      landing square), and the white pawn on [3,0] may then capture en passant
      onto [2,1], where its own knight stands. */
  lemma EnPassantOntoOwnPiece()
    ensures var e: Cell := None;
            var b := [[e, e, e], [e, e, e], [e, Some(Piece(Knight, White)), e],
                      [Some(Piece(Pawn, White)), Some(Piece(Pawn, Black)), e], [e, e, e]];
            CellAt(b, Sq(2, 1)) == Some(Piece(Knight, White)) &&
            FeasibleMoves(Sq(3, 0), Some(Move(Sq(1, 1), Sq(3, 1))), White, b).Success? &&
            MoveWithTake(Sq(3, 0), Sq(2, 1), Some(Take(Piece(Pawn, Black), Sq(3, 1))))
              in FeasibleMoves(Sq(3, 0), Some(Move(Sq(1, 1), Sq(3, 1))), White, b).value
  {
    var e: Cell := None;
    var b := [[e, e, e], [e, e, e], [e, Some(Piece(Knight, White)), e],
              [Some(Piece(Pawn, White)), Some(Piece(Pawn, Black)), e], [e, e, e]];
    var from, prev := Sq(3, 0), Move(Sq(1, 1), Sq(3, 1));
    assert EnPassantAllowed(from, prev, White, b);
    var capture := MoveWithTake(from, Sq(2, 1), Some(Take(Piece(Pawn, Black), Sq(3, 1))));
    assert EnPassant(from, Some(prev), White, b).value == [capture];
    assert FeasibleMoves(from, Some(prev), White, b) == FeasiblePawnMoves(from, Some(prev), White, b);
  }
}
