# chessy rules engine in Dafny

This project models the rules engine of the chessy repository and proves
properties of the model. The engine is a set of synchronous functions over a
finite rectangular board of optional pieces.

Core package (`packages/core/src`):
- `board.ts`
  - sides, pieces and squares;
  - the piece codec and the two board text forms: the boxed form with dash
    dividers, and the run-length "compressed" form;
  - square lookups and row-major scans;
  - the batch write `mutateBoard`.
- `moves.ts`
  - the per-piece feasible-move generators;
  - check detection and the self-check filter `getValidMoves`;
  - the check state, promotion eligibility and `executeMove`.
- `utils.ts`: counting, `range`, map reversal and the upper-case test.
- `game.ts`: the mutable game record.

Server package (`packages/server/src`): an older copy of the same engine.
- `board.ts` and `moves.ts`: a generator without en passant or pawn jumps;
- `game.ts`: a game record with a history viewer (`gotoMove`);
- `index.ts`: a piece shorthand codec and a board printer.

Web package: `segmentHistoryIntoPairs` of `packages/web/src/NotatedHistory.tsx`,
which lays the move list out in numbered pairs.

The modelling conventions:
- A JavaScript throw is a `Failure` of `Result`, carrying the thrown message.
  `null` is `None` of `Option`.
- A board is a `seq<seq<Option<Piece>>>`.
- A JavaScript `Map` is an insertion-ordered list of entries (`Utils.JsMap`).
- Loops of the source are `method`s with loop invariants. Each is proved
  equal to a function, and the properties are proved as lemmas about that
  function.
- The two game records are classes whose methods update their fields.

Modules:
- `Wrappers`: `Option` and `Result`.
- `Text`: JavaScript's `split`, `join`, `repeat`, `substr` and number printing.
- `Utils`: `utils.ts`.
- `Board` and `BoardText`: `packages/core/src/board.ts`.
- `Moves` and `Legality`: `packages/core/src/moves.ts`.
- `CoreGame`: `packages/core/src/game.ts`.
- `ServerBoard`, `ServerMoves`, `ServerGame` and `ServerIndex`: the server files.
- `NotatedHistory`: the web function.

Where the code and its description disagree, the model follows the code:
- The knight walks its L-offsets like a sliding piece (`Moves.KnightSlidesPastOneJump`).
- The pawn's two-square jump looks only at the landing square (`Moves.PawnAdvances`).
- En passant does not look at its target square, so after such a jump over a piece it can land on that piece, even one of the capturing side (`Moves.EnPassantOntoOwnPiece`).
- A black pawn is never eligible for promotion (`Legality.PromotionEligibility`).
- Checkmate is decided from the king's own valid moves only (`Legality.GetCheckState`).
- The self-check simulation leaves a pawn taken en passant on the board (`Legality.ValidMovesMembers`).
- The server shorthand writes a pawn as `X`, which its own reader refuses (`ServerIndex.ShorthandRoundTrip`).

## Model

| member | source | states |
|---|---|---|
| Utils.Get | packages/core/src/utils.ts:19-23 | `map.get(k)` finds a value exactly when some entry has key `k`, and the value found is stored under `k` |
| Utils.GetSet | packages/core/src/utils.ts:19-23 | after `map.set(k, v)`, `k` gives `v` and every other key gives what it gave before |
| Utils.GetFromEntriesInto | packages/core/src/utils.ts:19-23 | `new Map(entries)` gives each key the value of its last entry, and leaves keys without an entry as they were |
| Utils.FromEntriesIntoDistinct | packages/core/src/utils.ts:19-23 | with distinct keys, `new Map(entries)` keeps every entry, in order |
| Utils.ReverseMapGet | packages/core/src/utils.ts:19-23 | `reverseMap(m)` sends a value to the key of the last entry holding it, so a later entry wins |
| Utils.ReverseMapGetDistinct | packages/core/src/utils.ts:19-23 | with distinct values, every value maps back to its own key |
| Utils.ReverseMapInvolution | packages/core/src/utils.ts:19-23 | with distinct keys and values, `reverseMap(reverseMap(m)) == m` |
| Utils.CountOccurrencesIsMultiplicity | packages/core/src/utils.ts:8-13 | `countOccurrences(arr, x)` is the number of elements equal to `x`, and it is 0 exactly when `x` does not occur |
| Utils.Range | packages/core/src/utils.ts:15-17 | `range(n)` has length `n` and element `i` is `i` |
| Utils.ToUpper | packages/core/src/utils.ts:25-27 | ASCII `toUpperCase`: keeps the length, upper-cases each ASCII lower-case letter and leaves every other character alone |
| Utils.IsUpperCase | packages/core/src/utils.ts:25-27 | with ASCII case mapping, `isUpperCase(s)` holds iff `s` has no ASCII lower-case letter, so digit-only strings count as upper case |
| Utils.ToUpperIsUpperCase | packages/core/src/utils.ts:25-27 | an upper-cased string is upper case, upper-casing twice is upper-casing once, and `isUpperCase(s)` is exactly `s.toUpperCase() === s` |
| Board.Enemy | packages/core/src/board.ts:48-50 | `getEnemySide` never returns its argument |
| Board.EnemyInvolution | packages/core/src/board.ts:48-50 | `getEnemySide` applied twice gives the side back |
| Board.TypeLetter | packages/core/src/board.ts:32-39 | every piece type has an entry in the type map, one upper-case letter |
| Board.SideLetter | packages/core/src/board.ts:42-45 | every side has an entry in the side map |
| Board.TypeLettersDistinct | packages/core/src/board.ts:32-40 | the type letters are pairwise distinct, so reversing the map loses nothing |
| Board.ReversePieceTypeLookup | packages/core/src/board.ts:32-40 | the reversed type map sends each type letter to its type and has nothing for any other string |
| Board.ReverseSideLookup | packages/core/src/board.ts:46 | the reversed side map sends each side letter to its side and has nothing for any other string |
| Board.ReadSerializedPiece | packages/core/src/board.ts:52-79 | `readPiece(serializePiece(p)) == p` for every piece |
| Board.ReadPieceTypeLetters | packages/core/src/board.ts:61-65 | `readPieceType` succeeds exactly on a type letter and returns the type with that letter; otherwise it fails with "Piece type could not be read!" |
| Board.ReadPieceAccepts | packages/core/src/board.ts:61-79 | `readPiece` succeeds iff the string has two leading characters forming a side letter and a type letter, and then returns the piece whose code is those two characters (later characters are ignored) |
| Board.SideLetterOf | packages/core/src/board.ts:67-79 | a string the side lookup knows is the letter of the side it returns |
| Board.TypeLetterOf | packages/core/src/board.ts:61-65 | a string the type lookup knows is the letter of the type it returns |
| Board.IsBoardValidMeansRectangular | packages/core/src/board.ts:81-85 | `isBoardValid` holds iff there is a row, row 0 is non-empty and all rows have the same length |
| Board.AtSquare | packages/core/src/board.ts:217-225 | `atSquare` succeeds exactly on in-board squares |
| Board.SquareEquals | packages/core/src/board.ts:268-270 | `squareEquals` is equality of squares |
| Board.SquareDiff | packages/core/src/board.ts:264-274 | `shift(a, squareDiff(a, b)) == b` |
| Board.RowSquares | packages/core/src/board.ts:227-235 | row `i` contributes `[i, 0]` to `[i, cols - 1]`, in order |
| Board.AllSquares | packages/core/src/board.ts:227-235 | rows * cols squares, exactly the in-board ones, strictly increasing in row-major order |
| Board.GetAllSquares | packages/core/src/board.ts:227-235 | the nested push loops produce exactly `AllSquares` |
| Board.FilterSquares | packages/core/src/board.ts:237-253 | the filter keeps exactly the squares that are occupied and match the given type and side, and keeps row-major order |
| Board.FindPieces | packages/core/src/board.ts:237-253 | `findPieces` returns exactly the in-board occupied squares matching the filters, in row-major order |
| Board.SerializeSquare | packages/core/src/board.ts:255-262 | `serializeSquare` succeeds exactly on in-board squares and otherwise fails with "Square is not in board."; a name is the file letter 'a' + col followed by decimal digits that read as the rank rows - row |
| Board.SerializeSquareExample | packages/core/src/__tests__/board.test.ts:232-235 | [1,1] on a four-row board is "b3" |
| Board.SerializeSquareInjective | packages/core/src/board.ts:255-262 | two in-board squares never get the same name |
| Board.ParseNatToString | packages/core/src/board.ts:255-262 | the rank written in decimal reads back as the same number |
| Board.Write | packages/core/src/board.ts:286-287 | one write keeps the board rectangular and its shape |
| Board.ApplyMutations | packages/core/src/board.ts:276-293 | the writes applied in order keep the board's shape |
| Board.Mutated | packages/core/src/board.ts:276-293 | `mutateBoard`'s result is rectangular and of the input's shape |
| Board.MutateBoard | packages/core/src/board.ts:276-293 | the copy-then-write loop gives exactly `Mutated`, and the input board, a value, is not changed |
| Board.LastWriteCons | packages/core/src/board.ts:276-293 | a write followed by a batch: the last write to a square decides its content |
| Board.ApplyMutationsCells | packages/core/src/board.ts:276-293 | the writes succeed iff every square written is in the board, and then each square holds the last write to it, or its old content |
| Board.MutatedSpec | packages/core/src/board.ts:276-293 | `mutateBoard` fails iff some write is outside the board; otherwise the board keeps its shape and each square holds the last write to it, or its old content |
| Board.AtSquareAfterMutation | packages/core/src/board.ts:276-293 | `atSquare` on the mutated board reads the last write to the square |
| BoardText.CellTexts | packages/core/src/board.ts:87-104 | one cell text per square, in order |
| BoardText.RowTexts | packages/core/src/board.ts:87-104 | one row line per row, in order |
| BoardText.Divider | packages/core/src/board.ts:87-104 | the divider is 3 * cols + 1 characters |
| BoardText.ReadBoard | packages/core/src/board.ts:106-137 | a board `readBoard` accepts is rectangular and non-empty, the first line is a dash divider, and a divider line sits above every row and below the last |
| BoardText.SerializeBoardIsLines | packages/core/src/board.ts:87-104 | `serializeBoard` is its lines joined by newlines: a divider, then each row followed by a divider |
| BoardText.BoardLinesShape | packages/core/src/board.ts:87-104 | every line of the boxed form, dividers and rows alike, is 3 * cols + 1 characters and holds no newline |
| BoardText.SplitSerializedBoard | packages/core/src/board.ts:87-137 | splitting the boxed form at newlines gives back its lines |
| BoardText.CountRowLines | packages/core/src/board.ts:106-137 | the lines of the boxed form starting with a bar are exactly its rows |
| BoardText.DividersOfLines | packages/core/src/board.ts:106-137 | the boxed form passes every divider test of `readBoard` |
| BoardText.ReadSerializedBoard | packages/core/src/board.ts:87-137 | `readBoard(serializeBoard(b)) == b` for every valid board |
| BoardText.ReadCompressedRow | packages/core/src/board.ts:139-157 | the character loop with its pushes gives exactly `CompressedRow`: a digit 1-9 reads as that many empty squares, a letter as a piece whose case gives the side, anything else fails |
| BoardText.CompressedRowAppend | packages/core/src/board.ts:139-157 | reading a concatenation reads each part, and the first failure wins |
| BoardText.ReadCompressedBoard | packages/core/src/board.ts:159-164 | a board `readCompressedBoard` accepts is rectangular and non-empty |
| BoardText.ZeroIsNoPiece | packages/core/src/board.ts:139-157 | the digit '0' is rejected |
| BoardText.PieceCharReads | packages/core/src/board.ts:139-182 | a piece's letter reads back as the piece: upper case white, lower case black |
| BoardText.DigitReads | packages/core/src/board.ts:139-157 | a digit 1-9 reads as that many empty squares |
| BoardText.RunTextReads | packages/core/src/board.ts:166-182 | a run of empty squares is written so that it reads back, for runs up to nine as written and for every run once long runs are split |
| BoardText.TailReads | packages/core/src/board.ts:166-182 | what the `reduce` still writes after a pending run reads back as that run and the rest of the row |
| BoardText.CompressRowReads | packages/core/src/board.ts:139-182 | a compressed row reads back as the row when it has no run of ten empty squares, and always when long runs are split |
| BoardText.CompressedRowRoundTrip | packages/core/src/board.ts:139-182 | as written: a row without ten consecutive empty squares survives `serializeCompressedRow` then `readCompressedRow` |
| BoardText.CompressedRowSplitRunsRoundTrip | packages/core/src/board.ts:139-182 | corrected: every row survives the round trip |
| BoardText.CompressedBoardReads | packages/core/src/board.ts:159-186 | the rows joined by slashes read back as the board |
| BoardText.CompressedBoardRoundTrip | packages/core/src/board.ts:159-186 | as written: `readCompressedBoard(serializeCompressedBoard(b)) == b` when no row has ten consecutive empty squares |
| BoardText.CompressedBoardSplitRunsRoundTrip | packages/core/src/board.ts:159-186 | corrected: the round trip holds for every valid board |
| BoardText.TenEmptySquaresDoNotRoundTrip | packages/core/src/board.ts:139-182 | as written, ten empty squares are written "10", which does not read back |
| BoardText.StandardPosition | packages/core/src/board.ts:188-208 | the standard position is a valid board of eight rows of eight squares |
| BoardText.CreateStandardBoardIsStandard | packages/core/src/board.ts:188-208 | `createStandardBoard` never throws: its seventeen lines are the boxed form of the standard position, and it returns that position |
| BoardText.StandardKnightsAndKings | packages/server/src/__tests__/board.test.ts:116-120 | the standard position has black knights at [0,1] and [0,6], as the server test expects, and the kings on [0,4] and [7,4] |
| Moves.GetTraversalUntilBlockOrEnemy | packages/core/src/moves.ts:19-41 | the loop over directions produces exactly `Traversal` |
| Moves.WalkDirection | packages/core/src/moves.ts:24-38 | the inner while loop of one direction produces exactly the walk `Ray` |
| Moves.RayMembers | packages/core/src/moves.ts:24-38 | the walk of one direction emits exactly the empty or enemy-held squares some steps along it with only empty squares before them; an enemy is taken on the square moved to |
| Moves.TraversalMembers | packages/core/src/moves.ts:19-41 | the whole walk emits exactly those squares over all its directions, and never a square holding an own piece |
| Moves.PieceToMove | packages/core/src/moves.ts:43-54 | the generator's opening checks pass iff `from` is in the board and holds a piece of the expected type and side |
| Moves.Slides | packages/core/src/moves.ts:43-67 | a sliding generator succeeds iff its piece stands at `from`, and then returns the walk |
| Moves.FeasibleBishopMoves | packages/core/src/moves.ts:43-54 | succeeds iff a bishop of the side stands at `from`; its moves are the walk along the four diagonals |
| Moves.FeasibleRookMoves | packages/core/src/moves.ts:56-67 | succeeds iff a rook of the side stands at `from`; its moves are the walk along the four lines |
| Moves.FeasibleKnightMoves | packages/core/src/moves.ts:69-80 | succeeds iff a knight of the side stands at `from`; its moves are the sliding walk along the eight L-offsets |
| Moves.FeasibleQueenMoves | packages/core/src/moves.ts:136-147 | succeeds iff a queen of the side stands at `from`; its moves are the walk along all eight directions |
| Moves.PawnAdvances | packages/core/src/moves.ts:93-109 | the one-step advance is emitted iff its square is in the board and empty; the jump iff the pawn is on its start row and the landing square is in the board and empty (the square passed over is not looked at); nothing is taken |
| Moves.EnPassant | packages/core/src/moves.ts:111-122 | fails iff the last move ends outside the board; emits the capture behind the enemy pawn, taking it on `previous.to`, exactly when that pawn jumped from its start row and stands beside the mover; otherwise nothing |
| Moves.CaptureAt | packages/core/src/moves.ts:123-131 | a diagonal capture is emitted iff an enemy piece stands there, and takes it |
| Moves.Captures | packages/core/src/moves.ts:123-131 | the captures take only enemy pieces one diagonal step forward |
| Moves.FeasiblePawnMoves | packages/core/src/moves.ts:82-134 | succeeds iff a pawn of the side stands at `from` and the last move (if any) ends in the board; the moves are the advances, then en passant, then the captures |
| Moves.GetFeasiblePawnMoves | packages/core/src/moves.ts:82-134 | the push sequence produces exactly `FeasiblePawnMoves` |
| Moves.PushEnPassant | packages/core/src/moves.ts:111-122 | the en-passant block produces exactly `EnPassant` |
| Moves.PushCaptures | packages/core/src/moves.ts:123-131 | the capture loop appends exactly `Captures` |
| Moves.KingStep | packages/core/src/moves.ts:160-172 | one neighbour is emitted iff it is in the board and empty or enemy-held |
| Moves.KingSteps | packages/core/src/moves.ts:150-175 | at most one move per direction, each a neighbour that is empty or enemy-held |
| Moves.KingStepsComplete | packages/core/src/moves.ts:150-175 | every in-board neighbour that is empty or enemy-held is a target |
| Moves.FeasibleKingMoves | packages/core/src/moves.ts:150-175 | succeeds iff a king of the side stands at `from`; its moves are the single steps |
| Moves.GetFeasibleKingMoves | packages/core/src/moves.ts:150-175 | the loop with its pushes produces exactly `FeasibleKingMoves` |
| Moves.FeasibleMoves | packages/core/src/moves.ts:177-195 | `getFeasibleMoves` fails iff `from` is empty, outside the board or holds the other side's piece, or holds a pawn while the last move ends outside the board |
| Moves.GetFeasibleMoves | packages/core/src/moves.ts:177-195 | the dispatch to the imperative generators produces exactly `FeasibleMoves` |
| Moves.SlidingMoves | packages/core/src/moves.ts:43-80 | a sliding generator run as a loop produces exactly `Slides` |
| Moves.SlidesSound | packages/core/src/moves.ts:19-41 | every move of the walk is sound: it lands on an in-board square that is empty or holds an enemy, taken there |
| Moves.PawnSound | packages/core/src/moves.ts:82-134 | every pawn move is sound; only en passant takes on a square other than its target |
| Moves.KingSound | packages/core/src/moves.ts:150-175 | every king move is sound |
| Moves.FeasibleTargets | packages/core/src/moves.ts:177-195 | every feasible move is sound: own pieces are never taken, and are never the target of a move other than en passant |
| Moves.PawnTargets | packages/core/src/moves.ts:93-131 | a pawn move is the advance or the jump from the start row (nothing taken), a diagonal capture, or the en-passant capture of `previous.to`, and nothing else |
| Moves.AnnotateMoveWithTake | packages/core/src/moves.ts:197-202 | succeeds iff some feasible move from `from` reaches `to`, and returns the first such move in the feasible list, with its capture (as `FeasiblePawnMoves` lists en passant before the captures, en passant wins over a capture onto the same square) |
| Moves.FirstTo | packages/core/src/moves.ts:199-200 | finds a move iff some move has the target, and the move found is the first with that target |
| Moves.IsFeasibleMove | packages/core/src/moves.ts:204-207 | true iff some feasible move from `from` reaches `to`; fails iff the generator does |
| Moves.AnnotateIffFeasible | packages/core/src/moves.ts:197-207 | a move can be annotated iff it is feasible |
| Moves.FeasibleFrom | packages/core/src/moves.ts:209-214 | the concatenation fails iff one square's generator fails, and otherwise holds exactly the moves of the squares |
| Moves.AllFeasibleMovesFails | packages/core/src/moves.ts:209-214 | `getAllFeasibleMoves` fails iff the last move ends outside the board and the side has a pawn |
| Moves.OwnPieceFails | packages/core/src/moves.ts:177-195 | on an own piece, the generator fails only for a pawn whose last move ends outside the board |
| Moves.AllFeasibleMovesMembers | packages/core/src/moves.ts:209-214 | the moves returned are exactly the feasible moves of the side's pieces |
| Moves.KnightTestTargets | packages/core/src/__tests__/moves.test.ts:21-49 | on the 5x5 test board the knight's targets are exactly [1,3] (taking the rook), [3,3], [0,0], [0,2] and [4,0] |
| Moves.EnPassantOntoOwnPiece | packages/core/src/moves.ts:111-122 | after a black jump over a white knight, the white pawn beside it may capture en passant onto the knight's square |
| Moves.KnightSlidesPastOneJump | packages/core/src/moves.ts:69-80 | a lone knight in the corner reaches [2,4], two L-offsets away |
| Legality.RowMajorFirst | packages/core/src/moves.ts:217 | the first square of a row-major scan precedes every other |
| Legality.FirstKing | packages/core/src/moves.ts:217 | `findPieces(king of side)[0]` is absent iff the side has no king; otherwise it is the side's first king in row-major order |
| Legality.IsCheck | packages/core/src/moves.ts:216-221 | `isCheck` fails iff the last move ends outside the board and the enemy has a pawn; it is false without an own king |
| Legality.IsCheckAttacked | packages/core/src/moves.ts:216-221 | in check iff the side has a king and some enemy piece has a feasible move onto the first king square |
| Legality.Verdicts | packages/core/src/moves.ts:229-237 | one simulation per move, in order |
| Legality.KeptBy | packages/core/src/moves.ts:229-237 | the filter never returns more moves than it was given |
| Legality.KeptBySucceeds | packages/core/src/moves.ts:229-237 | the filter fails iff some verdict fails |
| Legality.KeptByMembers | packages/core/src/moves.ts:229-237 | the filter keeps exactly the moves whose verdict is true |
| Legality.KeptByStep | packages/core/src/moves.ts:229-237 | one more loop turn: the next verdict adds the move, drops it, or fails |
| Legality.KeptByPrefixFails | packages/core/src/moves.ts:229-237 | once a prefix fails, the whole loop fails with the same error |
| Legality.KeepSafe | packages/core/src/moves.ts:229-237 | the `forEach` returns no more moves than it was given |
| Legality.KeepSafeSucceeds | packages/core/src/moves.ts:229-237 | the `forEach` fails iff one simulation fails |
| Legality.KeepSafeMembers | packages/core/src/moves.ts:229-237 | the `forEach` keeps exactly the moves after which the own king is safe |
| Legality.ValidMoves | packages/core/src/moves.ts:223-240 | `getValidMoves` fails outside the board, gives [] for an empty square, and otherwise filters the feasible moves by simulation |
| Legality.GetValidMoves | packages/core/src/moves.ts:223-240 | the method gives exactly `ValidMoves` |
| Legality.FilterSafeMoves | packages/core/src/moves.ts:229-237 | the push loop gives exactly `KeepSafe` |
| Legality.ValidMovesMembers | packages/core/src/moves.ts:223-240 | the valid moves are exactly the feasible moves after whose plain relocation (`from` emptied, piece on `to`) the own king is not in check |
| Legality.ValidMovesRejects | packages/core/src/moves.ts:223-240 | a feasible move that is not valid leaves the own king in check once simulated |
| Legality.RelocationSucceeds | packages/core/src/moves.ts:230-233 | the simulated write of two in-board squares succeeds |
| Legality.ValidMovesSucceed | packages/core/src/moves.ts:223-240 | with the last move in the board, `getValidMoves` fails only outside the board or on the other side's piece |
| Legality.IsValidMove | packages/core/src/moves.ts:242-245 | true iff some valid move from `from` reaches `to` |
| Legality.ValidIsFeasible | packages/core/src/moves.ts:204-245 | every valid move is feasible and can be annotated |
| Legality.ValidFrom | packages/core/src/moves.ts:247-252 | the concatenation fails iff one square's filter fails, and otherwise holds exactly the valid moves of the squares |
| Legality.AllValidMovesMembers | packages/core/src/moves.ts:247-252 | `getAllValidMoves` returns exactly the valid moves of the side's pieces |
| Legality.GetCheckState | packages/core/src/moves.ts:254-264 | fails without an own king; SAFE iff not in check; CHECKMATE iff in check and the king has no valid move; CHECK otherwise |
| Legality.CheckStateDefined | packages/core/src/moves.ts:254-264 | with a king and the last move in the board, the check state exists |
| Legality.CheckmateMeans | packages/core/src/moves.ts:254-264 | at checkmate the side is in check and every feasible king move leaves the king in check |
| Legality.CanPromote | packages/core/src/moves.ts:266-271 | fails iff `from` is outside the board or holds no piece of the side; true only for a pawn moving to row 0 |
| Legality.PromotionEligibility | packages/core/src/moves.ts:266-271 | eligible iff the side is white, the piece is a pawn and the target is row 0; black is never eligible |
| Legality.ExecutionWritesLast | packages/core/src/moves.ts:283-294 | after the execution writes, `from` is empty, the target holds the moved piece, a square taken en passant is empty and every other square keeps its content |
| Legality.ExecuteMove | packages/core/src/moves.ts:273-298 | `executeMove` succeeds only for a valid move, passes the promotion type through, and keeps the board's shape |
| Legality.ApplyAnnotatedMove | packages/core/src/moves.ts:279-298 | the writes pass the capture and the promotion type through and keep the board's shape |
| Legality.ApplyAnnotatedMoveSpec | packages/core/src/moves.ts:279-298 | for a sound move, the writes fail iff a promotion is due and no type is given; otherwise `from` is empty, the target holds the landed piece, a square taken en passant is empty and nothing else changes |
| Legality.ValidAnnotation | packages/core/src/moves.ts:197-202 | a valid move annotates to a sound feasible move from the same square to the same target |
| Legality.ExecuteMoveSucceeds | packages/core/src/moves.ts:273-298 | `executeMove` succeeds iff the move is valid and is not a due promotion without a type |
| Legality.ExecuteMoveBoard | packages/core/src/moves.ts:273-298 | after `executeMove`, `from` is empty, the target holds the moved or promoted piece, a pawn taken en passant is gone, every other square is unchanged, and the capture is the feasible move's |
| Legality.ExecuteMoveKeepsKingSafe | packages/core/src/moves.ts:223-298 | a move without en passant or promotion writes exactly the simulated relocation, so the mover is not in check afterwards |
| CoreGame.Game.constructor | packages/core/src/game.ts:32-38 | the record holds the fields it is given |
| CoreGame.CreateGame | packages/core/src/game.ts:31-39 | always a fresh game with the given id, white to move, the standard position, an empty history and SAFE |
| CoreGame.Game.SubmitMove | packages/core/src/game.ts:41-48 | a failing move step writes nothing; otherwise the side flips once, the board is the step's, one move is appended and the check state is that of the new side to move |
| CoreGame.Game.ExecuteGameMove | packages/core/src/game.ts:50-56 | as `SubmitMove`, but the side to move stays the same |
| ServerBoard.Opposite | packages/server/src/board.ts:47-49 | `opposite` never returns its argument |
| ServerBoard.OppositeInvolution | packages/server/src/board.ts:47-49 | `opposite` applied twice gives the side back, and it equals the core `getEnemySide` |
| ServerBoard.ServerInBoard | packages/server/src/board.ts:167-173 | false on a board without rows; otherwise both coordinates are inside |
| ServerBoard.ServerGetAllSquares | packages/server/src/board.ts:189-198 | [] for a board without rows; otherwise all rows * cols squares in row-major order |
| ServerBoard.ServerFindPieces | packages/server/src/board.ts:127-143 | [] for a board without rows; otherwise exactly the occupied squares matching the filters |
| ServerBoard.ServerSerializeBoard | packages/server/src/board.ts:107-125 | '' for a board without rows; otherwise the text starts and ends with a divider of 3 * cols + 1 dashes |
| ServerBoard.ServerBoardRoundTrip | packages/server/src/board.ts:74-125 | `readBoard(serializeBoard(b)) == b` for every valid board |
| ServerBoard.ServerSerializeSquare | packages/server/src/board.ts:200-208 | succeeds iff the board is rectangular and the square in it, otherwise fails with "Invalid board." or "Square is not in board." in that order; a name is the file letter 'a' + col followed by decimal digits that read as the rank rows - row |
| ServerBoard.SerializeSquareOnFourRows | packages/server/src/board.ts:200-208 | [1,1] on a four-row board is "b3" |
| ServerMoves.StripAll | packages/server/src/moves.ts:11-30 | one server move per engine move, recording the taken piece |
| ServerMoves.ServerTraversalMembers | packages/server/src/moves.ts:11-30 | the walk emits exactly the empty or enemy-held squares along its directions with only empty squares before them; an enemy is recorded as taken |
| ServerMoves.PieceAt | packages/server/src/moves.ts:32-42 | the generator's checks pass iff `from` holds a piece of the expected type, of either side |
| ServerMoves.SlideMoves | packages/server/src/moves.ts:32-66 | a sliding generator succeeds iff its piece stands at `from` and then walks for that piece's side |
| ServerMoves.QueenTypeCheck | packages/server/src/moves.ts:97-107 | as written the queen generator fails on every queen; corrected it walks the eight directions |
| ServerMoves.KnightAsEngine | packages/server/src/moves.ts:56-66 | the server knight slides along its L-offsets exactly as the engine's does |
| ServerMoves.PawnAdvance | packages/server/src/moves.ts:73-80 | at most one advance |
| ServerMoves.AdvanceMembers | packages/server/src/moves.ts:73-80 | the advance is the one-step move onto an empty square, taking nothing |
| ServerMoves.CaptureMembers | packages/server/src/moves.ts:81-93 | a diagonal move takes the enemy piece standing there |
| ServerMoves.PawnMoves | packages/server/src/moves.ts:68-95 | the pawn generator succeeds iff a pawn stands at `from` |
| ServerMoves.GetPawnMoves | packages/server/src/moves.ts:68-95 | the push sequence gives exactly `PawnMoves` |
| ServerMoves.PawnMovesMembers | packages/server/src/moves.ts:68-95 | a server pawn moves one square forward onto an empty square or diagonally forward onto an enemy, and nothing else: no jump, no en passant |
| ServerMoves.KingMoves | packages/server/src/moves.ts:109-132 | the king generator succeeds iff a king stands at `from` |
| ServerMoves.KingMovesMembers | packages/server/src/moves.ts:109-132 | the king reaches exactly its in-board neighbours that are empty or enemy-held |
| ServerMoves.PotentialMoves | packages/server/src/moves.ts:134-151 | as written, `getPotentialMoves` fails exactly on an empty square and on a queen |
| ServerMoves.PotentialMovesLand | packages/server/src/moves.ts:134-151 | every potential move leaves `from` and lands on an empty square or takes an enemy |
| ServerMoves.PotentialFrom | packages/server/src/moves.ts:172-177 | the concatenation fails iff one square's generator fails, and otherwise holds exactly their moves |
| ServerMoves.AllPotentialMovesFails | packages/server/src/moves.ts:172-177 | as written, `getAllPotentialMoves` fails iff the side has a queen; corrected it never fails |
| ServerMoves.AllPotentialMovesMembers | packages/server/src/moves.ts:172-177 | the moves returned are exactly the potential moves of the side's pieces |
| ServerMoves.AnyTo | packages/server/src/moves.ts:182-183 | true iff some move has the target |
| ServerMoves.IsCheck | packages/server/src/moves.ts:179-184 | `isCheck` is false without an own king |
| ServerMoves.IsCheckFails | packages/server/src/moves.ts:179-184 | as written, `isCheck` fails iff the enemy has a queen; corrected it never fails |
| ServerMoves.IsCheckAttacked | packages/server/src/moves.ts:179-184 | in check iff the side has a king and some enemy potential move lands on the first king square |
| ServerMoves.Verdicts | packages/server/src/moves.ts:160-168 | one simulation per potential move, in order |
| ServerMoves.ValidMoves | packages/server/src/moves.ts:153-170 | `getValidMoves` fails outside the board, gives [] for an empty square, and otherwise needs the potential moves |
| ServerMoves.GetValidMoves | packages/server/src/moves.ts:153-170 | the method gives exactly `ValidMoves` |
| ServerMoves.FilterSafeMoves | packages/server/src/moves.ts:160-168 | the push loop gives exactly the kept moves of the simulations |
| ServerMoves.ValidMovesMembers | packages/server/src/moves.ts:153-170 | the valid moves are exactly the potential moves after whose relocation the own king is not in check |
| ServerMoves.ValidMovesSucceed | packages/server/src/moves.ts:153-170 | corrected, `getValidMoves` fails only outside the board |
| ServerMoves.ValidMovesFailWithEnemyQueen | packages/server/src/moves.ts:97-184 | as written, while the enemy has a queen, a piece with a potential move that does not take it gets no valid moves: the call fails |
| ServerMoves.RelocationLast | packages/server/src/moves.ts:160-163 | after the relocation `to` holds the piece, `from` is empty and every other square keeps its content |
| ServerMoves.FindTo | packages/server/src/moves.ts:191 | finds a move iff some move has the target (compared by value), and the move found is the first with that target |
| ServerMoves.MakeMove | packages/server/src/moves.ts:186-216 | the board `move` returns is rectangular |
| ServerMoves.MakeMoveSucceeds | packages/server/src/moves.ts:186-216 | with the target compared by value, `move` succeeds iff `getValidMoves` does, the piece at `from` is the mover's, and a valid move reaches `to` |
| ServerMoves.MakeMoveBoard | packages/server/src/moves.ts:186-216 | after `move`, `from` is empty, the piece stands on `to`, nothing else changes, the mover is not in check, and the recorded move is valid and takes what stood on `to` |
| ServerMoves.SquareRef.constructor | packages/server/src/board.ts:210-212 | a square array holds the coordinates it was made with |
| ServerMoves.FindTarget | packages/server/src/moves.ts:191 | `find(v => v.to === to)` never finds the caller's array among the arrays made while generating |
| ServerMoves.MakeMoveAsWritten | packages/server/src/moves.ts:186-216 | as written, `move` never succeeds; once the piece checks pass it fails with "Move is not valid." |
| ServerGame.Replay | packages/server/src/game.ts:60-73 | a successful replay leaves a rectangular board |
| ServerGame.ReplaySide | packages/server/src/game.ts:60-73 | after an even number of replayed moves white is to move, after an odd number black |
| ServerGame.NextParity | packages/server/src/game.ts:60-73 | n + 1 moves are an even count iff n is odd |
| ServerGame.ReplayPrefix | packages/server/src/game.ts:61-69 | a replay that gets through k moves gets through every shorter prefix |
| ServerGame.ReplayHistory | packages/server/src/game.ts:61-69 | the replay loop gives exactly `Replay` |
| ServerGame.ReplayFailureSticks | packages/server/src/game.ts:61-69 | once a prefix of the replay fails, the whole replay fails the same way |
| ServerGame.Game.constructor | packages/server/src/game.ts:32-40 | the record holds the fields it is given |
| ServerGame.CreateGame | packages/server/src/game.ts:32-40 | always a fresh game with white to move, the standard position, an empty history, SAFE and CURRENT |
| ServerGame.Game.SubmitMove | packages/server/src/game.ts:42-53 | fails with nothing changed unless the view is CURRENT; a failing move writes nothing; otherwise the side flips once, one move is appended and the check state is recomputed |
| ServerGame.Game.GotoMove | packages/server/src/game.ts:55-76 | fails with nothing changed unless 0 <= n < history length; otherwise the board is the replay of moves 0..n from the standard position, white is to move iff n is odd, the history is kept and the view is CURRENT iff n is the last move |
| ServerGame.Game.Show | packages/server/src/game.ts:71-74 | writes the replayed board and side, then the check state and view state, unless the check state fails |
| ServerIndex.ToShorthand | packages/server/src/index.ts:12-26 | two characters: a side letter, then a type letter or 'X', with 'X' exactly for a pawn |
| ServerIndex.FromShorthand | packages/server/src/index.ts:28-45 | succeeds iff character 0 is a side letter and character 1 a type letter; otherwise fails with "bad notation!" |
| ServerIndex.ShorthandRoundTrip | packages/server/src/index.ts:12-45 | `fromShorthand(toShorthand(p)) == p` for every non-pawn; a pawn's shorthand is bad notation |
| ServerIndex.ReadShorthand | packages/server/src/index.ts:12-45 | a shorthand read as a non-pawn is that piece's shorthand, up to characters after the second |
| ServerIndex.PieceCodeLetters | packages/server/src/board.ts:51-58 | the board codec's piece code is the side letter and the type letter, 'P' for a pawn |
| ServerIndex.ShorthandIsPieceCode | packages/server/src/index.ts:12-26 | the shorthand equals the board codec's piece code exactly for non-pawns |
| ServerIndex.ReadPieceCode | packages/server/src/index.ts:28-45 | `fromShorthand` reads every piece code of the board codec, pawn included |
| ServerIndex.GenRow | packages/server/src/index.ts:47-59 | a row of `gen` calls succeeds iff every shorthand reads, and then holds the pieces read, in order |
| ServerIndex.GenPieces | packages/server/src/index.ts:50-57 | shorthands that read as given pieces generate the row of those pieces |
| ServerIndex.GenBlackBackRank | packages/server/src/index.ts:50 | row 0 is black's rook, knight, bishop, queen, king, bishop, knight, rook |
| ServerIndex.GenWhiteBackRank | packages/server/src/index.ts:57 | row 7 is white's rook, knight, bishop, queen, king, bishop, knight, rook |
| ServerIndex.GenPawnRows | packages/server/src/index.ts:51-56 | rows 1 and 6 are black's and white's pawns |
| ServerIndex.GenUniform | packages/server/src/index.ts:51-56 | eight copies of a shorthand that reads generate eight copies of its piece |
| ServerIndex.CreateBoardShape | packages/server/src/index.ts:47-59 | `createBoard` succeeds with the standard position (black on rows 0-1, four empty rows, white on rows 6-7), the same board `createStandardBoard` reads |
| ServerIndex.ShortTexts | packages/server/src/index.ts:61-63 | one printed cell per square, in order |
| ServerIndex.PrintRows | packages/server/src/index.ts:65-75 | one printed row per row, in order |
| ServerIndex.PrintBoard | packages/server/src/index.ts:65-75 | `printBoard([])` is '' |
| ServerIndex.RepeatDashes | packages/server/src/index.ts:67 | `'---'.repeat(n)` is 3n dashes |
| ServerIndex.PrintBoardFrame | packages/server/src/index.ts:65-75 | otherwise the printout is a divider of 3 * cols + 1 dashes, the rows separated by dividers, and a final divider |
| ServerIndex.PrintBoardWithoutPawns | packages/server/src/index.ts:61-75 | without pawns the printout is the boxed board form, so `readBoard` reads it back as the board |
| NotatedHistory.Notations | packages/web/src/NotatedHistory.tsx:9-21 | the notations of the history, in order |
| NotatedHistory.SegmentHistoryIntoPairs | packages/web/src/NotatedHistory.tsx:9-21 | ceil(n/2) pairs; pair j is (move 2j, move 2j+1), with the second place empty exactly when 2j+1 == n; the result is `Pairs` of the notations |
| NotatedHistory.PairsByChunk | packages/web/src/NotatedHistory.tsx:9-21 | the recursive pairing has (n+1)/2 rows, and row j holds moves 2j and 2j+1 |
| NotatedHistory.FirstNeverEmpty | packages/web/src/NotatedHistory.tsx:7-18 | no pair has an empty first place, so the `[null, string]` shape never occurs |
| NotatedHistory.FlattenPairs | packages/web/src/NotatedHistory.tsx:9-21 | reading the pairs' moves in order gives the notations back |

## Left out

- Castling, stalemate and the other rules the source does not implement are not modelled.
- BoardText.SerializeBoard, BoardText.SerializeCompressedRow, BoardText.SerializeCompressedBoard, Board.SerializePiece: these functions carry no contract of their own. Their meaning is proved through the round-trip lemmas.
- Utils.ToUpper, Utils.IsUpperCase: only ASCII case mapping is modelled. JavaScript's `toUpperCase` also maps other letters (`é` to `É`, `ß` to `SS`), so the model's `isUpperCase` holds on strings such as `é` where the source's does not. Board parsing, the only place that upper-cases (`readCompressedRow`, packages/core/src/board.ts:150-152), is unaffected: no character other than the ASCII lower-case letters upper-cases to a piece letter, so the reader rejects every other non-ASCII character either way.
- BoardText.CreateStandardBoard, Board.ReadPiece, Board.ReadPieceType, Board.IsBoardValid, Board.Shift, Utils.CountOccurrences, Utils.ReverseMap, Moves.Traversal, Moves.AllFeasibleMoves, Legality.AllValidMoves, ServerMoves.AllPotentialMoves, ServerIndex.CreateBoard, ServerIndex.PrintRow: these functions carry no contract of their own. Their rows name the lemmas that state what they do: `CreateStandardBoardIsStandard`, `ReadSerializedPiece` and `ReadPieceAccepts`, `ReadPieceTypeLetters`, `IsBoardValidMeansRectangular`, `SquareDiff`, `CountOccurrencesIsMultiplicity`, the `ReverseMapGet` lemmas, `TraversalMembers`, `AllFeasibleMovesMembers`, `AllValidMovesMembers`, `AllPotentialMovesMembers`, `CreateBoardShape` and `PrintBoardFrame`.
- ServerMoves.BishopMoves, ServerMoves.RookMoves, ServerMoves.KnightMoves, ServerMoves.QueenMoves, ServerMoves.QueenMovesAsWritten: the server's sliding generators (packages/server/src/moves.ts:32-107) are `SlideMoves` with the piece's type, directions and message, and carry no contract of their own. `SlideMoves`, `KnightAsEngine` and `QueenTypeCheck` state what they do.
- Board.ValidBoard: the engine functions require a rectangular board with at least one row and column. The source assumes this of every board it handles, and `isBoardValid` and the two readers establish it. Behaviour on ragged boards is modelled only where the source checks for it: `readBoard`, `readCompressedBoard`, `isBoardValid` and the server's `serializeSquare`.
- Board.MaxColumns: `serializeSquare` builds the file letter with `String.fromCharCode`. The model requires fewer than 0xD800 - 97 columns, so that the letter is one character below the surrogate range.
- Interpolated error messages are fixed strings in the model: `Piece ${...} is not a bishop` and the like, the core `Square ${square} is not in board.`, which is "Square is not in board.", and the server's `Move ${from}:${to} is not valid.`, which is "Move is not valid.".
- Legality.KeepSafe and ServerMoves.FilterSafeMoves: the filters are proved to keep the moves in their order via `KeptBy`. Membership is stated as an if-and-only-if, but not as an explicit subsequence relation.
- Legality.ExecuteMoveKeepsKingSafe: proved only for moves without an en-passant capture or a promotion. An en-passant capture or a promotion writes a board other than the one `getValidMoves` simulated, and the source promises nothing about it.
- CoreGame.Game.SubmitMove: `packages/core/src/game.ts:2` imports `move` from the core move module, which does not define it. The move step is a parameter of type `MoveStep`; its only assumed property is that it keeps the board rectangular. It also calls `getCheckState(game.currentSide, game.board)` (packages/core/src/game.ts:46), two arguments for the three parameters `(previous, side, board)` of packages/core/src/moves.ts:254. As written the side lands in `previous`, the board in `side` and `board` is undefined. The model calls `GetCheckState(None, currentSide, board)`, the call evidently meant, and does not model the mismatched call.
- CoreGame.Game.ExecuteGameMove: it calls `executeMove(from, to, board)`, which does not match the engine's `executeMove(move, previous, promotePiece, side, board)`. The step is a parameter of type `ExecuteStep`. Its `getCheckState(game.currentSide, game.board)` (packages/core/src/game.ts:54) has the same two-for-three argument mismatch as in `submitMove`, and `GetCheckState(None, currentSide, board)` stands in for it in the same way.
- ServerGame.Game.SubmitMove and ServerGame.Game.GotoMove: the server game calls `move(from, to, side, board)`, while the server `move` is declared `(board, side, from, to)`. The step is a parameter, and `ServerMoves.MakeMove` with its arguments in the declared order is the step meant. The server move module does not define the `getCheckState` the game imports, so the core `getCheckState` with no previous move stands in.
- ServerMoves: `packages/server/src/moves.ts:2` imports `getEnemySide` and `mutateBoard`, which `packages/server/src/board.ts` does not define. The core versions are used; `ServerBoard.OppositeInvolution` shows the server's own `opposite` is the same function.
- ServerMoves.ServerTraversalMembers: the server's traversal and king loops are the core engine's with the taken square dropped. They are modelled through the core functions (`StripAll`) rather than as separate loops.
- ServerMoves.MakeMoveSucceeds: it states when `move` succeeds, but not which of its error messages a failure carries.
- ServerBoard: the server's piece codec, boxed board codec, `findPieces` filter, `atSquare`, `isBoardValid`, `shift` and its own copies of `countOccurrences`, `range` and `reverseMap` are the same code as the core package's, and are modelled once, in `Board`, `BoardText` and `Utils`.
- ServerIndex.PrintBoardWithoutPawns: the printout is related to the board codec only for boards without pawns, since pawns print as 'X'.
- NotatedHistory.HistoryEntry keeps only the notation of a history move; the function reads nothing else.
- Logging (`logger.info`, `console.log`) is output only and is left out.

## Findings

| source | as written | input that shows it | evidently intended | confidence | as-written member | corrected member |
|---|---|---|---|---|---|---|
| packages/core/src/board.ts:166-182 | a run of ten or more empty squares is written as one decimal number, which `readCompressedRow` reads digit by digit | a row of ten empty squares is written "10", read as one empty square and then a '0' that is no piece letter | every board reads back from its compressed form | not executed | BoardText.TenEmptySquaresDoNotRoundTrip | BoardText.CompressedBoardSplitRunsRoundTrip |
| packages/server/src/moves.ts:97-107 | `getQueenMoves` throws unless the piece is a knight | any board where the enemy has a queen: `isCheck` throws, and so does every `getValidMoves` whose simulation calls it | the check is for a queen | not executed | ServerMoves.ValidMovesFailWithEnemyQueen | ServerMoves.ValidMovesSucceed |
| packages/server/src/moves.ts:191 | `validMoves.find(v => v.to === to)` compares arrays by identity | any legal move, e.g. a pawn's one-step advance: the caller's `to` array is never one the generator made | the target is compared by value | not executed | ServerMoves.MakeMoveAsWritten | ServerMoves.MakeMoveSucceeds |
