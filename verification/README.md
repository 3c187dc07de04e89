# Chess rules engine and material search, modelled in Dafny

This project models the rules engine and the computer player of a small Python chess
program:

- the game state (`GameState`): an 8x8 board of two-character square codes, the side to
  move, the move log, both king locations, the checkmate and stalemate flags, the pins
  and checks of the last legality pass, the en-passant target and its log, and the
  castling rights and their log;
- making and taking back moves (`makeMove`, `undoMove`, `updateCastleRights`);
- the pseudo-legal generators for pawns, rooks, knights, bishops, queens and kings,
  including castling;
- the attack analysis (`squareUnderAttack`, `checkForPinsAndChecks`);
- the legality filter (`getValidMoves`), which sets the end-of-game flags;
- the move value (`Move`): its key `moveID`, equality by key, and coordinate notation;
- the computer player: `scoreMaterial`, `findRandomMove` and the two-ply
  `findBestMove`.

The model is functional. A `GameState` is an immutable datatype. Every generator takes
a state and returns the state it leaves behind, together with the moves it lists. The
pin list the generators consume is threaded through that state. The loops of
`findBestMove` are methods over the same pure functions.

The modules follow the program's structure:

| module | file | what it holds |
|---|---|---|
| `Wrappers` | wrappers.dfy | `Option` |
| `Pieces` | pieces.dfy | squares, boards, square codes, `getBoardString` |
| `Moves` | moves.dfy | `Move`, `moveID`, `__eq__`, rank/file notation, `__str__` |
| `Analysis` | analysis.dfy | `squareUnderAttack`, `checkForPinsAndChecks` |
| `State` | state.dfy | `GameState`, `CastleRights`, the constructor, state invariants |
| `Transitions` | transitions.dfy | `makeMove`, `undoMove`, `updateCastleRights` |
| `Generator` | generator.dfy | pawn, rook, knight, bishop and queen generators |
| `Kings` | kings.dfy | `getKingMoves` and the castle generators |
| `Legality` | legality.dfy | `getAllPossibleMoves`, `getValidMoves` |
| `AI` | ai.dfy | `scoreMaterial`, `findRandomMove`, `findBestMove` |

Each generator has a partner. It is a reference description of the moves it should
list, written without the generator's loop: a slide over empty squares, a knight jump,
a safe king step, a castle with its conditions. An `...Exact` lemma proves that the
generator lists exactly those moves. The ray scans of the attack analysis are related
in the same way to reference descriptions of an attack, a check and a pin.

## Behaviour of the code that the model keeps

The model follows the code where it differs from textbook chess or from its own
comments:

- `makeMove` never appends to the en-passant log, but `undoMove` pops it. After any
  undo the en-passant target is therefore empty, not the previous target
  (`Transitions.UndoMoveBookkeeping`).
- Undoing an en-passant capture puts the captured pawn back on the landing square as
  well. It then clears `(endRow, startCol)` rather than the landing square
  (`Transitions.EnpassantUndo`).
- After an undo, the current castling-rights object *is* the last entry of the rights
  log. Later moves change that logged entry in place. The model records this identity
  in `rightsAlias`.
  - `Transitions.RightsAfterUndo` says exactly when make followed by undo restores
    the rights.
  - `Transitions.KingMoveUndoLosesRights` shows a case where it does not.
- While in check, the moves are generated before the pins are recomputed, so the
  generators use the pins of the previous pass (`Legality.GetValidMovesSingleCheck`).
- In double check the king moves are appended to the full pseudo-legal list
  (`Legality.GetValidMovesDoubleCheck`).
- A pinned rook captures only in the pin direction. A pinned bishop captures in both
  directions of its pin line (`Generator.RookMovesExact`, `Generator.BishopMovesExact`).
- The en-passant exposure test counts any piece beyond the enemy rook or queen as a
  blocker. So it allows a capture that exposes the king
  (`Generator.EnpassantVetoBlockedFromBehind`).
- `squareUnderAttack` does not look for knights. A king in check from a knight can
  therefore still castle, and the single-check filter keeps the castle because it is a
  king move (`Legality.CastleOutOfKnightCheck`).
- The king-step probe moves the recorded king location and puts it back on the
  square the generator runs for. That is not always where it was (`Kings.KingMoves`).
- An empty list of valid moves sets only one of the two flags and leaves the other as
  it was (`Legality.GetValidMovesFlags`).
- `pieceScore` values a queen at 10 (`AI.PieceScore`).
- A player move after which the opponent has no reply scores -`CHECKMATE`, whether
  the opponent is mated or stalemated (`AI.Play`, `AI.NoReplyPreferred`).
- Inside `findBestMove`, each legality pass may move the recorded king location and
  consumes pins. So every reply is made from the state the previous one left behind
  (`AI.OpponentMax`).

## Model

| member | source | states |
|---|---|---|
| State.NewGame | chess/chessEngine.py:47-69 | The constructor's state: an 8x8 board with white to move and an empty move log. Each king's recorded location holds that king. All four castling rights are held, with a one-entry rights log. There is no en-passant target, and the en-passant log holds one empty entry. Both flags are clear, with no pins or checks. |
| State.NewGameConsistent | chess/chessEngine.py:47-69 | The initial state satisfies the invariant every reachable state keeps: the logs grow in step and the current rights equal the last logged rights. |
| State.NewGameWellFormed | chess/chessEngine.py:19-27 | The start position satisfies the conditions under which the generators index only inside the board. |
| Pieces.CodeRoundTrip | chess/chessEngine.py:14-27 | Every square's two-character code reads back to that square, so different squares have different codes. |
| Pieces.BoardStringRoundTrip | chess/chessEngine.py:678-684 | The board string of an 8x8 board has 128 characters and reads back to the board. |
| Pieces.BoardStringInjective | chess/chessEngine.py:678-684 | Two 8x8 boards have the same board string exactly when they are the same board. |
| Moves.EqualIffSameEndpoints | chess/chessEngine.py:759-762 | For moves with on-board squares, equality by `moveID` holds exactly when both start squares and both end squares coincide, so the key is injective. |
| Moves.CreateIdentityIgnoresBoard | chess/chessEngine.py:720-736 | A move built for two squares starts and ends on them. It equals any other move built for the same squares, whatever the board and the en-passant and castle flags. |
| Moves.RankFileRoundTrip | chess/chessEngine.py:775-777 | The file-then-rank name of an on-board square reads back to that square, and it is the only name that does. |
| Moves.NotationMatchesEquality | chess/chessEngine.py:767-769 | Two on-board moves have the same coordinate notation exactly when they are equal under `__eq__`. |
| Moves.PieceNotationReadsBack | chess/chessEngine.py:781-785 | The piece notation can be read back. For a pawn it is four characters: the start square's name followed by the end square's. For any other piece it is two characters: a letter that names the piece's kind, followed by the file of the given column. |
| Moves.MoveString | chess/chessEngine.py:791-813 | A castle prints as `O-O` when it ends on column 6 and as `O-O-O` otherwise. Any other move ends with its destination's name, and contains `x` exactly when it captures. |
| Transitions.MakeMoveBookkeeping | chess/chessEngine.py:77-118 | A move appends exactly itself to the move log and exactly the new rights to the rights log, and flips the side to move. It leaves the en-passant log, both flags, `inCheck`, the pins and the checks as they were. |
| Transitions.MakeMoveConsistent | chess/chessEngine.py:77-118 | Making an applicable move keeps the state invariant and leaves a move that can be taken back. |
| Transitions.EnpassantTargetAfterMove | chess/chessEngine.py:100-104 | After a move, there is an en-passant target exactly when a pawn moved two rows. The target is then the square it skipped, in its start column. |
| Transitions.RightsAfterMove | chess/chessEngine.py:174-192 | Each right after a move is the right before it, lost only through a king move of that colour or a rook leaving that corner. A right never turns from false to true, and every other right is unchanged. |
| Transitions.UndoMoveBookkeeping | chess/chessEngine.py:128-167 | Taking back a move removes the last move and one rights entry, flips the side to move and clears both flags. It leaves no en-passant target and makes the current rights the last logged entry. |
| Transitions.UndoMoveConsistent | chess/chessEngine.py:128-167 | Taking back a move keeps the state invariant. |
| Transitions.UndoEmptyLogNoOp | chess/chessEngine.py:128-129 | With an empty move log, `undoMove` changes nothing. |
| Transitions.UndoMakeBoard | chess/chessEngine.py:130-132 | For a non-castle, non-en-passant move recorded with the pieces on its squares, taking the move back restores the board. |
| Transitions.UndoMakeCastleBoard | chess/chessEngine.py:157-165 | For a castle two columns along one rank whose rook landing square was empty, taking the move back restores the board, rook included. |
| Transitions.UndoAfterMake | chess/chessEngine.py:77-167 | For a move that is not en passant, is recorded with the pieces on its squares, and (for a castle) had its rook landing square empty, make followed by undo restores the board, the side to move, the move log, both king locations and the rights log's length. |
| Transitions.RightsAfterUndo | chess/chessEngine.py:153-155 | Make followed by undo restores the castling rights exactly when the current rights object is not the last log entry, or the move changes no right. |
| Transitions.KingMoveUndoLosesRights | chess/chessEngine.py:83-86 | When the current rights object is the last log entry, a white king move followed by undo leaves white without both castling rights. |
| Transitions.EnpassantUndo | chess/chessEngine.py:142-144 | Taking back an en-passant capture puts the captured pawn both beside the start square and on the landing square, empties `(endRow, startCol)`, and puts the moving pawn back. |
| Analysis.SquareUnderAttackExact | chess/chessEngine.py:258-290 | A square is reported under attack exactly when some enemy piece attacks it along one of the eight directions across empty squares. |
| Analysis.RayAttackedExact | chess/chessEngine.py:264-290 | The scan of one direction from distance `i0` reports an attack exactly when, at some distance, an attacking enemy piece stands behind only empty squares. |
| Analysis.ScanRayCheckExact | chess/chessEngine.py:631-658 | The scan of one ray from the king reports a check exactly when an attacker stands behind squares that are empty or hold the king. The reported square is that attacker's. |
| Analysis.ScanRayPinExact | chess/chessEngine.py:631-658 | The scan of one ray reports a pin whenever a single allied non-king piece stands between the king and an attacker, and any pin it reports is such a piece. |
| Analysis.PinUnique | chess/chessEngine.py:631-658 | Along one ray there is at most one pinned piece. |
| Analysis.CheckUnique | chess/chessEngine.py:631-658 | Along one ray there is at most one checking piece. |
| Analysis.ScanAllPins | chess/chessEngine.py:629-658 | Every recorded pin is an allied non-king piece pinned on a ray from the king, and every such pin is recorded. |
| Analysis.ScanAllPinsDistinct | chess/chessEngine.py:629-658 | The recorded pins have pairwise different directions, so there is at most one per direction. |
| Analysis.ScanAllChecks | chess/chessEngine.py:629-658 | Every recorded ray check is an attacker on a ray from the king, and every such check is recorded. |
| Analysis.KnightChecks | chess/chessEngine.py:661-670 | The knight checks are at most eight. Each is an enemy knight a knight's jump from the king, and every such knight is listed. |
| Analysis.CheckedExact | chess/chessEngine.py:613-672 | The ray and knight checks together are non-empty exactly when the king is attacked by a ray piece or a knight. |
| Analysis.CheckForPinsAndChecks | chess/chessEngine.py:613-672 | `inCheck` holds exactly when `checks` is non-empty, and exactly when the king's square is attacked. There are at most 8 pins and at most 16 checks. The pins are exactly the allied non-king pieces pinned to the king, at most one per direction. The checks are exactly the ray and knight attackers of the king's square. |
| Generator.TakePinExact | chess/chessEngine.py:426-433 | Looking up a piece in the pin list finds a pin exactly when the list holds an entry for its square, and reports that entry's direction. The list shrinks by one entry exactly when a pin is found and removal is asked for, and it never gains an entry. |
| Generator.RemoveFirst | chess/chessEngine.py:321 | Removing an element from a list that holds it takes out exactly one copy; a list that does not hold it is unchanged. |
| Generator.RemoveFirstAt | chess/chessEngine.py:321 | The copy removed is the first: the result is the list with the element's first occurrence cut out and everything else in order. |
| Generator.RayMovesExact | chess/chessEngine.py:438-463 | One direction of a sliding generator lists exactly the slides over empty squares onto an empty or enemy square that the pin allows. |
| Generator.SlideMovesExact | chess/chessEngine.py:438-463 | A sliding generator lists exactly the slides the pin allows, along its directions. |
| Generator.RookMovesExact | chess/chessEngine.py:424-463 | The rook generator lists exactly the pin-allowed slides along the four orthogonal directions. A pinned rook captures only in the pin direction, and a queen's pin stays in the list. |
| Generator.BishopMovesExact | chess/chessEngine.py:501-535 | The bishop generator lists exactly the pin-allowed slides along the four diagonals. A pinned bishop may capture in both directions of its pin line. |
| Generator.PinnedSlideOnLine | chess/chessEngine.py:446 | Every destination of a pinned sliding piece lies on its pin line, 1 to 7 squares away in the pin direction or the opposite one. |
| Generator.KnightMovesExact | chess/chessEngine.py:471-494 | A pinned knight has no moves. An unpinned knight lists exactly its jumps onto on-board squares that are empty or hold an enemy. |
| Generator.PawnMovesSound | chess/chessEngine.py:314-418 | Every listed pawn move starts on the pawn's square. It is one of three things: a step one row forward onto an empty square; a two-row step from the start row across two empty squares; or a diagonal step that lands on an enemy piece or, en passant, on the en-passant target with the veto's consent. A pinned pawn moves only in its pin direction, so a pin along the file allows only the straight steps. |
| Generator.PawnCapturesSound | chess/chessEngine.py:356-418 | One capture side lists only a diagonal step in the pin's direction, onto an enemy piece or, en passant, onto the target square with the veto's consent. |
| Generator.PawnAdvanceListed | chess/chessEngine.py:347-355 | A pawn that is unpinned or pinned along its file steps onto an empty square ahead. From the start row it also steps two rows when the second square is empty. |
| Generator.PawnCaptureListed | chess/chessEngine.py:357-418 | A pawn that is unpinned or pinned along a diagonal captures an enemy piece on that diagonal square. It captures en passant onto the target square there unless the veto objects. |
| Generator.EnpassantVetoBlockedFromBehind | chess/chessEngine.py:367-384 | On a concrete board, the en-passant capture is allowed although an enemy rook would then attack the king along the rank, because a knight beyond the rook counts as a blocker. |
| Kings.KingStepsExact | chess/chessEngine.py:551-577 | The king steps listed are exactly the on-board steps onto a square without an allied piece on which no enemy ray piece or knight would give check, with the king still counted on its start square. |
| Kings.CastleMovesExact | chess/chessEngine.py:585-611 | A castle is listed exactly when all of these hold: the king's square is not attacked along a ray; the right is held; the squares between king and rook (two, or three on the queen side) are empty; and the two squares the king crosses are not attacked along a ray. Knights are not looked for. The castle moves the king two columns and is flagged as a castle. |
| Kings.KingMovesExact | chess/chessEngine.py:551-578 | The king generator lists exactly the safe king steps and the castles of the side to move that the reference description allows. |
| Kings.KingMoves | chess/chessEngine.py:551-578 | The king generator changes no part of the state except the side's recorded king location, which afterwards is either as before or the square the generator ran for. Every listed move starts from that square. |
| Kings.KingMovesKeepsState | chess/chessEngine.py:551-578 | When the recorded king location already is the square the generator runs for, the state is left as it was. |
| Legality.PieceMoves | chess/chessEngine.py:298-306 | The generator chosen by the piece kind changes only the pins and the side's recorded king location. Every move it lists starts on the piece's square and records that piece. |
| Legality.AllPossibleMoves | chess/chessEngine.py:298-306 | All listed moves belong to pieces of the side to move, in row-major order of their start squares. The pass keeps the generator conditions and changes only the pins and the recorded king location. |
| Legality.PruneIsFilter | chess/chessEngine.py:232-235 | The backward loop that removes moves by `__eq__` leaves exactly the moves that are king moves or end on a valid square, in their order. |
| Legality.SquaresTowardRay | chess/chessEngine.py:224-229 | The squares walked from the king toward a ray attacker are exactly the squares 1 to `i` steps along the check direction. |
| Legality.ValidSquaresRay | chess/chessEngine.py:217-229 | For a ray check, the squares a move may end on are the squares from the king up to and including the attacker. |
| Legality.ValidSquaresKnight | chess/chessEngine.py:222-223 | For a knight check, the only square a move may end on is the knight's. |
| Legality.GetValidMovesFrame | chess/chessEngine.py:202-205 | A legality pass changes only the pins, checks, `inCheck`, the recorded king location and the flags. `inCheck` holds exactly when the king is attacked, and exactly when checks were found. |
| Legality.GetValidMovesSingleCheck | chess/chessEngine.py:212-235 | Under a single check, the king location stays where generation left it and the checking square is on the board. The valid moves are the generated moves, computed with the previous pins, that move the king or end between the king and the attacker. |
| Legality.RespondSingleCheck | chess/chessEngine.py:205-235 | After the analysis finds a single check, the moves kept are exactly the given moves that move the king or end on a valid square. |
| Legality.GetValidMovesDoubleCheck | chess/chessEngine.py:236-237 | Under two or more checks, the valid moves are all the generated moves followed by the king moves again. |
| Legality.GetValidMovesNoCheck | chess/chessEngine.py:238-239 | When not in check, the valid moves are a fresh generation pass run with the pins just computed. |
| Legality.CastleOutOfKnightCheck | chess/chessEngine.py:232-235 | On a concrete board, a king checked by a knight still has its castle generated. The single-check filter keeps that castle, because it is a king move, although the only valid square is the knight's. |
| Legality.GetValidMovesFlags | chess/chessEngine.py:241-248 | With no valid moves, checkmate is set when in check and stalemate otherwise, and the other flag keeps its value. With valid moves, both flags are cleared. |
| AI.PieceScore | chess/ChessAI.py:7 | Every piece is worth at most 10 points, and only the king is worth nothing. |
| AI.ScoreMaterialSplit | chess/ChessAI.py:73-84 | The material score is white's material minus black's, each at most 80 per row. |
| AI.ScoreBound | chess/ChessAI.py:73-84 | The material score of an 8x8 board lies between -640 and 640, well inside `CHECKMATE`. |
| AI.ScoreSwapNegates | chess/ChessAI.py:73-84 | Swapping the colour of every piece negates the material score. |
| AI.StartBoardLevel | chess/ChessAI.py:73-84 | The start position scores 0. |
| AI.FindRandomMove | chess/ChessAI.py:15-18 | There is no move exactly when the list is empty; otherwise the result is one of the listed moves. |
| AI.ScoreForSide | chess/ChessAI.py:52 | Multiplied by the turn multiplier, the material score is the side to move's material minus its opponent's. Negated, it is the opponent's material minus the side's own, which is how a reply is scored. |
| AI.Reply | chess/ChessAI.py:44-58 | Making a reply, scoring it and taking it back restores the move log and the turn and sets the saved flags. The score is the mate score or the stalemate score when the flags say so, and otherwise the material after the reply, within ±640. |
| AI.MaterialAfterBound | chess/ChessAI.py:52 | The material score after a reply, seen from either side, lies within ±640. |
| AI.OpponentMax | chess/ChessAI.py:38-58 | The opponent loop returns the move log and turn it started with, and the saved flags when there was a reply. Its result is the maximum of -`CHECKMATE` and one score per reply. When neither flag was set on entry nor in the saved pair, each score is the material after that reply. The replies run in a chain: the first is made from the starting state, each later one from the state the previous reply left once taken back with the saved flags, and the loop ends in the state the last one left. |
| AI.Advance | chess/ChessAI.py:36-37 | Making a player move and generating the replies appends the move to the log and flips the turn. When there are replies, neither flag is set. |
| AI.Play | chess/ChessAI.py:35-63 | One turn of the player loop restores the move log, the turn and the original flags. The replies are the valid moves of the position after the player move. The move's score is the largest of -`CHECKMATE` and one score per reply, each the material after that reply from the opponent's side. So it is -`CHECKMATE` when the opponent has no reply, and within ±640 otherwise. The replies run in a chain from the position after the move, and the state returned is the state the last reply left, taken back once more, with the original flags. |
| AI.FindBestMove | chess/ChessAI.py:25-69 | The search restores the move log, the turn and both flags. It records one evaluation per move in shuffled order. The first move is played from the starting state and each later one from the state the previous turn left, which is also the state the search leaves after the last. Each move's replies are the valid moves after it, and its score is the maximum, over those replies, of the material after the reply from the opponent's side, or -`CHECKMATE` without a reply. It returns nothing exactly when there are no valid moves, and otherwise a valid move. That move is the first, in shuffled order, with the smallest score. |
| AI.SearchResultUnique | chess/ChessAI.py:25-69 | Once the shuffle is fixed, everything the search promises determines its result: two results for the same state and shuffled order have the same evaluations, leave the same state and choose the same move. |
| AI.EvalUnique | chess/ChessAI.py:35-63 | One turn of the player loop is determined by the state it starts in and the move: the replies, the states they are made from, their scores, the move's score and the state the turn leaves are the same. |
| AI.ChainedAgree | chess/ChessAI.py:44-58 | Two runs of the opponent loop from the same state through the same replies pass through the same states. |
| AI.FirstMinimumUnique | chess/ChessAI.py:65-67 | At most one entry is the first with the lowest score, so the strict `<` picks a single move. |
| AI.NoReplyPreferred | chess/ChessAI.py:65-67 | When some player move leaves the opponent no reply, the chosen move also leaves no reply and scores -`CHECKMATE`. |

## Left out

- `chessMain.py` (window, images, mouse input) is not part of this model: it is I/O.
- `random.shuffle` and `random.randint` are parameters. `FindBestMove` receives the
  shuffled order as any permutation of the valid moves. `FindRandomMove` receives the
  drawn index.
- `random.shuffle` reorders the caller's `validMoves` list in place
  (chess/ChessAI.py:29). The model leaves `validMoves` as it was and does not return the
  shuffled order to the caller.
- The unused second board, the unused `score` field, and the branches for
  `playerWantsToPlayAsBlack` are left out. That flag is always false, so white moves up
  the board.
- The throwaway game state built inside the `Move` constructor is left out.
- Pawn promotion is commented out in the source and is not modelled. `isPawnPromotion`
  is kept as a field-level predicate only.
- Inputs on which the Python code would raise an index error or silently index from
  the other end of a list are excluded by preconditions:
  - `WellFormed`: an 8x8 board, no pawn of the side to move on its last rank, the
    side's king recorded on the board, and the castling probes of a held right staying
    on the board.
  - `Applicable`: the move's squares, and a castle's rook squares, on the board.
  - `CanUndo`: a move to take back has on-board squares.
- AI.FindBestMove: its result is `Fault` when a move or a position reached during the
  search falls outside those preconditions. Nothing is proved about when that happens;
  every guarantee is about the `Ok` result.
- AI.OpponentMax: each score is related to the material after the reply only when
  neither flag was set on entry. With a flag set, a reply scores the mate or stalemate
  score instead, which `AI.Reply` states per call.
- Transitions.UndoAfterMake: the castling rights and the en-passant target are not in
  the restored fields. `Transitions.RightsAfterUndo` and
  `Transitions.UndoMoveBookkeeping` state what they become.
- Legality.GetValidMovesNoCheck: it relates the valid moves to a second generation pass,
  not to a description of legal chess moves, because that is what the code computes.
- `getQueenMoves` is the queen case of `Legality.PieceMoves` (the rook generator, then
  the bishop generator). It has no separate lemma.
- `squareUnderAttack` falls off its end and returns `None` when no attack is found. The
  model returns false there.
