/** The game state of the rules engine: the board, the side to move, the move log,
    both king locations, the end-of-game flags, the pins and checks found by the last
    legality pass, the en-passant target with its log, and the castling rights with
    their log.

    The engine keeps the current castling rights in a mutable object.  After an undo
    that object IS the last entry of the rights log, so later moves mutate a logged
    entry in place.  `rightsAlias` records that identity: `Some(k)` when the current
    rights object is entry `k` of the log, `None` while it is a private copy. */
module State {
  import opened Wrappers
  import opened Pieces
  import opened Moves
  import opened Analysis

  /** King-side and queen-side castling rights for white and black. */
  datatype CastleRights = CastleRights(wks: bool, bks: bool, wqs: bool, bqs: bool)

  const AllRights: CastleRights := CastleRights(true, true, true, true)

  datatype GameState = GameState(
    board: Board,
    whiteToMove: bool,
    moveLog: seq<Move>,
    whiteKing: (int, int),
    blackKing: (int, int),
    checkMate: bool,
    staleMate: bool,
    inCheck: bool,
    pins: seq<Ray>,
    checks: seq<Ray>,
    enpassantPossible: Option<(int, int)>,
    enpassantLog: seq<Option<(int, int)>>,
    rights: CastleRights,
    rightsLog: seq<CastleRights>,
    rightsAlias: Option<nat>)
  {
    /** The colour of the side to move. */
    function Side(): Color {
      SideColor(whiteToMove)
    }

    /** The recorded location of the king of colour `c`. */
    function KingOf(c: Color): (int, int) {
      if c == White then whiteKing else blackKing
    }

    function WithKing(c: Color, loc: (int, int)): GameState {
      if c == White then this.(whiteKing := loc) else this.(blackKing := loc)
    }

    /** The side to move may still castle king-side / queen-side. */
    predicate KingSideRight() {
      if whiteToMove then rights.wks else rights.bks
    }

    predicate QueenSideRight() {
      if whiteToMove then rights.wqs else rights.bqs
    }
  }

  function Last<T>(s: seq<T>): T
    requires |s| > 0
  {
    s[|s| - 1]
  }

  /** The constructor: the start position, white to move, kings on e1 and e8, every
      castling right held, no en-passant target, and one-entry en-passant and rights logs. */
  function NewGame(): (gs: GameState)
    ensures IsBoard(gs.board) && gs.whiteToMove && gs.moveLog == []
    ensures OnBoard(gs.whiteKing.0, gs.whiteKing.1) && At(gs.board, gs.whiteKing.0, gs.whiteKing.1) == Piece(White, King)
    ensures OnBoard(gs.blackKing.0, gs.blackKing.1) && At(gs.board, gs.blackKing.0, gs.blackKing.1) == Piece(Black, King)
    ensures gs.rights == AllRights && gs.rightsLog == [AllRights] && gs.rightsAlias == None
    ensures gs.enpassantPossible == None && gs.enpassantLog == [None]
    ensures !gs.checkMate && !gs.staleMate && !gs.inCheck && gs.pins == [] && gs.checks == []
  {
    GameState(StartBoard(), true, [], (7, 4), (0, 4), false, false, false, [], [],
              None, [None], AllRights, [AllRights], None)
  }

  /** What every reachable state satisfies: an 8x8 board, kings recorded on the board,
      takeable logged moves, one more rights entry than logged moves, current rights
      equal to the last entry (and to the aliased entry when there is one), and an
      en-passant log that only ever holds its initial empty entry, because moves
      never append to it. */
  predicate Consistent(gs: GameState) {
    && IsBoard(gs.board)
    && OnBoard(gs.whiteKing.0, gs.whiteKing.1)
    && OnBoard(gs.blackKing.0, gs.blackKing.1)
    && (forall k | 0 <= k < |gs.moveLog| :: Applicable(gs.moveLog[k]))
    && |gs.rightsLog| == |gs.moveLog| + 1
    && gs.rights == Last(gs.rightsLog)
    && (gs.rightsAlias.Some? ==> gs.rightsAlias.value < |gs.rightsLog| && gs.rightsLog[gs.rightsAlias.value] == gs.rights)
    && |gs.enpassantLog| <= 1
    && (forall k | 0 <= k < |gs.enpassantLog| :: gs.enpassantLog[k] == None)
  }

  lemma NewGameConsistent()
    ensures Consistent(NewGame())
  {
  }

  /** The row a pawn of colour `c` would promote on. */
  function LastRank(c: Color): int {
    if c == White then 0 else 7
  }

  /** A king standing in column `col` can look two (king side) or three (queen side)
      squares along its rank without leaving the board when the right is held. */
  predicate CastleColumnOk(gs: GameState, col: int) {
    && (gs.KingSideRight() ==> col <= 5)
    && (gs.QueenSideRight() ==> col >= 3)
  }

  /** The move generator indexes the board only inside it: an 8x8 board, no pawn of the
      side to move on its last rank (it would look one row past the edge), the side's
      king recorded on the board, and every king of the side to move (on the board or
      recorded) in a column from which the castling probes of a held right stay on
      the board. */
  predicate WellFormed(gs: GameState) {
    && IsBoard(gs.board)
    && (forall c | 0 <= c < 8 :: At(gs.board, LastRank(gs.Side()), c) != Piece(gs.Side(), Pawn))
    && OnBoard(gs.KingOf(gs.Side()).0, gs.KingOf(gs.Side()).1)
    && CastleColumnOk(gs, gs.KingOf(gs.Side()).1)
    && (forall r, c | 0 <= r < 8 && 0 <= c < 8 && At(gs.board, r, c) == Piece(gs.Side(), King) :: CastleColumnOk(gs, c))
  }

  lemma NewGameWellFormed()
    ensures WellFormed(NewGame())
  {
    var gs := NewGame();
    forall r, c | OnBoard(r, c) && At(gs.board, r, c) == Piece(White, King) ensures c == 4 {
      assert r == 7 && BackRank[c] == King;
    }
  }
}
