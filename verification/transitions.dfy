/** Making and taking back a move: `makeMove`, `undoMove` and the castling-rights
    update, with the properties they keep and the places where taking a move back
    does not restore what making it changed. */
module Transitions {
  import opened Wrappers
  import opened Pieces
  import opened Moves
  import opened State

  function Abs(x: int): nat {
    if x < 0 then -x else x
  }

  /** The king clause inside `makeMove`: a king move clears both rights of its colour. */
  function ClearKingRights(cr: CastleRights, m: Move): CastleRights {
    if m.pieceMoved == Piece(White, King) then cr.(wks := false, wqs := false)
    else if m.pieceMoved == Piece(Black, King) then cr.(bks := false, bqs := false)
    else cr
  }

  /** `updateCastleRights`: a king move clears both rights of its colour; a rook leaving
      its home corner clears the right on that side. */
  function UpdateCastleRights(cr: CastleRights, m: Move): CastleRights {
    if m.pieceMoved == Piece(White, King) then cr.(wks := false, wqs := false)
    else if m.pieceMoved == Piece(Black, King) then cr.(bks := false, bqs := false)
    else if m.pieceMoved == Piece(White, Rook) then
      if m.startRow == 7 then
        if m.startCol == 0 then cr.(wqs := false)
        else if m.startCol == 7 then cr.(wks := false)
        else cr
      else cr
    else if m.pieceMoved == Piece(Black, Rook) then
      if m.startRow == 0 then
        if m.startCol == 0 then cr.(bqs := false)
        else if m.startCol == 7 then cr.(bks := false)
        else cr
      else cr
    else cr
  }

  /** The rights after a move: the king clause, then `updateCastleRights`. */
  function NewRights(cr: CastleRights, m: Move): CastleRights {
    UpdateCastleRights(ClearKingRights(cr, m), m)
  }

  /** The en-passant target a move leaves behind: the square a pawn skipped over on a
      two-row advance, and none after any other move. */
  function EnpassantTarget(m: Move): Option<(int, int)> {
    if m.pieceMoved.Piece? && m.pieceMoved.kind == Pawn && Abs(m.startRow - m.endRow) == 2
    then Some(((m.startRow + m.endRow) / 2, m.startCol))
    else None
  }

  /** The board after `makeMove`: the start square emptied, the moved piece on the end
      square, the pawn beside the start square removed for an en-passant capture, and
      the rook carried across the king for a castle. */
  function MakeBoard(b: Board, m: Move): (b': Board)
    requires IsBoard(b) && Applicable(m)
    ensures IsBoard(b')
  {
    var b1 := Put(b, m.startRow, m.startCol, Empty);
    var b2 := Put(b1, m.endRow, m.endCol, m.pieceMoved);
    var b3 := if m.isEnpassantMove then Put(b2, m.startRow, m.endCol, Empty) else b2;
    if !m.isCastleMove then b3
    else if m.endCol - m.startCol == 2 then
      Put(Put(b3, m.endRow, m.endCol - 1, At(b3, m.endRow, m.endCol + 1)), m.endRow, m.endCol + 1, Empty)
    else
      Put(Put(b3, m.endRow, m.endCol + 1, At(b3, m.endRow, m.endCol - 2)), m.endRow, m.endCol - 2, Empty)
  }

  /** The rights log after a move: when the current rights object is a logged entry, that
      entry is overwritten with the new rights too; a copy of the new rights is appended. */
  function LogRights(log: seq<CastleRights>, alias: Option<nat>, cr: CastleRights): seq<CastleRights> {
    var shared := match alias
      case Some(k) => if k < |log| then log[k := cr] else log
      case None => log;
    shared + [cr]
  }

  /** `makeMove`. */
  function MakeMove(gs: GameState, m: Move): (gs': GameState)
    requires IsBoard(gs.board) && Applicable(m)
    ensures IsBoard(gs'.board)
  {
    var cr := NewRights(gs.rights, m);
    gs.(board := MakeBoard(gs.board, m),
        moveLog := gs.moveLog + [m],
        whiteToMove := !gs.whiteToMove,
        whiteKing := if m.pieceMoved == Piece(White, King) then (m.endRow, m.endCol) else gs.whiteKing,
        blackKing := if m.pieceMoved == Piece(Black, King) then (m.endRow, m.endCol) else gs.blackKing,
        enpassantPossible := EnpassantTarget(m),
        rights := cr,
        rightsLog := LogRights(gs.rightsLog, gs.rightsAlias, cr))
  }

  /** The board after `undoMove` of `m`: the moved piece back on the start square, the
      recorded captured piece on the end square; for en passant the square at the end
      row and start column is emptied and the captured pawn also written beside the
      start square; for a castle the rook is carried back. */
  function UndoBoard(b: Board, m: Move): (b': Board)
    requires IsBoard(b) && Applicable(m)
    ensures IsBoard(b')
  {
    var b1 := Put(b, m.startRow, m.startCol, m.pieceMoved);
    var b2 := Put(b1, m.endRow, m.endCol, m.pieceCaptured);
    var b3 := if m.isEnpassantMove then Put(Put(b2, m.endRow, m.startCol, Empty), m.startRow, m.endCol, m.pieceCaptured) else b2;
    if !m.isCastleMove then b3
    else if m.endCol - m.startCol == 2 then
      Put(Put(b3, m.endRow, m.endCol + 1, At(b3, m.endRow, m.endCol - 1)), m.endRow, m.endCol - 1, Empty)
    else
      Put(Put(b3, m.endRow, m.endCol - 2, At(b3, m.endRow, m.endCol + 1)), m.endRow, m.endCol + 1, Empty)
  }

  /** The precondition under which `undoMove` indexes nothing out of range: with a move
      to take back, that move's squares are on the board and the rights log still has
      an entry after popping one. */
  predicate CanUndo(gs: GameState) {
    IsBoard(gs.board) && (|gs.moveLog| > 0 ==> Applicable(Last(gs.moveLog)) && |gs.rightsLog| >= 2)
  }

  /** `undoMove`; with an empty move log nothing changes. */
  function UndoMove(gs: GameState): (gs': GameState)
    requires CanUndo(gs)
    ensures IsBoard(gs'.board)
  {
    if |gs.moveLog| == 0 then gs
    else
      var m := Last(gs.moveLog);
      var epLog := if |gs.enpassantLog| > 0 then gs.enpassantLog[..|gs.enpassantLog| - 1] else gs.enpassantLog;
      var rlog := gs.rightsLog[..|gs.rightsLog| - 1];
      gs.(board := UndoBoard(gs.board, m),
          moveLog := gs.moveLog[..|gs.moveLog| - 1],
          whiteToMove := !gs.whiteToMove,
          whiteKing := if m.pieceMoved == Piece(White, King) then (m.startRow, m.startCol) else gs.whiteKing,
          blackKing := if m.pieceMoved == Piece(Black, King) then (m.startRow, m.startCol) else gs.blackKing,
          enpassantPossible := if |epLog| > 0 then Last(epLog) else None,
          enpassantLog := epLog,
          rights := Last(rlog),
          rightsLog := rlog,
          rightsAlias := Some(|rlog| - 1),
          checkMate := false,
          staleMate := false)
  }

  // ---------------------------------------------------------------------------
  // Invariants

  /** Making an on-board move keeps every state invariant, so the move can be taken back. */
  lemma MakeMoveConsistent(gs: GameState, m: Move)
    requires Consistent(gs) && Applicable(m)
    ensures Consistent(MakeMove(gs, m)) && CanUndo(MakeMove(gs, m))
  {
    var gs' := MakeMove(gs, m);
    forall k | 0 <= k < |gs'.moveLog| ensures Applicable(gs'.moveLog[k]) {
      if k < |gs.moveLog| {
        assert gs'.moveLog[k] == gs.moveLog[k];
      }
    }
  }

  /** Taking a move back keeps every state invariant. */
  lemma UndoMoveConsistent(gs: GameState)
    requires Consistent(gs)
    ensures CanUndo(gs) && Consistent(UndoMove(gs))
  {
    if |gs.moveLog| > 0 {
      var gs' := UndoMove(gs);
      forall k | 0 <= k < |gs'.moveLog| ensures Applicable(gs'.moveLog[k]) {
        assert gs'.moveLog[k] == gs.moveLog[k];
      }
    }
  }

  // ---------------------------------------------------------------------------
  // Bookkeeping

  /** A move is appended to the move log and a rights entry to the rights log, the turn
      passes, and the en-passant log, the flags, the pins and the checks are untouched. */
  lemma MakeMoveBookkeeping(gs: GameState, m: Move)
    requires Consistent(gs) && Applicable(m)
    ensures var gs' := MakeMove(gs, m);
      && |gs'.moveLog| == |gs.moveLog| + 1 && Last(gs'.moveLog) == m && gs'.moveLog[..|gs.moveLog|] == gs.moveLog
      && |gs'.rightsLog| == |gs.rightsLog| + 1 && Last(gs'.rightsLog) == gs'.rights
      && gs'.whiteToMove == !gs.whiteToMove
      && gs'.enpassantLog == gs.enpassantLog
      && gs'.checkMate == gs.checkMate && gs'.staleMate == gs.staleMate && gs'.inCheck == gs.inCheck
      && gs'.pins == gs.pins && gs'.checks == gs.checks
  {
    assert (gs.moveLog + [m])[..|gs.moveLog|] == gs.moveLog;
  }

  /** Taking back a move shortens both logs by one, passes the turn back, clears both
      end-of-game flags, and always leaves no en-passant target, because the
      en-passant log never holds more than its initial empty entry. */
  lemma UndoMoveBookkeeping(gs: GameState)
    requires Consistent(gs) && |gs.moveLog| > 0
    ensures CanUndo(gs)
    ensures var gs' := UndoMove(gs);
      && gs'.moveLog == gs.moveLog[..|gs.moveLog| - 1]
      && |gs'.rightsLog| == |gs.rightsLog| - 1
      && gs'.whiteToMove == !gs.whiteToMove
      && !gs'.checkMate && !gs'.staleMate
      && gs'.enpassantPossible == None
      && gs'.rightsAlias == Some(|gs'.rightsLog| - 1)
  {
  }

  /** `undoMove` with an empty log returns the state unchanged. */
  lemma UndoEmptyLogNoOp(gs: GameState)
    requires IsBoard(gs.board) && |gs.moveLog| == 0
    ensures CanUndo(gs) && UndoMove(gs) == gs
  {
  }

  // ---------------------------------------------------------------------------
  // En passant target and castling rights

  /** After a move the en-passant target is set exactly for a pawn's two-row advance,
      and it is then the square in the start column one row from both the start and
      the end square. */
  lemma EnpassantTargetAfterMove(gs: GameState, m: Move)
    requires IsBoard(gs.board) && Applicable(m)
    ensures var ep := MakeMove(gs, m).enpassantPossible;
      && (ep.Some? <==> m.pieceMoved.Piece? && m.pieceMoved.kind == Pawn && Abs(m.startRow - m.endRow) == 2)
      && (ep.Some? ==> ep.value.1 == m.startCol && Abs(ep.value.0 - m.startRow) == 1 && Abs(ep.value.0 - m.endRow) == 1)
  {
  }

  /** Castling rights never come back, and each is lost exactly when its king moves or
      its rook moves away from its home corner. */
  lemma RightsAfterMove(gs: GameState, m: Move)
    requires IsBoard(gs.board) && Applicable(m)
    ensures var cr := gs.rights;
      var cr' := MakeMove(gs, m).rights;
      var wk := m.pieceMoved == Piece(White, King);
      var bk := m.pieceMoved == Piece(Black, King);
      var wr := m.pieceMoved == Piece(White, Rook) && m.startRow == 7;
      var br := m.pieceMoved == Piece(Black, Rook) && m.startRow == 0;
      && (cr'.wks <==> cr.wks && !wk && !(wr && m.startCol == 7))
      && (cr'.wqs <==> cr.wqs && !wk && !(wr && m.startCol == 0))
      && (cr'.bks <==> cr.bks && !bk && !(br && m.startCol == 7))
      && (cr'.bqs <==> cr.bqs && !bk && !(br && m.startCol == 0))
  {
  }

  // ---------------------------------------------------------------------------
  // Make followed by undo

  /** The moves whose undo is meant to restore the board: not an en-passant capture,
      recorded with the pieces actually on its squares, a king move starting where the
      king is recorded, and a castle along one rank two columns either way with the
      rook's landing square empty. */
  predicate Restorable(gs: GameState, m: Move)
    requires IsBoard(gs.board)
  {
    && Applicable(m)
    && !m.isEnpassantMove
    && m.pieceMoved == At(gs.board, m.startRow, m.startCol)
    && m.pieceCaptured == At(gs.board, m.endRow, m.endCol)
    && (m.pieceMoved == Piece(White, King) ==> gs.whiteKing == (m.startRow, m.startCol))
    && (m.pieceMoved == Piece(Black, King) ==> gs.blackKing == (m.startRow, m.startCol))
    && (m.isCastleMove ==>
          && m.startRow == m.endRow
          && (m.endCol - m.startCol == 2 || m.endCol - m.startCol == -2)
          && (m.endCol - m.startCol == 2 ==> At(gs.board, m.endRow, m.endCol - 1) == Empty)
          && (m.endCol - m.startCol == -2 ==> At(gs.board, m.endRow, m.endCol + 1) == Empty))
  }

  lemma UndoMakeBoard(b: Board, m: Move)
    requires IsBoard(b) && Applicable(m) && !m.isEnpassantMove
    requires m.pieceMoved == At(b, m.startRow, m.startCol) && m.pieceCaptured == At(b, m.endRow, m.endCol)
    requires !m.isCastleMove
    ensures UndoBoard(MakeBoard(b, m), m) == b
  {
    BoardExtensional(UndoBoard(MakeBoard(b, m), m), b);
  }

  lemma UndoMakeCastleBoard(b: Board, m: Move)
    requires IsBoard(b) && Applicable(m) && !m.isEnpassantMove
    requires m.pieceMoved == At(b, m.startRow, m.startCol) && m.pieceCaptured == At(b, m.endRow, m.endCol)
    requires m.isCastleMove && m.startRow == m.endRow
    requires m.endCol - m.startCol == 2 || m.endCol - m.startCol == -2
    requires m.endCol - m.startCol == 2 ==> At(b, m.endRow, m.endCol - 1) == Empty
    requires m.endCol - m.startCol == -2 ==> At(b, m.endRow, m.endCol + 1) == Empty
    ensures UndoBoard(MakeBoard(b, m), m) == b
  {
    var (sr, sc, er, ec) := (m.startRow, m.startCol, m.endRow, m.endCol);
    var b' := UndoBoard(MakeBoard(b, m), m);
    forall r, c | OnBoard(r, c) ensures At(b', r, c) == At(b, r, c) {
      if m.endCol - m.startCol == 2 {
        var b1 := Put(b, sr, sc, Empty);
        var b2 := Put(b1, er, ec, m.pieceMoved);
        var b4 := Put(Put(b2, er, ec - 1, At(b2, er, ec + 1)), er, ec + 1, Empty);
        assert MakeBoard(b, m) == b4;
        var u1 := Put(b4, sr, sc, m.pieceMoved);
        var u2 := Put(u1, er, ec, m.pieceCaptured);
        assert b' == Put(Put(u2, er, ec + 1, At(u2, er, ec - 1)), er, ec - 1, Empty);
      } else {
        var b1 := Put(b, sr, sc, Empty);
        var b2 := Put(b1, er, ec, m.pieceMoved);
        var b4 := Put(Put(b2, er, ec + 1, At(b2, er, ec - 2)), er, ec - 2, Empty);
        assert MakeBoard(b, m) == b4;
        var u1 := Put(b4, sr, sc, m.pieceMoved);
        var u2 := Put(u1, er, ec, m.pieceCaptured);
        assert b' == Put(Put(u2, er, ec - 2, At(u2, er, ec + 1)), er, ec + 1, Empty);
      }
    }
    BoardExtensional(b', b);
  }

  /** Taking back a restorable move gives back the board, the side to move, the move
      log and both king locations; the rights log keeps its length. */
  lemma UndoAfterMake(gs: GameState, m: Move)
    requires Consistent(gs) && Restorable(gs, m)
    ensures CanUndo(MakeMove(gs, m))
    ensures var gs' := UndoMove(MakeMove(gs, m));
      && gs'.board == gs.board
      && gs'.whiteToMove == gs.whiteToMove
      && gs'.moveLog == gs.moveLog
      && gs'.whiteKing == gs.whiteKing && gs'.blackKing == gs.blackKing
      && |gs'.rightsLog| == |gs.rightsLog|
  {
    MakeMoveConsistent(gs, m);
    if m.isCastleMove {
      UndoMakeCastleBoard(gs.board, m);
    } else {
      UndoMakeBoard(gs.board, m);
    }
    assert (gs.moveLog + [m])[..|gs.moveLog|] == gs.moveLog;
  }

  /** Because the current rights object is shared with the log after an undo, taking a
      move back restores the castling rights exactly when the rights were a private
      copy, the shared entry is not the last one, or the move changed no right. */
  lemma RightsAfterUndo(gs: GameState, m: Move)
    requires Consistent(gs) && Applicable(m)
    ensures CanUndo(MakeMove(gs, m))
    ensures UndoMove(MakeMove(gs, m)).rights == gs.rights <==>
      (gs.rightsAlias.None? || gs.rightsAlias.value != |gs.rightsLog| - 1 || NewRights(gs.rights, m) == gs.rights)
  {
    MakeMoveConsistent(gs, m);
  }

  /** Once an undo has shared the rights object with the log, a king move followed by its
      undo leaves that king's castling rights lost. */
  lemma KingMoveUndoLosesRights(gs: GameState, m: Move)
    requires Consistent(gs) && Applicable(m)
    requires gs.rightsAlias == Some(|gs.rightsLog| - 1)
    requires m.pieceMoved == Piece(White, King)
    ensures CanUndo(MakeMove(gs, m))
    ensures !UndoMove(MakeMove(gs, m)).rights.wks && !UndoMove(MakeMove(gs, m)).rights.wqs
  {
    MakeMoveConsistent(gs, m);
  }

  /** Taking back an en-passant capture puts the captured pawn beside the start square
      and also leaves a copy of it on the landing square, and empties the square at
      the end row and start column. */
  lemma EnpassantUndo(gs: GameState, m: Move)
    requires Consistent(gs) && Applicable(m) && m.isEnpassantMove && !m.isCastleMove
    requires m.startRow != m.endRow && m.startCol != m.endCol
    ensures CanUndo(MakeMove(gs, m))
    ensures var b := UndoMove(MakeMove(gs, m)).board;
      && At(b, m.startRow, m.endCol) == m.pieceCaptured
      && At(b, m.endRow, m.endCol) == m.pieceCaptured
      && At(b, m.endRow, m.startCol) == Empty
      && At(b, m.startRow, m.startCol) == m.pieceMoved
  {
    MakeMoveConsistent(gs, m);
  }
}
