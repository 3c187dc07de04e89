/** Move generation for the side to move: the per-piece dispatch, the scan of the board
    (`getAllPossibleMoves`), and the legality pass (`getValidMoves`) that answers a
    single check by keeping only blocking or capturing moves, a double check by adding
    king moves, and records checkmate and stalemate.

    The generators work on a state: they consume the pins of the last legality pass
    and move the recorded king location while probing king steps.  Everything else in
    the state is left alone. */
module Legality {
  import opened Wrappers
  import opened Pieces
  import opened Moves
  import opened Analysis
  import opened State
  import opened Generator
  import opened Kings

  /** What the generators may change: the pin list and the recorded location of the
      side's king, which only ever moves onto a square holding that king. */
  predicate Scratch(gs: GameState, gs': GameState)
    requires IsBoard(gs.board)
  {
    var side := gs.Side();
    && gs' == gs.(pins := gs'.pins, whiteKing := gs'.whiteKing, blackKing := gs'.blackKing)
    && gs'.KingOf(side.Opponent()) == gs.KingOf(side.Opponent())
    && (gs'.KingOf(side) == gs.KingOf(side)
        || (OnBoard(gs'.KingOf(side).0, gs'.KingOf(side).1) && At(gs.board, gs'.KingOf(side).0, gs'.KingOf(side).1) == Piece(side, King)))
  }

  lemma ScratchTrans(gs: GameState, gs1: GameState, gs2: GameState)
    requires IsBoard(gs.board) && Scratch(gs, gs1) && Scratch(gs1, gs2)
    ensures Scratch(gs, gs2)
  {
  }

  /** Scratch changes keep a state fit for generation. */
  lemma ScratchWellFormed(gs: GameState, gs': GameState)
    requires WellFormed(gs) && Scratch(gs, gs')
    ensures WellFormed(gs')
  {
  }

  /** Fitness for generation depends only on the board, the turn, the king locations
      and the castling rights. */
  lemma WellFormedFields(gs: GameState, gs': GameState)
    requires WellFormed(gs)
    requires gs'.board == gs.board && gs'.whiteToMove == gs.whiteToMove && gs'.rights == gs.rights
    requires gs'.whiteKing == gs.whiteKing && gs'.blackKing == gs.blackKing
    ensures WellFormed(gs')
  {
  }

  /** A move of the side to move, read off the board it was generated on. */
  predicate Origin(b: Board, side: Color, m: Move)
    requires IsBoard(b)
  {
    FromSquare(b, m.startRow, m.startCol, m) && m.pieceMoved.Is(side)
  }

  lemma ScratchPins(gs: GameState, pins: seq<Ray>)
    requires IsBoard(gs.board)
    ensures Scratch(gs, gs.(pins := pins))
  {
  }

  lemma ScratchKing(gs: GameState, r: int, c: int)
    requires WellFormed(gs) && OnBoard(r, c) && At(gs.board, r, c) == Piece(gs.Side(), King)
    ensures CastleColumnOk(gs, c) && Scratch(gs, KingMoves(gs, r, c).0)
  {
  }

  /** `moveFunctions[piece](r, c, moves)` for the piece of the side to move on (r, c);
      a queen runs the rook generator, which leaves its pin in the list, and then the
      bishop generator, which removes it. */
  function PieceMoves(gs: GameState, r: int, c: int): (res: (GameState, seq<Move>))
    requires WellFormed(gs) && OnBoard(r, c) && At(gs.board, r, c).Is(gs.Side())
    ensures Scratch(gs, res.0)
    ensures forall m | m in res.1 :: FromSquare(gs.board, r, c, m)
  {
    var b := gs.board;
    var side := gs.Side();
    match At(b, r, c).kind
    case Pawn =>
      assert At(b, LastRank(side), c) != Piece(side, Pawn);
      var (pins, ms) := PawnMovesAt(b, gs.whiteToMove, gs.pins, r, c, gs.enpassantPossible, gs.KingOf(side));
      ScratchPins(gs, pins);
      (gs.(pins := pins), ms)
    case Rook =>
      var (pins, ms) := RookMoves(b, side, gs.pins, r, c);
      ScratchPins(gs, pins);
      (gs.(pins := pins), ms)
    case Knight =>
      var (pins, ms) := KnightMovesAt(b, side, gs.pins, r, c);
      ScratchPins(gs, pins);
      (gs.(pins := pins), ms)
    case Bishop =>
      var (pins, ms) := BishopMoves(b, side, gs.pins, r, c);
      ScratchPins(gs, pins);
      (gs.(pins := pins), ms)
    case Queen =>
      var (pins1, ms1) := RookMoves(b, side, gs.pins, r, c);
      var (pins2, ms2) := BishopMoves(b, side, pins1, r, c);
      ScratchPins(gs, pins2);
      (gs.(pins := pins2), ms1 + ms2)
    case King =>
      ScratchKing(gs, r, c);
      KingMoves(gs, r, c)
  }

  /** The board index of a move's start square in the scan order. */
  function StartIndex(m: Move): int {
    8 * m.startRow + m.startCol
  }

  /** The scan from square `s` (row-major) to the end of the board. */
  function MovesFrom(gs: GameState, s: nat): (res: (GameState, seq<Move>))
    requires WellFormed(gs) && s <= 64
    ensures Scratch(gs, res.0)
    ensures forall m | m in res.1 :: Origin(gs.board, gs.Side(), m) && StartIndex(m) >= s
    ensures forall i, j | 0 <= i < j < |res.1| :: StartIndex(res.1[i]) <= StartIndex(res.1[j])
    decreases 64 - s
  {
    if s == 64 then (gs, [])
    else
      var (r, c) := (s / 8, s % 8);
      var (gs1, here) := if At(gs.board, r, c).Is(gs.Side()) then PieceMoves(gs, r, c) else (gs, []);
      ScratchWellFormed(gs, gs1);
      var (gs2, rest) := MovesFrom(gs1, s + 1);
      ScratchTrans(gs, gs1, gs2);
      assert forall m | m in here :: StartIndex(m) == s;
      (gs2, here + rest)
  }

  /** `getAllPossibleMoves`: every square in row-major order, each piece of the side to
      move handing its moves to its generator. */
  function AllPossibleMoves(gs: GameState): (res: (GameState, seq<Move>))
    requires WellFormed(gs)
    ensures Scratch(gs, res.0) && WellFormed(res.0)
    ensures forall m | m in res.1 :: Origin(gs.board, gs.Side(), m)
    ensures forall i, j | 0 <= i < j < |res.1| :: StartIndex(res.1[i]) <= StartIndex(res.1[j])
  {
    var res := MovesFrom(gs, 0);
    ScratchWellFormed(gs, res.0);
    res
  }

  // ---------------------------------------------------------------------------
  // The single-check filter

  /** The squares from the king towards the checking piece at distance `i` on, ending
      with the checking piece's square or after seven steps. */
  function SquaresToward(king: (int, int), check: Ray, i: int): seq<(int, int)>
    requires 1 <= i <= 8
    decreases 8 - i
  {
    if i == 8 then []
    else
      var sq := Step(king.0, king.1, (check.dr, check.dc), i);
      [sq] + (if sq == (check.row, check.col) then [] else SquaresToward(king, check, i + 1))
  }

  /** `validSquares`: the knight's own square for a knight check, otherwise the squares
      from the king up to and including the checking piece. */
  function ValidSquares(b: Board, king: (int, int), check: Ray): seq<(int, int)>
    requires IsBoard(b) && OnBoard(check.row, check.col)
  {
    var piece := At(b, check.row, check.col);
    if piece.Piece? && piece.kind == Knight then [(check.row, check.col)] else SquaresToward(king, check, 1)
  }

  /** The moves the filter keeps: king moves, and moves ending on a valid square. */
  predicate Keep(m: Move, vs: seq<(int, int)>) {
    (m.pieceMoved.Piece? && m.pieceMoved.kind == King) || (m.endRow, m.endCol) in vs
  }

  /** Reference definition: the kept moves in their original order. */
  function Filter(ms: seq<Move>, vs: seq<(int, int)>): (out: seq<Move>)
    ensures forall m | m in out :: m in ms && Keep(m, vs)
  {
    if |ms| == 0 then [] else (if Keep(ms[0], vs) then [ms[0]] else []) + Filter(ms[1..], vs)
  }

  /** The index of the first move `__eq__` to `x`. */
  function FirstEqual(ms: seq<Move>, x: Move): (j: Option<nat>)
    ensures j.Some? ==> j.value < |ms| && Equal(ms[j.value], x) && forall k | 0 <= k < j.value :: !Equal(ms[k], x)
    ensures j.None? ==> forall k | 0 <= k < |ms| :: !Equal(ms[k], x)
  {
    if |ms| == 0 then None
    else if Equal(ms[0], x) then Some(0)
    else match FirstEqual(ms[1..], x)
      case Some(k) => Some(k + 1)
      case None => None
  }

  /** `moves.remove(x)`: the list without the first move `__eq__` to `x`. */
  function RemoveEqual(ms: seq<Move>, x: Move): seq<Move> {
    match FirstEqual(ms, x)
    case None => ms
    case Some(j) => ms[..j] + ms[j + 1..]
  }

  /** The filter loop as written: from the back of the list to the front, each move
      that is not kept is removed with `list.remove`, which takes out the first move
      with the same identity. */
  function Prune(ms: seq<Move>, vs: seq<(int, int)>, i: int): seq<Move>
    requires -1 <= i < |ms|
    decreases i + 1
  {
    if i < 0 then ms
    else if Keep(ms[i], vs) then Prune(ms, vs, i - 1)
    else
      assert Equal(ms[i], ms[i]);
      Prune(RemoveEqual(ms, ms[i]), vs, i - 1)
  }

  /** Moves with the same identity are kept or dropped together. */
  predicate IdsDecideKeep(ms: seq<Move>, vs: seq<(int, int)>) {
    forall a, b | a in ms && b in ms && Equal(a, b) :: Keep(a, vs) == Keep(b, vs)
  }

  lemma {:induction false} FilterAppend(a: seq<Move>, b: seq<Move>, vs: seq<(int, int)>)
    ensures Filter(a + b, vs) == Filter(a, vs) + Filter(b, vs)
  {
    if |a| == 0 {
      assert a + b == b;
    } else {
      assert (a + b)[0] == a[0];
      assert (a + b)[1..] == a[1..] + b;
      FilterAppend(a[1..], b, vs);
    }
  }

  lemma {:induction false} FilterAllKept(ms: seq<Move>, vs: seq<(int, int)>)
    requires forall k | 0 <= k < |ms| :: Keep(ms[k], vs)
    ensures Filter(ms, vs) == ms
  {
    if |ms| > 0 {
      FilterAllKept(ms[1..], vs);
    }
  }

  lemma FilterDropsUnkept(ms: seq<Move>, vs: seq<(int, int)>, j: int)
    requires 0 <= j < |ms| && !Keep(ms[j], vs)
    ensures Filter(ms[..j] + ms[j + 1..], vs) == Filter(ms, vs)
  {
    var pre, x, post := ms[..j], ms[j], ms[j + 1..];
    assert ms == (pre + [x]) + post;
    assert Filter([x], vs) == [] by {
      assert [x][1..] == [];
    }
    FilterAppend(pre + [x], post, vs);
    FilterAppend(pre, [x], vs);
    FilterAppend(pre, post, vs);
    assert Filter(pre + [x], vs) == Filter(pre, vs);
  }

  /** Every move after index `i` is kept. */
  predicate KeptAfter(ms: seq<Move>, vs: seq<(int, int)>, i: int) {
    forall k | 0 <= k < |ms| && i < k :: Keep(ms[k], vs)
  }

  /** Removing the first move with the same identity as an unkept move instead of the
      move itself does not change the outcome: the loop computes the reference filter
      whenever identity decides whether a move is kept. */
  lemma {:induction false} PruneIsFilter(ms: seq<Move>, vs: seq<(int, int)>, i: int)
    requires -1 <= i < |ms|
    requires IdsDecideKeep(ms, vs)
    requires KeptAfter(ms, vs, i)
    ensures Prune(ms, vs, i) == Filter(ms, vs)
    decreases i + 1
  {
    if i < 0 {
      assert forall k | 0 <= k < |ms| :: Keep(ms[k], vs);
      FilterAllKept(ms, vs);
    } else if Keep(ms[i], vs) {
      PruneIsFilter(ms, vs, i - 1);
    } else {
      assert Equal(ms[i], ms[i]);
      var j := FirstEqual(ms, ms[i]).value;
      var ms' := ms[..j] + ms[j + 1..];
      assert RemoveEqual(ms, ms[i]) == ms';
      PruneStep(ms, vs, i, j);
      PruneIsFilter(ms', vs, i - 1);
    }
  }

  /** One removal of the loop: the first move with the identity of the unkept move at
      `i` sits at or before `i`, is itself unkept, and leaves the kept suffix in place. */
  lemma PruneStep(ms: seq<Move>, vs: seq<(int, int)>, i: int, j: int)
    requires 0 <= j <= i < |ms|
    requires IdsDecideKeep(ms, vs)
    requires KeptAfter(ms, vs, i)
    requires !Keep(ms[i], vs) && Equal(ms[j], ms[i])
    ensures IdsDecideKeep(ms[..j] + ms[j + 1..], vs)
    ensures KeptAfter(ms[..j] + ms[j + 1..], vs, i - 1)
    ensures Filter(ms[..j] + ms[j + 1..], vs) == Filter(ms, vs)
  {
    var ms' := ms[..j] + ms[j + 1..];
    assert ms[j] in ms && ms[i] in ms;
    assert !Keep(ms[j], vs);
    FilterDropsUnkept(ms, vs, j);
    RemoveAt(ms, j);
    IdsDecideKeepSub(ms, ms', vs);
    forall k | i - 1 < k < |ms'| ensures Keep(ms'[k], vs) {
      assert ms'[k] == ms[k + 1];
    }
  }

  /** The list without its `j`-th element: the elements before it stay where they
      were, the ones after it move down by one. */
  lemma RemoveAt<T>(ms: seq<T>, j: int)
    requires 0 <= j < |ms|
    ensures var ms' := ms[..j] + ms[j + 1..];
      && |ms'| == |ms| - 1
      && (forall k | 0 <= k < j :: ms'[k] == ms[k])
      && (forall k | j <= k < |ms'| :: ms'[k] == ms[k + 1])
      && (forall m | m in ms' :: m in ms)
  {
    var ms' := ms[..j] + ms[j + 1..];
    forall m | m in ms' ensures m in ms {
      var k :| 0 <= k < |ms'| && ms'[k] == m;
      if k < j { assert ms'[k] == ms[k]; } else { assert ms'[k] == ms[k + 1]; }
    }
  }

  lemma IdsDecideKeepSub(ms: seq<Move>, ms': seq<Move>, vs: seq<(int, int)>)
    requires IdsDecideKeep(ms, vs)
    requires forall m | m in ms' :: m in ms
    ensures IdsDecideKeep(ms', vs)
  {
  }

  /** Moves read off one board have the same identity only when they are the same
      move, so identity decides the filter. */
  lemma IdsDecideKeepOnBoard(b: Board, ms: seq<Move>, vs: seq<(int, int)>)
    requires IsBoard(b)
    requires forall m | m in ms :: FromSquare(b, m.startRow, m.startCol, m)
    ensures IdsDecideKeep(ms, vs)
  {
    forall a, a' | a in ms && a' in ms && Equal(a, a') ensures Keep(a, vs) == Keep(a', vs) {
      EqualIffSameEndpoints(a, a');
    }
  }

  /** Checking squares reported by the analysis lie on the board. */
  lemma ChecksOnBoard(b: Board, ally: Color, r: int, c: int)
    requires IsBoard(b)
    ensures forall x | x in CheckForPinsAndChecks(b, ally, r, c).checks :: OnBoard(x.row, x.col)
  {
    var rep := CheckForPinsAndChecks(b, ally, r, c);
    forall x | x in rep.checks ensures OnBoard(x.row, x.col) {
      if CheckedAlong(b, ally, r, c, x) {
        var j, i :| 0 <= j < 8 && RayCheck(b, ally, r, c, j, i) && x == RayAt(r, c, j, i);
      } else {
        var k :| KnightCheck(b, ally, r, c, k) && x == KnightRay(r, c, k);
      }
    }
  }

  // ---------------------------------------------------------------------------
  // getValidMoves

  /** The analysis of the side's king at its recorded location. */
  function Analyse(gs: GameState): Report
    requires IsBoard(gs.board)
  {
    CheckForPinsAndChecks(gs.board, gs.Side(), gs.KingOf(gs.Side()).0, gs.KingOf(gs.Side()).1)
  }

  /** The middle of `getValidMoves`, after the first generation `moves1`: record the
      analysis, then answer a single check with the filter, a double check by
      appending the king's moves once more, and no check by generating again with
      the fresh pins. */
  function Respond(gs1: GameState, moves1: seq<Move>): (res: (GameState, seq<Move>))
    requires WellFormed(gs1)
    ensures Scratch(gs1, res.0.(inCheck := gs1.inCheck, checks := gs1.checks)) && WellFormed(res.0)
    ensures res.0.inCheck == Analyse(gs1).inCheck && res.0.checks == Analyse(gs1).checks
  {
    var side := gs1.Side();
    var king := gs1.KingOf(side);
    var rep := Analyse(gs1);
    ChecksOnBoard(gs1.board, side, king.0, king.1);
    var gs2 := gs1.(inCheck := rep.inCheck, pins := rep.pins, checks := rep.checks);
    WellFormedFields(gs1, gs2);
    if rep.inCheck && |rep.checks| == 1 then
      ScratchRecorded(gs1, gs2, gs2);
      (gs2, Prune(moves1, ValidSquares(gs1.board, king, rep.checks[0]), |moves1| - 1))
    else if rep.inCheck then
      var (g, km) := KingMoves(gs2, king.0, king.1);
      ScratchWellFormed(gs2, g);
      ScratchRecorded(gs1, gs2, g);
      (g, moves1 + km)
    else
      var res := AllPossibleMoves(gs2);
      ScratchRecorded(gs1, gs2, res.0);
      res
  }

  /** Scratch changes made after recording an analysis are scratch changes of the
      state before it, once the recorded check fields are put back. */
  lemma ScratchRecorded(gs1: GameState, gs2: GameState, g: GameState)
    requires IsBoard(gs1.board)
    requires gs2 == gs1.(inCheck := gs2.inCheck, pins := gs2.pins, checks := gs2.checks)
    requires Scratch(gs2, g)
    ensures Scratch(gs1, g.(inCheck := gs1.inCheck, checks := gs1.checks))
  {
  }

  /** The end of `getValidMoves`: an empty list sets checkmate when in check and
      stalemate otherwise, leaving the other flag as it was; a non-empty list clears
      both. */
  function Conclude(gs: GameState, moves: seq<Move>): (gs': GameState)
    ensures gs' == gs.(checkMate := gs'.checkMate, staleMate := gs'.staleMate)
    ensures |moves| == 0 && gs.inCheck ==> gs'.checkMate && gs'.staleMate == gs.staleMate
    ensures |moves| == 0 && !gs.inCheck ==> gs'.staleMate && gs'.checkMate == gs.checkMate
    ensures |moves| > 0 ==> !gs'.checkMate && !gs'.staleMate
  {
    if |moves| == 0 then
      if gs.inCheck then gs.(checkMate := true) else gs.(staleMate := true)
    else gs.(checkMate := false, staleMate := false)
  }

  /** `getValidMoves`. */
  function GetValidMoves(gs: GameState): (res: (GameState, seq<Move>))
    requires WellFormed(gs)
  {
    var (gs1, moves1) := AllPossibleMoves(gs);
    var (gs3, moves) := Respond(gs1, moves1);
    (Conclude(gs3, moves), moves)
  }

  /** What a legality pass may change: besides the scratch fields of the generators,
      the check, pin and end-of-game fields it recomputes. */
  predicate Refreshed(gs: GameState, gs': GameState)
    requires IsBoard(gs.board)
  {
    Scratch(gs, gs'.(inCheck := gs.inCheck, checks := gs.checks, checkMate := gs.checkMate, staleMate := gs.staleMate))
  }

  /** The pass leaves board, turn, logs, castling rights and en-passant target alone,
      keeps the state fit for generation, and reports the check on the king at its
      recorded location after the first generation. */
  lemma GetValidMovesFrame(gs: GameState)
    requires WellFormed(gs)
    ensures var gs' := GetValidMoves(gs).0;
      && Refreshed(gs, gs') && WellFormed(gs')
      && (gs'.inCheck <==> Checked(gs.board, gs.Side(), AllPossibleMoves(gs).0.KingOf(gs.Side()).0,
                                   AllPossibleMoves(gs).0.KingOf(gs.Side()).1))
      && (gs'.inCheck <==> |gs'.checks| > 0)
  {
    var (gs1, moves1) := AllPossibleMoves(gs);
    var (gs3, moves) := Respond(gs1, moves1);
    ScratchTrans(gs, gs1, gs3.(inCheck := gs1.inCheck, checks := gs1.checks));
    WellFormedFields(gs3, Conclude(gs3, moves));
  }

  /** Checkmate and stalemate as the pass records them. */
  lemma GetValidMovesFlags(gs: GameState)
    requires WellFormed(gs)
    ensures var (gs', ms) := GetValidMoves(gs);
      && (|ms| == 0 && gs'.inCheck ==> gs'.checkMate && gs'.staleMate == gs.staleMate)
      && (|ms| == 0 && !gs'.inCheck ==> gs'.staleMate && gs'.checkMate == gs.checkMate)
      && (|ms| > 0 ==> !gs'.checkMate && !gs'.staleMate)
  {
    var (gs1, moves1) := AllPossibleMoves(gs);
    assert gs1.checkMate == gs.checkMate && gs1.staleMate == gs.staleMate;
  }

  // ---------------------------------------------------------------------------
  // What the single-check filter keeps

  /** Distinct distances along one ray reach distinct squares. */
  lemma StepDistinct(r: int, c: int, j: int, t: int, i: int)
    requires 0 <= j < 8 && t != i
    ensures Step(r, c, Directions[j], t) != Step(r, c, Directions[j], i)
  {
    var d := Directions[j];
    assert -1 <= d.0 <= 1 && -1 <= d.1 <= 1 && d != (0, 0);
    assert d.0 * t == (if d.0 == 1 then t else if d.0 == -1 then -t else 0);
    assert d.0 * i == (if d.0 == 1 then i else if d.0 == -1 then -i else 0);
    assert d.1 * t == (if d.1 == 1 then t else if d.1 == -1 then -t else 0);
    assert d.1 * i == (if d.1 == 1 then i else if d.1 == -1 then -i else 0);
  }

  lemma {:induction false} SquaresTowardRay(r: int, c: int, j: int, i: int, t: int)
    requires 0 <= j < 8 && 1 <= t <= i < 8
    ensures forall sq :: sq in SquaresToward((r, c), RayAt(r, c, j, i), t) <==>
      exists s | t <= s <= i :: sq == Step(r, c, Directions[j], s)
    decreases i - t
  {
    var check := RayAt(r, c, j, i);
    var here := Step(r, c, Directions[j], t);
    assert (check.dr, check.dc) == Directions[j];
    assert (check.row, check.col) == Step(r, c, Directions[j], i);
    if t < i {
      StepDistinct(r, c, j, t, i);
      SquaresTowardRay(r, c, j, i, t + 1);
      var rest := SquaresToward((r, c), check, t + 1);
      assert SquaresToward((r, c), check, t) == [here] + rest;
      forall sq ensures sq in [here] + rest <==> exists s | t <= s <= i :: sq == Step(r, c, Directions[j], s) {
        if sq != here {
          assert (exists s | t <= s <= i :: sq == Step(r, c, Directions[j], s))
             <==> (exists s | t + 1 <= s <= i :: sq == Step(r, c, Directions[j], s));
        }
      }
    } else {
      assert SquaresToward((r, c), check, t) == [here];
    }
  }

  /** For a check along ray `j` by the piece at distance `i`, the valid squares are
      exactly the squares from the king's neighbour on that ray up to the checking piece:
      a move there blocks the ray or captures the checking piece. */
  lemma ValidSquaresRay(b: Board, ally: Color, r: int, c: int, j: int, i: int)
    requires IsBoard(b) && 0 <= j < 8 && RayCheck(b, ally, r, c, j, i)
    ensures forall sq :: sq in ValidSquares(b, (r, c), RayAt(r, c, j, i)) <==>
      exists t | 1 <= t <= i :: sq == Step(r, c, Directions[j], t)
  {
    SquaresTowardRay(r, c, j, i, 1);
  }

  /** For a knight check the only valid square is the knight's. */
  lemma ValidSquaresKnight(b: Board, ally: Color, r: int, c: int, k: int)
    requires IsBoard(b) && KnightCheck(b, ally, r, c, k)
    ensures ValidSquares(b, (r, c), KnightRay(r, c, k)) == [(r + KnightOffsets[k].0, c + KnightOffsets[k].1)]
  {
  }

  /** Under a single check the pass returns exactly the first generation's moves that
      are king moves or end on a valid square, in their original order. */
  lemma GetValidMovesSingleCheck(gs: GameState)
    requires WellFormed(gs)
    ensures var (gs1, moves1) := AllPossibleMoves(gs);
      var (gs', ms) := GetValidMoves(gs);
      var king := gs1.KingOf(gs.Side());
      gs'.inCheck && |gs'.checks| == 1 ==>
        && gs'.KingOf(gs.Side()) == king
        && OnBoard(gs'.checks[0].row, gs'.checks[0].col)
        && ms == Filter(moves1, ValidSquares(gs.board, king, gs'.checks[0]))
        && forall m | m in ms :: m in moves1 && Keep(m, ValidSquares(gs.board, king, gs'.checks[0]))
  {
    var (gs1, moves1) := AllPossibleMoves(gs);
    var (gs3, ms) := Respond(gs1, moves1);
    assert GetValidMoves(gs) == (Conclude(gs3, ms), ms);
    assert gs1.board == gs.board && gs1.Side() == gs.Side();
    RespondSingleCheck(gs1, moves1);
  }

  lemma RespondSingleCheck(gs1: GameState, moves1: seq<Move>)
    requires WellFormed(gs1)
    requires forall m | m in moves1 :: Origin(gs1.board, gs1.Side(), m)
    ensures var (gs3, ms) := Respond(gs1, moves1);
      var king := gs1.KingOf(gs1.Side());
      gs3.inCheck && |gs3.checks| == 1 ==>
        && gs3.KingOf(gs1.Side()) == king
        && OnBoard(gs3.checks[0].row, gs3.checks[0].col)
        && ms == Filter(moves1, ValidSquares(gs1.board, king, gs3.checks[0]))
  {
    var rep := Analyse(gs1);
    var king := gs1.KingOf(gs1.Side());
    if rep.inCheck && |rep.checks| == 1 {
      ChecksOnBoard(gs1.board, gs1.Side(), king.0, king.1);
      var vs := ValidSquares(gs1.board, king, rep.checks[0]);
      IdsDecideKeepOnBoard(gs1.board, moves1, vs);
      PruneIsFilter(moves1, vs, |moves1| - 1);
    }
  }

  /** Under a double check the pass returns the first generation's moves followed by the
      king's moves generated once more, so every king move is listed twice. */
  lemma GetValidMovesDoubleCheck(gs: GameState)
    requires WellFormed(gs)
    ensures var (gs1, moves1) := AllPossibleMoves(gs);
      var (gs', ms) := GetValidMoves(gs);
      var king := gs1.KingOf(gs.Side());
      gs'.inCheck && |gs'.checks| != 1 ==>
        && |gs'.checks| >= 2
        && ms == moves1 + KingMoves(gs1, king.0, king.1).1
  {
    var (gs1, moves1) := AllPossibleMoves(gs);
    var rep := Analyse(gs1);
    var gs2 := gs1.(inCheck := rep.inCheck, pins := rep.pins, checks := rep.checks);
    var king := gs1.KingOf(gs.Side());
    assert CastleFits(gs1.board, gs1.Side(), gs1.KingSideRight(), gs1.QueenSideRight(), king.0, king.1);
    assert gs2.board == gs1.board && gs2.Side() == gs1.Side();
    assert gs2.KingSideRight() == gs1.KingSideRight() && gs2.QueenSideRight() == gs1.QueenSideRight();
    assert KingMoves(gs2, gs1.KingOf(gs.Side()).0, gs1.KingOf(gs.Side()).1).1
        == KingMoves(gs1, gs1.KingOf(gs.Side()).0, gs1.KingOf(gs.Side()).1).1;
  }

  /** Out of check the pass discards the first generation and generates again with the
      pins the analysis has just found. */
  lemma GetValidMovesNoCheck(gs: GameState)
    requires WellFormed(gs)
    ensures var (gs1, moves1) := AllPossibleMoves(gs);
      var (gs', ms) := GetValidMoves(gs);
      var regen := gs1.(inCheck := false, pins := Analyse(gs1).pins, checks := []);
      !gs'.inCheck ==>
        && gs'.checks == []
        && WellFormed(regen)
        && ms == AllPossibleMoves(regen).1
  {
    var (gs1, moves1) := AllPossibleMoves(gs);
    var rep := Analyse(gs1);
    var regen := gs1.(inCheck := false, pins := rep.pins, checks := []);
    WellFormedFields(gs1, regen);
    if !rep.inCheck {
      assert rep.checks == [];
      assert Respond(gs1, moves1) == AllPossibleMoves(regen);
    }
  }

  /** `squareUnderAttack` does not look for knights, so a king in check from a knight may
      still castle, and the single-check filter keeps the castle because it is a king
      move: with the white king on e1 and its rook on h1, a black knight on d3 and the
      black king on e8, the king is in check, the castle is generated, and the filter,
      whose only valid square is the knight's, keeps it. */
  lemma CastleOutOfKnightCheck()
    ensures var e := seq(8, _ => Empty);
      var b := [[Empty, Empty, Empty, Empty, Piece(Black, King), Empty, Empty, Empty], e, e, e, e,
                [Empty, Empty, Empty, Piece(Black, Knight), Empty, Empty, Empty, Empty], e,
                [Empty, Empty, Empty, Empty, Piece(White, King), Empty, Empty, Piece(White, Rook)]];
      var castle := Create(7, 4, 7, 6, b, false, true);
      && IsBoard(b)
      && KnightCheck(b, White, 7, 4, 0)
      && Checked(b, White, 7, 4)
      && castle in CastleMoves(b, White, true, false, 7, 4)
      && ValidSquares(b, (7, 4), KnightRay(7, 4, 0)) == [(5, 3)]
      && Keep(castle, ValidSquares(b, (7, 4), KnightRay(7, 4, 0)))
  {
    var e := seq(8, _ => Empty);
    var b := [[Empty, Empty, Empty, Empty, Piece(Black, King), Empty, Empty, Empty], e, e, e, e,
              [Empty, Empty, Empty, Piece(Black, Knight), Empty, Empty, Empty, Empty], e,
              [Empty, Empty, Empty, Empty, Piece(White, King), Empty, Empty, Piece(White, Rook)]];
    var castle := Create(7, 4, 7, 6, b, false, true);
    assert KnightCheck(b, White, 7, 4, 0);
    forall c, j, i | 4 <= c <= 6 && 0 <= j < 8 ensures !AttackAlong(b, 7, c, White, j, i) {
      var (er, ec) := Step(7, c, Directions[j], i);
      if 1 <= i < 8 && OnBoard(er, ec) && At(b, er, ec).Is(Black) {
        assert (er, ec) == (0, 4) || (er, ec) == (5, 3);
      }
    }
    CastleMovesExact(b, White, true, false, 7, 4, castle);
  }
}
