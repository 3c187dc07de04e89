/** The king generator of the rules engine: single steps that do not walk into check,
    found by moving the recorded king location onto each candidate square and asking
    the pin-and-check analysis, followed by the castling moves. */
module Kings {
  import opened Wrappers
  import opened Pieces
  import opened Moves
  import opened Analysis
  import opened State

  /** The eight king steps in the engine's order: row offset outer, column offset inner. */
  const KingOffsets: seq<(int, int)> := [(-1, -1), (-1, 0), (-1, 1), (0, -1), (0, 1), (1, -1), (1, 0), (1, 1)]

  function Target(r: int, c: int, k: int): (int, int)
    requires 0 <= k < 8
  {
    (r + KingOffsets[k].0, c + KingOffsets[k].1)
  }

  /** The engine probes step `k`: the target is on the board and does not hold an
      allied piece. */
  predicate Probe(b: Board, ally: Color, r: int, c: int, k: int)
    requires IsBoard(b)
  {
    && 0 <= k < 8
    && OnBoard(Target(r, c, k).0, Target(r, c, k).1)
    && !At(b, Target(r, c, k).0, Target(r, c, k).1).Is(ally)
  }

  function KingStep(b: Board, r: int, c: int, k: int): (m: Move)
    requires IsBoard(b) && OnBoard(r, c) && 0 <= k < 8 && OnBoard(Target(r, c, k).0, Target(r, c, k).1)
    ensures FromSquare(b, r, c, m)
  {
    Create(r, c, Target(r, c, k).0, Target(r, c, k).1, b, false, false)
  }

  /** Step `k` when it is probed and the analysis, run for a king standing on its
      target, reports no check; nothing otherwise. */
  function SafeHead(b: Board, ally: Color, r: int, c: int, k: int): (h: seq<Move>)
    requires IsBoard(b) && OnBoard(r, c) && 0 <= k < 8
    ensures forall m | m in h :: FromSquare(b, r, c, m)
  {
    if !Probe(b, ally, r, c, k) then []
    else if CheckForPinsAndChecks(b, ally, Target(r, c, k).0, Target(r, c, k).1).inCheck then []
    else [KingStep(b, r, c, k)]
  }

  /** The steps from offset `k` on that the analysis, run for a king standing on the
      target, reports as not in check.  The board itself is not changed during the
      probe: the king still stands on (r, c), which the analysis looks through. */
  function KingSteps(b: Board, ally: Color, r: int, c: int, k: nat): (ms: seq<Move>)
    requires IsBoard(b) && OnBoard(r, c) && k <= 8
    ensures forall m | m in ms :: FromSquare(b, r, c, m)
    decreases 8 - k
  {
    if k == 8 then []
    else SafeHead(b, ally, r, c, k) + KingSteps(b, ally, r, c, k + 1)
  }

  /** Reference description of a king step: onto an on-board square without an allied
      piece where no enemy ray piece or knight would give check. */
  ghost predicate SafeStep(b: Board, ally: Color, r: int, c: int, k: int)
    requires IsBoard(b)
  {
    Probe(b, ally, r, c, k) && !Checked(b, ally, Target(r, c, k).0, Target(r, c, k).1)
  }

  lemma {:induction false} KingStepsExact(b: Board, ally: Color, r: int, c: int, k0: nat)
    requires IsBoard(b) && OnBoard(r, c) && k0 <= 8
    ensures forall m | m in KingSteps(b, ally, r, c, k0) ::
      exists k | k0 <= k < 8 :: SafeStep(b, ally, r, c, k) && m == KingStep(b, r, c, k)
    ensures forall k | k0 <= k < 8 && SafeStep(b, ally, r, c, k) :: KingStep(b, r, c, k) in KingSteps(b, ally, r, c, k0)
    decreases 8 - k0
  {
    if k0 < 8 {
      KingStepsExact(b, ally, r, c, k0 + 1);
      var rest := KingSteps(b, ally, r, c, k0 + 1);
      var safe := Probe(b, ally, r, c, k0) && !CheckForPinsAndChecks(b, ally, Target(r, c, k0).0, Target(r, c, k0).1).inCheck;
      assert safe <==> SafeStep(b, ally, r, c, k0);
      var head := if safe then [KingStep(b, r, c, k0)] else [];
      assert KingSteps(b, ally, r, c, k0) == head + rest;
      forall m | m in head + rest
        ensures exists k | k0 <= k < 8 :: SafeStep(b, ally, r, c, k) && m == KingStep(b, r, c, k)
      {
        if m in head {
          assert SafeStep(b, ally, r, c, k0) && m == KingStep(b, r, c, k0);
        }
      }
      forall k | k0 <= k < 8 && SafeStep(b, ally, r, c, k) ensures KingStep(b, r, c, k) in head + rest {
        if k == k0 {
          assert KingStep(b, r, c, k) in head;
        } else {
          assert KingStep(b, r, c, k) in rest;
        }
      }
    }
  }

  /** Whether any step is probed; each probe leaves the recorded king location on (r, c). */
  predicate Probes(b: Board, ally: Color, r: int, c: int)
    requires IsBoard(b)
  {
    exists k | 0 <= k < 8 :: Probe(b, ally, r, c, k)
  }

  // ---------------------------------------------------------------------------
  // Castling

  /** Reference description of an attacked square: some enemy piece reaches it along a
      ray over empty squares. */
  ghost predicate Attacked(b: Board, r: int, c: int, ally: Color)
    requires IsBoard(b)
  {
    exists j, i :: 0 <= j < 8 && AttackAlong(b, r, c, ally, j, i)
  }

  /** The castle generator indexes two columns past the king towards the king-side rook
      and three towards the queen-side rook, but only once it has found the king not
      attacked. */
  predicate CastleFits(b: Board, ally: Color, ks: bool, qs: bool, r: int, c: int)
    requires IsBoard(b)
  {
    !SquareUnderAttack(b, r, c, ally) ==> (ks ==> c <= 5) && (qs ==> c >= 3)
  }

  /** `getCastleMoves` with its king-side and queen-side helpers, for a king on (r, c)
      holding the rights `ks` and `qs`. */
  function CastleMoves(b: Board, ally: Color, ks: bool, qs: bool, r: int, c: int): (ms: seq<Move>)
    requires IsBoard(b) && OnBoard(r, c)
    requires CastleFits(b, ally, ks, qs, r, c)
    ensures forall m | m in ms :: FromSquare(b, r, c, m)
  {
    if SquareUnderAttack(b, r, c, ally) then []
    else
      (if ks && At(b, r, c + 1) == Empty && At(b, r, c + 2) == Empty
          && !SquareUnderAttack(b, r, c + 1, ally) && !SquareUnderAttack(b, r, c + 2, ally)
       then [Create(r, c, r, c + 2, b, false, true)] else [])
      + (if qs && At(b, r, c - 1) == Empty && At(b, r, c - 2) == Empty && At(b, r, c - 3) == Empty
            && !SquareUnderAttack(b, r, c - 1, ally) && !SquareUnderAttack(b, r, c - 2, ally)
         then [Create(r, c, r, c - 2, b, false, true)] else [])
  }

  /** Reference description of a castle: the king is not attacked, the right is held,
      the squares between king and rook (three on the queen side) are on the board and
      empty, and the two squares the king crosses are not attacked.  The move takes the
      king two columns and is flagged as a castle.  "Attacked" means attacked along a
      ray: knights are not looked for. */
  ghost predicate CastleAllowed(b: Board, ally: Color, ks: bool, qs: bool, r: int, c: int, m: Move)
    requires IsBoard(b) && OnBoard(r, c)
  {
    && !Attacked(b, r, c, ally)
    && (|| (&& ks && c + 2 < 8 && At(b, r, c + 1) == Empty && At(b, r, c + 2) == Empty
            && !Attacked(b, r, c + 1, ally) && !Attacked(b, r, c + 2, ally)
            && m == Create(r, c, r, c + 2, b, false, true))
        || (&& qs && c >= 3 && At(b, r, c - 1) == Empty && At(b, r, c - 2) == Empty && At(b, r, c - 3) == Empty
            && !Attacked(b, r, c - 1, ally) && !Attacked(b, r, c - 2, ally)
            && m == Create(r, c, r, c - 2, b, false, true)))
  }

  /** A castle is generated exactly when the reference description allows it. */
  lemma CastleMovesExact(b: Board, ally: Color, ks: bool, qs: bool, r: int, c: int, m: Move)
    requires IsBoard(b) && OnBoard(r, c)
    requires CastleFits(b, ally, ks, qs, r, c)
    ensures m in CastleMoves(b, ally, ks, qs, r, c) <==> CastleAllowed(b, ally, ks, qs, r, c, m)
  {
    AttackedExact(b, r, c, ally);
    AttackedExact(b, r, c + 1, ally);
    AttackedExact(b, r, c + 2, ally);
    AttackedExact(b, r, c - 1, ally);
    AttackedExact(b, r, c - 2, ally);
  }

  lemma AttackedExact(b: Board, r: int, c: int, ally: Color)
    requires IsBoard(b)
    ensures Attacked(b, r, c, ally) <==> SquareUnderAttack(b, r, c, ally)
  {
    SquareUnderAttackExact(b, r, c, ally);
  }

  // ---------------------------------------------------------------------------
  // getKingMoves

  /** `getKingMoves` for the side to move with its king on (r, c): the safe steps, then
      the castles allowed by the side's rights.  The probes leave the side's recorded
      king location on (r, c) when at least one step was probed. */
  function KingMoves(gs: GameState, r: int, c: int): (res: (GameState, seq<Move>))
    requires IsBoard(gs.board) && OnBoard(r, c)
    requires CastleFits(gs.board, gs.Side(), gs.KingSideRight(), gs.QueenSideRight(), r, c)
    ensures res.0 == gs.WithKing(gs.Side(), res.0.KingOf(gs.Side()))
    ensures res.0.KingOf(gs.Side()) == gs.KingOf(gs.Side()) || res.0.KingOf(gs.Side()) == (r, c)
    ensures forall m | m in res.1 :: FromSquare(gs.board, r, c, m)
  {
    var ally := gs.Side();
    var steps := KingSteps(gs.board, ally, r, c, 0);
    var castles := CastleMoves(gs.board, ally, gs.KingSideRight(), gs.QueenSideRight(), r, c);
    (if Probes(gs.board, ally, r, c) then gs.WithKing(ally, (r, c)) else gs, steps + castles)
  }

  /** The king moves are exactly the safe steps and the castles of the reference
      descriptions, for the side to move. */
  lemma KingMovesExact(gs: GameState, r: int, c: int, m: Move)
    requires IsBoard(gs.board) && OnBoard(r, c)
    requires CastleFits(gs.board, gs.Side(), gs.KingSideRight(), gs.QueenSideRight(), r, c)
    ensures m in KingMoves(gs, r, c).1 <==>
      || (exists k | 0 <= k < 8 :: SafeStep(gs.board, gs.Side(), r, c, k) && m == KingStep(gs.board, r, c, k))
      || CastleAllowed(gs.board, gs.Side(), gs.KingSideRight(), gs.QueenSideRight(), r, c, m)
  {
    KingStepsExact(gs.board, gs.Side(), r, c, 0);
    CastleMovesExact(gs.board, gs.Side(), gs.KingSideRight(), gs.QueenSideRight(), r, c, m);
  }

  /** When the recorded king location already is the square the generator runs for,
      the generator leaves the state as it found it. */
  lemma KingMovesKeepsState(gs: GameState, r: int, c: int)
    requires IsBoard(gs.board) && OnBoard(r, c)
    requires CastleFits(gs.board, gs.Side(), gs.KingSideRight(), gs.QueenSideRight(), r, c)
    requires gs.KingOf(gs.Side()) == (r, c)
    ensures KingMoves(gs, r, c).0 == gs
  {
  }
}
