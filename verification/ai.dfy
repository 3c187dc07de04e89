/** The computer player: material scoring of a board, a random pick among the valid
    moves, and the two-ply search that picks the move after which the opponent's best
    material reply is smallest.

    Randomness is a parameter: `findRandomMove` receives the index the random number
    generator would draw, and `findBestMove` receives the order `random.shuffle` would
    leave the valid moves in. */
module AI {
  import opened Wrappers
  import opened Pieces
  import opened Moves
  import opened State
  import opened Transitions
  import opened Legality

  const CheckMate: int := 1000
  const StaleMate: int := 0

  /** `pieceScore`. */
  function PieceScore(k: Kind): (v: nat)
    ensures v <= 10
    ensures v == 0 <==> k == King
  {
    match k
    case King => 0
    case Queen => 10
    case Rook => 5
    case Bishop => 3
    case Knight => 3
    case Pawn => 1
  }

  /** A white piece counts for white, a black piece against. */
  function SquareScore(s: Square): int {
    match s
    case Empty => 0
    case Piece(White, k) => PieceScore(k)
    case Piece(Black, k) => -(PieceScore(k) as int)
  }

  function RowScore(row: seq<Square>): int {
    if |row| == 0 then 0 else SquareScore(row[0]) + RowScore(row[1..])
  }

  /** `scoreMaterial`: the sum over all squares. */
  function ScoreMaterial(b: Board): int {
    if |b| == 0 then 0 else RowScore(b[0]) + ScoreMaterial(b[1..])
  }

  /** Reference definition: the material of one colour. */
  function RowMaterial(row: seq<Square>, c: Color): nat {
    if |row| == 0 then 0
    else (if row[0].Is(c) then PieceScore(row[0].kind) else 0) + RowMaterial(row[1..], c)
  }

  function Material(b: Board, c: Color): nat {
    if |b| == 0 then 0 else RowMaterial(b[0], c) + Material(b[1..], c)
  }

  lemma {:induction false} RowScoreSplit(row: seq<Square>)
    ensures RowScore(row) == RowMaterial(row, White) - RowMaterial(row, Black)
    ensures RowMaterial(row, White) <= 10 * |row| && RowMaterial(row, Black) <= 10 * |row|
  {
    if |row| > 0 {
      RowScoreSplit(row[1..]);
    }
  }

  /** The score is white's material minus black's, and each side's material is at
      most ten points a square. */
  lemma {:induction false} ScoreMaterialSplit(b: Board)
    requires forall r | 0 <= r < |b| :: |b[r]| == 8
    ensures ScoreMaterial(b) == Material(b, White) - Material(b, Black)
    ensures Material(b, White) <= 80 * |b| && Material(b, Black) <= 80 * |b|
  {
    if |b| > 0 {
      RowScoreSplit(b[0]);
      ScoreMaterialSplit(b[1..]);
    }
  }

  /** On an 8x8 board the score lies within 640 points either way, well inside the
      checkmate score. */
  lemma ScoreBound(b: Board)
    requires IsBoard(b)
    ensures -640 <= ScoreMaterial(b) <= 640
  {
    ScoreMaterialSplit(b);
  }

  /** The board with every piece's colour swapped. */
  function SwapColors(b: Board): (b': Board)
    ensures |b'| == |b| && forall r | 0 <= r < |b| :: |b'[r]| == |b[r]|
  {
    seq(|b|, r requires 0 <= r < |b| =>
      seq(|b[r]|, c requires 0 <= c < |b[r]| =>
        match b[r][c] case Empty => Empty case Piece(col, k) => Piece(col.Opponent(), k)))
  }

  lemma {:induction false} RowMaterialSwap(row: seq<Square>, row': seq<Square>, c: Color)
    requires |row'| == |row|
    requires forall i | 0 <= i < |row| :: row'[i] == match row[i] case Empty => Empty case Piece(col, k) => Piece(col.Opponent(), k)
    ensures RowMaterial(row', c) == RowMaterial(row, c.Opponent())
  {
    if |row| > 0 {
      RowMaterialSwap(row[1..], row'[1..], c);
    }
  }

  lemma {:induction false} MaterialSwap(b: Board, c: Color)
    ensures Material(SwapColors(b), c) == Material(b, c.Opponent())
  {
    if |b| > 0 {
      var b' := SwapColors(b);
      RowMaterialSwap(b[0], b'[0], c);
      assert b'[1..] == SwapColors(b[1..]);
      MaterialSwap(b[1..], c);
    }
  }

  /** Swapping the colours of every piece negates the score. */
  lemma ScoreSwapNegates(b: Board)
    requires IsBoard(b)
    ensures ScoreMaterial(SwapColors(b)) == -ScoreMaterial(b)
  {
    ScoreMaterialSplit(b);
    ScoreMaterialSplit(SwapColors(b));
    MaterialSwap(b, White);
    MaterialSwap(b, Black);
  }

  /** A row and its colour-swapped copy score opposite amounts. */
  lemma RowScoreSwap(row: seq<Square>, row': seq<Square>)
    requires |row'| == |row|
    requires forall i | 0 <= i < |row| :: row'[i] == match row[i] case Empty => Empty case Piece(col, k) => Piece(col.Opponent(), k)
    ensures RowScore(row') == -RowScore(row)
  {
    RowScoreSplit(row);
    RowScoreSplit(row');
    RowMaterialSwap(row, row', White);
    RowMaterialSwap(row, row', Black);
  }

  lemma {:induction false} EmptyRowScore(row: seq<Square>)
    requires forall i | 0 <= i < |row| :: row[i] == Empty
    ensures RowScore(row) == 0
  {
    if |row| > 0 {
      EmptyRowScore(row[1..]);
    }
  }

  /** The starting position is level: each side's back rank and pawns mirror the
      other's, so the material score is zero. */
  lemma StartBoardLevel()
    ensures ScoreMaterial(StartBoard()) == 0
  {
    var b := StartBoard();
    RowScoreSwap(b[0], b[7]);
    RowScoreSwap(b[1], b[6]);
    EmptyRowScore(b[2]);
    EmptyRowScore(b[3]);
    EmptyRowScore(b[4]);
    EmptyRowScore(b[5]);
    assert ScoreMaterial(b[8..]) == 0;
    forall j | 0 <= j < 8 ensures ScoreMaterial(b[j..]) == RowScore(b[j]) + ScoreMaterial(b[j + 1..]) {
      assert b[j..][1..] == b[j + 1..];
    }
  }

  // ---------------------------------------------------------------------------
  // findRandomMove

  /** `findRandomMove` with the drawn index `k`: nothing for an empty list, otherwise
      the move at the drawn index. */
  function FindRandomMove(moves: seq<Move>, k: int): (r: Option<Move>)
    requires |moves| > 0 ==> 0 <= k < |moves|
    ensures r.None? <==> |moves| == 0
    ensures r.Some? ==> r.value in moves
  {
    if |moves| == 0 then None else Some(moves[k])
  }

  // ---------------------------------------------------------------------------
  // findBestMove

  /** The outcome of a search: its result, or `Fault` where the search would make or
      generate moves outside the conditions under which the engine stays on the board. */
  datatype Outcome<T> = Ok(value: T) | Fault

  /** The score of the position after an opponent's reply, from the opponent's side. */
  function Evaluate(s: GameState, tm: int): int {
    if s.checkMate then -tm * CheckMate
    else if s.staleMate then StaleMate
    else -tm * ScoreMaterial(s.board)
  }

  /** Take the last move back and put the end-of-game flags back to a saved pair. */
  function Retreat(s: GameState, flags: (bool, bool)): (s': GameState)
    requires Consistent(s) && |s.moveLog| > 0
    ensures Consistent(s')
    ensures s'.moveLog == s.moveLog[..|s.moveLog| - 1] && s'.whiteToMove == !s.whiteToMove
    ensures s'.checkMate == flags.0 && s'.staleMate == flags.1
  {
    UndoMoveConsistent(s);
    UndoMoveBookkeeping(s);
    UndoMove(s).(checkMate := flags.0, staleMate := flags.1)
  }

  /** One turn of the opponent loop: make the reply, score the position, take the
      reply back and restore the saved flags. */
  function Reply(s: GameState, m: Move, tm: int, temp: (bool, bool)): (r: (GameState, int))
    requires Consistent(s) && Applicable(m)
    ensures Consistent(r.0) && r.0.moveLog == s.moveLog && r.0.whiteToMove == s.whiteToMove
    ensures r.0.checkMate == temp.0 && r.0.staleMate == temp.1
    ensures s.checkMate ==> r.1 == -tm * CheckMate
    ensures !s.checkMate && s.staleMate ==> r.1 == StaleMate
    ensures !s.checkMate && !s.staleMate ==> MaterialAfter(s, m, tm, r.1)
    ensures !s.checkMate && !s.staleMate && (tm == 1 || tm == -1) ==> -640 <= r.1 <= 640
  {
    var s1 := MakeMove(s, m);
    MakeMoveConsistent(s, m);
    MakeMoveBookkeeping(s, m);
    ScoreBound(s1.board);
    assert s1.moveLog[..|s1.moveLog| - 1] == s.moveLog;
    (Retreat(s1, temp), Evaluate(s1, tm))
  }

  /** `Reply` seen only through its contract, with the state it leaves stated as a
      one-reply `Chained` path, so that the opponent loop does not unfold the move and
      its take-back. */
  method ReplyStep(s: GameState, m: Move, tm: int, temp: (bool, bool)) returns (next: GameState, score: int)
    requires Consistent(s) && Applicable(m)
    ensures Consistent(next) && next.moveLog == s.moveLog && next.whiteToMove == s.whiteToMove
    ensures next.checkMate == temp.0 && next.staleMate == temp.1
    ensures Chained(s, [m], tm, temp, [s, next])
    ensures !s.checkMate && !s.staleMate ==> MaterialAfter(s, m, tm, score)
    ensures !s.checkMate && !s.staleMate && (tm == 1 || tm == -1) ==> -640 <= score <= 640
  {
    var r := Reply(s, m, tm, temp);
    next, score := r.0, r.1;
  }

  /** A legality pass keeps the state invariants, the move log and the turn. */
  lemma GetValidMovesConsistent(gs: GameState)
    requires Consistent(gs) && WellFormed(gs)
    ensures var gs' := GetValidMoves(gs).0;
      Consistent(gs') && gs'.moveLog == gs.moveLog && gs'.whiteToMove == gs.whiteToMove
  {
    GetValidMovesFrame(gs);
  }

  /** Make a move and generate the opponent's replies to it; `Fault` when the move or
      the position it leads to is outside what the generators are modelled for. */
  method Advance(s: GameState, m: Move) returns (o: Outcome<(GameState, seq<Move>)>)
    requires Consistent(s)
    ensures o.Ok? ==> Applicable(m) && WellFormed(MakeMove(s, m)) && o.value == GetValidMoves(MakeMove(s, m))
    ensures o.Ok? ==> Consistent(o.value.0) && o.value.0.moveLog == s.moveLog + [m] && o.value.0.whiteToMove == !s.whiteToMove
    ensures o.Ok? && |o.value.1| > 0 ==> !o.value.0.checkMate && !o.value.0.staleMate
  {
    if !Applicable(m) {
      return Fault;
    }
    var s1 := MakeMove(s, m);
    MakeMoveConsistent(s, m);
    MakeMoveBookkeeping(s, m);
    assert s1.moveLog == s.moveLog + [m];
    if !WellFormed(s1) {
      return Fault;
    }
    GetValidMovesConsistent(s1);
    GetValidMovesFlags(s1);
    o := Ok(GetValidMoves(s1));
  }

  /** What the search records for one of the player's moves: the state it was made
      from, the state after it and the legality pass, the opponent's replies, the score
      of each reply and the state each reply was made from, the number of replies, the
      opponent's best score, the state the opponent loop ended in, and the state the
      turn leaves once the move is taken back. */
  datatype Eval = Eval(move: Move, from: GameState, after: GameState, opp: seq<Move>,
                       scores: seq<int>, before: seq<GameState>, replies: nat, score: int,
                       last: GameState, left: GameState)

  /** The player's move was made in `from`, and `after` and `opp` are the state and the
      replies the legality pass leaves after it. */
  predicate Generated(e: Eval) {
    && Consistent(e.from) && Applicable(e.move)
    && WellFormed(MakeMove(e.from, e.move))
    && (e.after, e.opp) == GetValidMoves(MakeMove(e.from, e.move))
  }

  /** The score is the largest of -CHECKMATE and the material scores, from the
      opponent's side, after each reply in `opp`, made from the state recorded for it;
      the first is made from `after`, and `Settled` fixes the later ones. */
  predicate Evaluated(e: Eval, tm: int) {
    && e.replies == |e.opp| && |e.scores| == |e.opp| && |e.before| == |e.opp|
    && (|e.opp| > 0 ==> e.before[0] == e.after)
    && MaxFrom(e.score, e.scores)
    && Answered(e.after, e.opp, tm, true, e.scores, e.before)
  }

  /** The replies were made one after another from `after`, each from the state the
      previous `Reply` left, the opponent loop ended in `last`, and taking the move back
      there and restoring the flags `orig` left `left`. */
  predicate Settled(e: Eval, tm: int, orig: (bool, bool)) {
    var temp := (e.after.checkMate, e.after.staleMate);
    && Chained(e.after, e.opp, tm, temp, e.before + [e.last])
    && Consistent(e.last) && |e.last.moveLog| > 0
    && e.left == Retreat(e.last, orig)
  }

  /** One turn of the player loop: make the move, generate the replies, run the
      opponent loop, take the move back and restore the saved flags.  A move without
      replies keeps the opponent's starting score -CHECKMATE, whether it mates or
      stalemates. */
  method Play(s: GameState, m: Move, tm: int, orig: (bool, bool)) returns (o: Outcome<(GameState, Eval)>)
    requires Consistent(s) && (tm == 1 || tm == -1)
    ensures o.Ok? ==> Consistent(o.value.0) && o.value.0.moveLog == s.moveLog && o.value.0.whiteToMove == s.whiteToMove
    ensures o.Ok? ==> o.value.0.checkMate == orig.0 && o.value.0.staleMate == orig.1 && o.value.1.move == m
    ensures o.Ok? && o.value.1.replies == 0 ==> o.value.1.score == -CheckMate
    ensures o.Ok? && o.value.1.replies > 0 ==> -640 <= o.value.1.score <= 640
    ensures o.Ok? ==> o.value.1.from == s && Generated(o.value.1) && Evaluated(o.value.1, tm)
    ensures o.Ok? ==> o.value.1.left == o.value.0 && Settled(o.value.1, tm, orig)
  {
    var adv := Advance(s, m);
    if adv.Fault? {
      return Fault;
    }
    var (s2, opp) := adv.value;
    var r := OpponentMax(s2, opp, tm, (s2.checkMate, s2.staleMate));
    if r.Fault? {
      return Fault;
    }
    var s3, oppMax, scores := r.value.state, r.value.max, r.value.scores;
    if |opp| > 0 {
      forall k | 0 <= k < |opp| ensures -640 <= scores[k] <= 640 {
        MaterialAfterBound(r.value.before[k], opp[k], tm, scores[k]);
      }
      assert oppMax >= scores[0];
    }
    assert (s.moveLog + [m])[..|s.moveLog|] == s.moveLog;
    o := Ok((Retreat(s3, orig), Eval(m, s, s2, opp, scores, r.value.before, |opp|, oppMax, s3, Retreat(s3, orig))));
  }

  /** `Play` seen through its contract, with the generated replies and the reply chain
      packed as a one-entry `Threaded` sequence, so that the player loop does not
      unfold them. */
  method PlayStep(s: GameState, m: Move, tm: int, orig: (bool, bool)) returns (o: Outcome<(GameState, Eval)>)
    requires Consistent(s) && (tm == 1 || tm == -1)
    ensures o.Ok? ==> Consistent(o.value.0) && o.value.0.moveLog == s.moveLog && o.value.0.whiteToMove == s.whiteToMove
    ensures o.Ok? ==> o.value.0.checkMate == orig.0 && o.value.0.staleMate == orig.1 && o.value.1.move == m
    ensures o.Ok? && o.value.1.replies == 0 ==> o.value.1.score == -CheckMate
    ensures o.Ok? && o.value.1.replies > 0 ==> -640 <= o.value.1.score <= 640
    ensures o.Ok? ==> o.value.1.from == s && Evaluated(o.value.1, tm)
    ensures o.Ok? ==> Threaded(s, tm, orig, [o.value.1]) && o.value.1.left == o.value.0
  {
    o := Play(s, m, tm, orig);
    if o.Ok? {
      ThreadedSingle(s, tm, orig, o.value.1);
    }
  }

  /** One evaluation made from `s`, generated and settled, is a threaded sequence. */
  lemma ThreadedSingle(s: GameState, tm: int, orig: (bool, bool), e: Eval)
    requires e.from == s && Generated(e) && Settled(e, tm, orig)
    ensures Threaded(s, tm, orig, [e])
  {
  }

  /** `score` is the material score, from the opponent's side, of the position after
      making `m` in `s`. */
  predicate MaterialAfter(s: GameState, m: Move, tm: int, score: int)
    requires Consistent(s) && Applicable(m)
  {
    score == -tm * ScoreMaterial(MakeMove(s, m).board)
  }

  /** A material score after a move lies within the bound of `ScoreBound`. */
  lemma MaterialAfterBound(s: GameState, m: Move, tm: int, score: int)
    requires Consistent(s) && Applicable(m) && (tm == 1 || tm == -1)
    requires MaterialAfter(s, m, tm, score)
    ensures -640 <= score <= 640
  {
    MakeMoveConsistent(s, m);
    ScoreBound(MakeMove(s, m).board);
  }

  /** What the opponent loop leaves: the final state, the largest score, the score of
      each reply, and the state each reply was made from. */
  datatype ReplyScan = ReplyScan(state: GameState, max: int, scores: seq<int>, before: seq<GameState>)

  /** `best` is the largest of -CHECKMATE and the scores. */
  predicate MaxFrom(best: int, scores: seq<int>) {
    && best >= -CheckMate
    && (forall k | 0 <= k < |scores| :: best >= scores[k])
    && (best == -CheckMate || exists k | 0 <= k < |scores| :: best == scores[k])
  }

  /** The loop's `if score > maxScore` keeps the largest score. */
  lemma MaxFromExtend(best: int, scores: seq<int>, score: int)
    requires MaxFrom(best, scores)
    ensures MaxFrom(if score > best then score else best, scores + [score])
  {
    var scores' := scores + [score];
    assert scores'[|scores|] == score;
    assert forall k | 0 <= k < |scores| :: scores'[k] == scores[k];
  }

  /** Reply `k` was made from `before[k]`, a state with the move log and turn of `s`,
      and, when `clear`, scored by the material after it. */
  predicate Answered(s: GameState, opp: seq<Move>, tm: int, clear: bool, scores: seq<int>, before: seq<GameState>) {
    && |scores| == |before| <= |opp|
    && (forall k | 0 <= k < |before| ::
          && Consistent(before[k]) && Applicable(opp[k])
          && before[k].moveLog == s.moveLog && before[k].whiteToMove == s.whiteToMove)
    && (clear ==> forall k {:trigger MaterialAfter(before[k], opp[k], tm, scores[k])} | 0 <= k < |before| ::
          MaterialAfter(before[k], opp[k], tm, scores[k]))
  }

  lemma AnsweredExtend(s: GameState, opp: seq<Move>, tm: int, clear: bool, scores: seq<int>, before: seq<GameState>,
                       cur: GameState, score: int)
    requires Answered(s, opp, tm, clear, scores, before) && |before| < |opp|
    requires Consistent(cur) && Applicable(opp[|before|])
    requires cur.moveLog == s.moveLog && cur.whiteToMove == s.whiteToMove
    requires clear ==> MaterialAfter(cur, opp[|before|], tm, score)
    ensures Answered(s, opp, tm, clear, scores + [score], before + [cur])
  {
    var scores', before' := scores + [score], before + [cur];
    assert scores'[|scores|] == score && before'[|before|] == cur;
    assert forall k | 0 <= k < |before| :: scores'[k] == scores[k] && before'[k] == before[k];
  }

  /** Along `path`, the state after index `k` is the one `Reply` left after the reply
      `opp[k]` made in the state at index `k`. */
  predicate Stepped(opp: seq<Move>, tm: int, temp: (bool, bool), path: seq<GameState>, k: int)
    requires 0 <= k < |path| - 1 && |path| <= |opp| + 1
  {
    && Consistent(path[k]) && Applicable(opp[k])
    && path[k + 1] == Reply(path[k], opp[k], tm, temp).0
  }

  /** The replies were made one after another along `path`: it starts in `s`, and each
      later state is the one the previous `Reply` left. */
  predicate Chained(s: GameState, opp: seq<Move>, tm: int, temp: (bool, bool), path: seq<GameState>) {
    && 0 < |path| <= |opp| + 1
    && path[0] == s
    && forall k | 0 <= k < |path| - 1 :: Stepped(opp, tm, temp, path, k)
  }

  /** A chain extended by one more reply, made where it ended, is a chain. */
  lemma ChainedExtend(s: GameState, opp: seq<Move>, tm: int, temp: (bool, bool), path: seq<GameState>, next: GameState)
    requires Chained(s, opp, tm, temp, path) && |path| <= |opp|
    requires Chained(path[|path| - 1], [opp[|path| - 1]], tm, temp, [path[|path| - 1], next])
    ensures Chained(s, opp, tm, temp, path + [next])
  {
    var path' := path + [next];
    var n := |path| - 1;
    forall k | 0 <= k < |path'| - 1
      ensures Stepped(opp, tm, temp, path', k)
    {
      assert path'[k] == path[k];
      if k < n {
        assert Stepped(opp, tm, temp, path, k);
        assert path'[k + 1] == path[k + 1];
      } else {
        assert Stepped([opp[n]], tm, temp, [path[n], next], 0);
        assert path'[k + 1] == next;
      }
    }
  }

  /** The opponent loop of `findBestMove`: every reply in turn, keeping the largest
      score from -CHECKMATE up.  Each reply is made from the state the previous one was
      taken back to, which need not be the state the loop started from, and `Chained`
      fixes each of those states; the scores are the material scores after each reply
      when the loop starts with both flags clear. */
  method OpponentMax(s: GameState, opp: seq<Move>, tm: int, temp: (bool, bool)) returns (o: Outcome<ReplyScan>)
    requires Consistent(s)
    ensures o.Ok? ==> Consistent(o.value.state) && o.value.state.moveLog == s.moveLog && o.value.state.whiteToMove == s.whiteToMove
    ensures o.Ok? && |opp| > 0 ==> o.value.state.checkMate == temp.0 && o.value.state.staleMate == temp.1
    ensures o.Ok? ==> |o.value.scores| == |opp| && |o.value.before| == |opp| && MaxFrom(o.value.max, o.value.scores)
    ensures o.Ok? && |opp| > 0 ==> o.value.before[0] == s
    ensures o.Ok? ==> Answered(s, opp, tm, !s.checkMate && !s.staleMate && temp == (false, false), o.value.scores, o.value.before)
    ensures o.Ok? ==> Chained(s, opp, tm, temp, o.value.before + [o.value.state])
  {
    var cur, best: int, scores: seq<int>, before: seq<GameState> := s, -CheckMate, [], [];
    var clear := !s.checkMate && !s.staleMate && temp == (false, false);
    for i := 0 to |opp|
      invariant Scanning(s, opp, tm, temp, clear, i, cur, best, scores, before)
    {
      if !Applicable(opp[i]) {
        return Fault;
      }
      var next, score := ReplyStep(cur, opp[i], tm, temp);
      ScanExtend(s, opp, tm, temp, clear, i, cur, best, scores, before, next, score);
      if score > best {
        best := score;
      }
      cur, scores, before := next, scores + [score], before + [cur];
    }
    o := Ok(ReplyScan(cur, best, scores, before));
  }

  /** The state of the opponent loop after the first `i` replies: it stands in `cur`,
      a state with the move log and turn of `s` and, once a reply was made, the flags
      `temp`; one score and one starting state are recorded per reply, `best` is the
      largest score from -CHECKMATE up, and the replies ran in a chain from `s` to
      `cur`.  `clear` says that `s` and `temp` have both flags clear. */
  predicate Scanning(s: GameState, opp: seq<Move>, tm: int, temp: (bool, bool), clear: bool, i: int,
                     cur: GameState, best: int, scores: seq<int>, before: seq<GameState>)
  {
    && 0 <= i <= |opp|
    && Consistent(cur) && cur.moveLog == s.moveLog && cur.whiteToMove == s.whiteToMove
    && (i > 0 ==> cur.checkMate == temp.0 && cur.staleMate == temp.1)
    && (clear ==> temp == (false, false) && !cur.checkMate && !cur.staleMate)
    && |scores| == i && |before| == i
    && (i > 0 ==> before[0] == s)
    && MaxFrom(best, scores)
    && Answered(s, opp, tm, clear, scores, before)
    && Chained(s, opp, tm, temp, before + [cur])
  }

  /** One turn of the opponent loop: the reply `opp[i]` made in `cur` leaves `next` and
      scores `score`, and the loop state moves on by one reply. */
  lemma ScanExtend(s: GameState, opp: seq<Move>, tm: int, temp: (bool, bool), clear: bool, i: int,
                   cur: GameState, best: int, scores: seq<int>, before: seq<GameState>, next: GameState, score: int)
    requires Scanning(s, opp, tm, temp, clear, i, cur, best, scores, before) && i < |opp| && Applicable(opp[i])
    requires Consistent(next) && next.moveLog == cur.moveLog && next.whiteToMove == cur.whiteToMove
    requires next.checkMate == temp.0 && next.staleMate == temp.1
    requires Chained(cur, [opp[i]], tm, temp, [cur, next])
    requires !cur.checkMate && !cur.staleMate ==> MaterialAfter(cur, opp[i], tm, score)
    ensures Scanning(s, opp, tm, temp, clear, i + 1, next, if score > best then score else best,
                     scores + [score], before + [cur])
  {
    MaxFromExtend(best, scores, score);
    AnsweredExtend(s, opp, tm, clear, scores, before, cur, score);
    assert (before + [cur])[|before|] == cur;
    ChainedExtend(s, opp, tm, temp, before + [cur], next);
    assert (before + [cur])[0] == s;
  }

  /** The side to move as `turnMultiplier`. */
  function TurnMultiplier(gs: GameState): (tm: int)
    ensures tm == 1 || tm == -1
    ensures tm == 1 <==> gs.whiteToMove
  {
    if gs.whiteToMove then 1 else -1
  }

  /** With the turn multiplier, the material score is seen from the side to move: its
      own material minus its opponent's, and negated, the opponent's material minus its
      own, which is how the opponent loop scores a reply. */
  lemma ScoreForSide(gs: GameState, b: Board)
    requires IsBoard(b)
    ensures TurnMultiplier(gs) * ScoreMaterial(b) == Material(b, gs.Side()) - Material(b, gs.Side().Opponent())
    ensures -TurnMultiplier(gs) * ScoreMaterial(b) == Material(b, gs.Side().Opponent()) - Material(b, gs.Side())
  {
    ScoreMaterialSplit(b);
  }

  /** What `findBestMove` computes: the state it leaves behind, what it recorded for
      each move in the shuffled order, and the move it answers. */
  datatype Search = Search(state: GameState, evals: seq<Eval>, best: Option<Move>)

  /** The scores `Play` records: -CHECKMATE for a move without replies, a material
      score otherwise. */
  predicate Scored(evals: seq<Eval>) {
    forall k | 0 <= k < |evals| ::
      && (evals[k].replies == 0 ==> evals[k].score == -CheckMate)
      && (evals[k].replies > 0 ==> -640 <= evals[k].score <= 640)
  }

  /** Entry `k` is the evaluation of `order[k]` with the turn multiplier `tm`, from a
      state with the move log, the turn and the end-of-game flags of `gs`. */
  predicate Played(gs: GameState, tm: int, order: seq<Move>, evals: seq<Eval>) {
    && |evals| <= |order|
    && forall k | 0 <= k < |evals| ::
      && evals[k].move == order[k]
      && Evaluated(evals[k], tm)
      && evals[k].from.moveLog == gs.moveLog && evals[k].from.whiteToMove == gs.whiteToMove
      && evals[k].from.checkMate == gs.checkMate && evals[k].from.staleMate == gs.staleMate
  }

  lemma PlayedExtend(gs: GameState, tm: int, order: seq<Move>, evals: seq<Eval>, e: Eval)
    requires Played(gs, tm, order, evals) && Evaluated(e, tm)
    requires |evals| < |order| && e.move == order[|evals|]
    requires e.from.moveLog == gs.moveLog && e.from.whiteToMove == gs.whiteToMove
    requires e.from.checkMate == gs.checkMate && e.from.staleMate == gs.staleMate
    ensures Played(gs, tm, order, evals + [e])
  {
    var evals' := evals + [e];
    forall k | 0 <= k < |evals'|
      ensures && evals'[k].move == order[k] && Evaluated(evals'[k], tm)
              && evals'[k].from.moveLog == gs.moveLog && evals'[k].from.whiteToMove == gs.whiteToMove
              && evals'[k].from.checkMate == gs.checkMate && evals'[k].from.staleMate == gs.staleMate
    {
      if k < |evals| {
        assert evals'[k] == evals[k];
      } else {
        assert evals'[k] == e;
      }
    }
  }

  /** `e` was played from `prev`: its position and replies are the valid moves after its
      move, and its replies ran in a chain to the state it then took back. */
  predicate Link(e: Eval, prev: GameState, tm: int, orig: (bool, bool)) {
    e.from == prev && Generated(e) && Settled(e, tm, orig)
  }

  /** The state evaluation `k` is played from: `gs` for the first, and the state the
      previous turn left for every later one. */
  function PlayedFrom(gs: GameState, evals: seq<Eval>, k: int): GameState
    requires 0 <= k <= |evals|
  {
    if k == 0 then gs else evals[k - 1].left
  }

  /** The evaluations follow one another, the first from `gs`. */
  predicate Threaded(gs: GameState, tm: int, orig: (bool, bool), evals: seq<Eval>) {
    forall k {:trigger Link(evals[k], PlayedFrom(gs, evals, k), tm, orig)} | 0 <= k < |evals| ::
      Link(evals[k], PlayedFrom(gs, evals, k), tm, orig)
  }

  /** A threaded sequence extended by an evaluation made from the state its last entry
      left is threaded. */
  lemma ThreadedExtend(gs: GameState, tm: int, orig: (bool, bool), evals: seq<Eval>, e: Eval)
    requires Threaded(gs, tm, orig, evals) && Threaded(PlayedFrom(gs, evals, |evals|), tm, orig, [e])
    ensures Threaded(gs, tm, orig, evals + [e])
  {
    var evals' := evals + [e];
    forall k | 0 <= k < |evals'|
      ensures Link(evals'[k], PlayedFrom(gs, evals', k), tm, orig)
    {
      if k < |evals| {
        assert evals'[k] == evals[k];
        assert PlayedFrom(gs, evals', k) == PlayedFrom(gs, evals, k);
      } else {
        assert evals'[k] == [e][0];
        assert PlayedFrom(gs, evals', k) == PlayedFrom(PlayedFrom(gs, evals, |evals|), [e], 0);
      }
    }
  }

  /** Entry `k` of a threaded sequence was generated and settled, and its move was made
      from `gs` or from the state entry `k - 1` left. */
  lemma ThreadedAt(gs: GameState, tm: int, orig: (bool, bool), evals: seq<Eval>, k: int)
    requires Threaded(gs, tm, orig, evals) && 0 <= k < |evals|
    ensures Link(evals[k], PlayedFrom(gs, evals, k), tm, orig)
    ensures Generated(evals[k]) && Settled(evals[k], tm, orig)
    ensures evals[k].from == (if k == 0 then gs else evals[k - 1].left)
  {
  }

  /** Entry `i` has the lowest score, and no earlier entry scores as low. */
  predicate IsFirstMinimum(evals: seq<Eval>, i: int) {
    && 0 <= i < |evals|
    && (forall k | 0 <= k < i :: evals[k].score > evals[i].score)
    && (forall k | i < k < |evals| :: evals[k].score >= evals[i].score)
  }

  /** The loop's `if maxScore < minMaxScore` keeps the first minimum. */
  lemma FirstMinimumExtend(evals: seq<Eval>, j: int, e: Eval)
    requires IsFirstMinimum(evals, j)
    ensures e.score < evals[j].score ==> IsFirstMinimum(evals + [e], |evals|)
    ensures e.score >= evals[j].score ==> IsFirstMinimum(evals + [e], j)
  {
    var evals' := evals + [e];
    assert evals'[|evals|] == e;
    assert forall k | 0 <= k < |evals| :: evals'[k] == evals[k];
  }

  lemma ScoredExtend(evals: seq<Eval>, e: Eval)
    requires Scored(evals)
    requires e.replies == 0 ==> e.score == -CheckMate
    requires e.replies > 0 ==> -640 <= e.score <= 640
    ensures Scored(evals + [e])
  {
    var evals' := evals + [e];
    assert evals'[|evals|] == e;
    assert forall k | 0 <= k < |evals| :: evals'[k] == evals[k];
  }

  /** `findBestMove`, for a shuffle that leaves `validMoves` in the order `order`.
      It answers no move for an empty list and otherwise the first move, in the
      shuffled order, whose opponent's best reply scores lowest; the move log, the turn
      and the end-of-game flags are as they were.  A move the opponent cannot answer
      scores -CHECKMATE, so it is preferred whether it mates or stalemates. */
  method FindBestMove(gs: GameState, validMoves: seq<Move>, order: seq<Move>) returns (o: Outcome<Search>)
    requires Consistent(gs) && multiset(order) == multiset(validMoves)
    ensures o.Ok? ==> SearchResult(gs, validMoves, order, o.value)
  {
    var tm := TurnMultiplier(gs);
    var cur, minMax: int, best: Option<Move>, evals: seq<Eval> := gs, CheckMate, None, [];
    for i := 0 to |order|
      invariant Searching(gs, tm, order, i, cur, minMax, best, evals)
      invariant Tracked(gs, cur, evals)
    {
      var step := SearchStep(gs, tm, order, i, cur, minMax, best, evals);
      if step.Fault? {
        return Fault;
      }
      cur, minMax, best, evals := step.value.0, step.value.1, step.value.2, step.value.3;
    }
    SearchDone(gs, validMoves, order, cur, minMax, best, evals);
    o := Ok(Search(cur, evals, best));
  }

  /** What `findBestMove` answers for `gs`, `validMoves` and the shuffled `order`: one
      evaluation per move of `order`, threaded through the states the turns leave, with
      the move log, the turn and the end-of-game flags of `gs` in the state left at the
      end; no move for an empty list, and otherwise the first move, in the shuffled
      order, whose evaluation scores lowest. */
  predicate SearchResult(gs: GameState, validMoves: seq<Move>, order: seq<Move>, r: Search) {
    && r.state.moveLog == gs.moveLog && r.state.whiteToMove == gs.whiteToMove
    && r.state.checkMate == gs.checkMate && r.state.staleMate == gs.staleMate
    && |r.evals| == |order| && Played(gs, TurnMultiplier(gs), order, r.evals)
    && Scored(r.evals)
    && Threaded(gs, TurnMultiplier(gs), (gs.checkMate, gs.staleMate), r.evals)
    && r.state == PlayedFrom(gs, r.evals, |r.evals|)
    && (r.best.None? <==> |validMoves| == 0)
    && (r.best.Some? ==> r.best.value in validMoves)
    && (r.best.Some? ==> exists i | 0 <= i < |order| :: r.best == Some(order[i]) && IsFirstMinimum(r.evals, i))
  }

  /** The loop state after every move of `order` is `findBestMove`'s answer. */
  lemma SearchDone(gs: GameState, validMoves: seq<Move>, order: seq<Move>, cur: GameState, minMax: int,
                   best: Option<Move>, evals: seq<Eval>)
    requires multiset(order) == multiset(validMoves)
    requires Searching(gs, TurnMultiplier(gs), order, |order|, cur, minMax, best, evals)
    requires Tracked(gs, cur, evals)
    ensures SearchResult(gs, validMoves, order, Search(cur, evals, best))
  {
    assert |order| == |validMoves| by {
      assert |multiset(order)| == |multiset(validMoves)|;
    }
    assert best.Some? ==> best.value in multiset(order);
  }

  /** The state of `findBestMove`'s loop after the first `i` moves of `order`: the turn
      multiplier is that of `gs`, the current state keeps the move log, the turn and the
      end-of-game flags of `gs`, there is one evaluation per move played, and `best` is
      the first of them whose score is the lowest, `minMax`. */
  predicate Searching(gs: GameState, tm: int, order: seq<Move>, i: int, cur: GameState, minMax: int,
                      best: Option<Move>, evals: seq<Eval>)
  {
    && 0 <= i <= |order| && tm == TurnMultiplier(gs)
    && Consistent(cur) && cur.moveLog == gs.moveLog && cur.whiteToMove == gs.whiteToMove
    && cur.checkMate == gs.checkMate && cur.staleMate == gs.staleMate
    && |evals| == i
    && Scored(evals)
    && Played(gs, tm, order, evals)
    && (best.None? <==> i == 0)
    && (best.None? ==> minMax == CheckMate)
    && (best.Some? ==> exists j | 0 <= j < i ::
          best == Some(order[j]) && evals[j].score == minMax && IsFirstMinimum(evals, j))
  }

  /** The states of `findBestMove`'s loop are threaded: each move was played from the
      state the previous one left, the first from `gs`, and `cur` is the state the last
      one left. */
  predicate Tracked(gs: GameState, cur: GameState, evals: seq<Eval>)
  {
    && Threaded(gs, TurnMultiplier(gs), (gs.checkMate, gs.staleMate), evals)
    && cur == PlayedFrom(gs, evals, |evals|)
  }

  /** One turn of `findBestMove`'s loop: play `order[i]`, record its evaluation, and
      keep it as the best move when it scores strictly lower. */
  method SearchStep(gs: GameState, tm: int, order: seq<Move>, i: int, cur: GameState, minMax: int,
                    best: Option<Move>, evals: seq<Eval>)
    returns (o: Outcome<(GameState, int, Option<Move>, seq<Eval>)>)
    requires Searching(gs, tm, order, i, cur, minMax, best, evals) && i < |order|
    requires Tracked(gs, cur, evals)
    ensures o.Ok? ==> Searching(gs, tm, order, i + 1, o.value.0, o.value.1, o.value.2, o.value.3)
    ensures o.Ok? ==> Tracked(gs, o.value.0, o.value.3)
  {
    var step := PlayStep(cur, order[i], tm, (gs.checkMate, gs.staleMate));
    if step.Fault? {
      return Fault;
    }
    var (next, e) := step.value;
    SearchingExtend(gs, tm, order, i, cur, minMax, best, evals, next, e);
    ThreadedExtend(gs, tm, (gs.checkMate, gs.staleMate), evals, e);
    assert PlayedFrom(gs, evals + [e], |evals| + 1) == e.left;
    if e.score < minMax {
      o := Ok((next, e.score, Some(order[i]), evals + [e]));
    } else {
      o := Ok((next, minMax, best, evals + [e]));
    }
  }

  /** Recording the evaluation `e` of `order[i]` and keeping it as the best move when it
      scores strictly lower extends the loop state by one move. */
  lemma SearchingExtend(gs: GameState, tm: int, order: seq<Move>, i: int, cur: GameState, minMax: int,
                        best: Option<Move>, evals: seq<Eval>, next: GameState, e: Eval)
    requires Searching(gs, tm, order, i, cur, minMax, best, evals) && i < |order|
    requires Consistent(next) && next.moveLog == cur.moveLog && next.whiteToMove == cur.whiteToMove
    requires next.checkMate == gs.checkMate && next.staleMate == gs.staleMate
    requires e.move == order[i] && e.from == cur && Evaluated(e, tm)
    requires e.replies == 0 ==> e.score == -CheckMate
    requires e.replies > 0 ==> -640 <= e.score <= 640
    ensures e.score < minMax ==> Searching(gs, tm, order, i + 1, next, e.score, Some(order[i]), evals + [e])
    ensures e.score >= minMax ==> Searching(gs, tm, order, i + 1, next, minMax, best, evals + [e])
  {
    ScoredExtend(evals, e);
    PlayedExtend(gs, tm, order, evals, e);
    var evals' := evals + [e];
    if best.Some? {
      var j :| 0 <= j < i && best == Some(order[j]) && evals[j].score == minMax && IsFirstMinimum(evals, j);
      FirstMinimumExtend(evals, j, e);
      assert evals'[j] == evals[j];
    } else {
      assert IsFirstMinimum(evals', i);
    }
    assert evals'[i] == e;
  }

  /** A move the opponent cannot answer scores -CHECKMATE, below every move with
      replies, so when some move has no replies, the first minimiser `findBestMove`
      answers has none either. */
  lemma NoReplyPreferred(evals: seq<Eval>, i: int, k: int)
    requires Scored(evals) && IsFirstMinimum(evals, i)
    requires 0 <= k < |evals| && evals[k].replies == 0
    ensures evals[i].replies == 0 && evals[i].score == -CheckMate
  {
    if k != i {
      assert evals[i].score <= evals[k].score;
    }
  }

  /** Two chains from the same state through the same replies agree at every index
      both reach: `Reply` is a function of the state and the move. */
  lemma {:induction false} ChainedAgree(s: GameState, opp: seq<Move>, tm: int, temp: (bool, bool),
                                        p1: seq<GameState>, p2: seq<GameState>, k: int)
    requires Chained(s, opp, tm, temp, p1) && Chained(s, opp, tm, temp, p2)
    requires 0 <= k < |p1| && k < |p2|
    ensures p1[k] == p2[k]
    decreases k
  {
    if k > 0 {
      ChainedAgree(s, opp, tm, temp, p1, p2, k - 1);
      assert Stepped(opp, tm, temp, p1, k - 1);
      assert Stepped(opp, tm, temp, p2, k - 1);
    }
  }

  /** The largest score from -CHECKMATE up is unique. */
  lemma MaxFromUnique(b1: int, b2: int, scores: seq<int>)
    requires MaxFrom(b1, scores) && MaxFrom(b2, scores)
    ensures b1 == b2
  {
  }

  /** The same move made in the same state leaves the same position and replies. */
  lemma GeneratedUnique(e1: Eval, e2: Eval)
    requires Generated(e1) && Generated(e2) && e1.from == e2.from && e1.move == e2.move
    ensures e1.after == e2.after && e1.opp == e2.opp
  {
  }

  /** From the same position and replies, the opponent loop passes through the same
      states, records the same scores and ends in the same state, and the take-back
      leaves the same state. */
  lemma SettledUnique(e1: Eval, e2: Eval, tm: int, orig: (bool, bool))
    requires e1.after == e2.after && e1.opp == e2.opp
    requires Settled(e1, tm, orig) && Settled(e2, tm, orig) && Evaluated(e1, tm) && Evaluated(e2, tm)
    ensures e1.before == e2.before && e1.last == e2.last && e1.left == e2.left
    ensures e1.scores == e2.scores && e1.score == e2.score && e1.replies == e2.replies
  {
    var n := |e1.opp|;
    var temp := (e1.after.checkMate, e1.after.staleMate);
    var p1, p2 := e1.before + [e1.last], e2.before + [e2.last];
    forall k | 0 <= k < |p1|
      ensures p1[k] == p2[k]
    {
      ChainedAgree(e1.after, e1.opp, tm, temp, p1, p2, k);
    }
    assert e1.before == p1[..n] && e2.before == p2[..n];
    assert e1.last == p1[n] && e2.last == p2[n];
    forall k | 0 <= k < n
      ensures e1.scores[k] == e2.scores[k]
    {
      assert MaterialAfter(e1.before[k], e1.opp[k], tm, e1.scores[k]);
      assert MaterialAfter(e2.before[k], e2.opp[k], tm, e2.scores[k]);
    }
    MaxFromUnique(e1.score, e2.score, e1.scores);
  }

  /** One turn of the player loop is determined by the state it starts in and the
      move: the replies, the states they are made from, their scores, the move's score
      and the states the turn passes through are all the same. */
  lemma EvalUnique(e1: Eval, e2: Eval, prev: GameState, tm: int, orig: (bool, bool))
    requires Link(e1, prev, tm, orig) && Link(e2, prev, tm, orig) && e1.move == e2.move
    requires Evaluated(e1, tm) && Evaluated(e2, tm)
    ensures e1 == e2
  {
    GeneratedUnique(e1, e2);
    SettledUnique(e1, e2, tm, orig);
  }

  /** Two threaded runs of the player loop over the same moves agree at every index:
      entry `k` starts where entry `k - 1` left, and a turn is determined by where it
      starts. */
  lemma {:induction false} EvalsAgree(gs: GameState, tm: int, orig: (bool, bool), order: seq<Move>,
                                      evals1: seq<Eval>, evals2: seq<Eval>, k: int)
    requires Threaded(gs, tm, orig, evals1) && Threaded(gs, tm, orig, evals2)
    requires Played(gs, tm, order, evals1) && Played(gs, tm, order, evals2)
    requires 0 <= k < |evals1| && k < |evals2|
    ensures evals1[k] == evals2[k]
    decreases k
  {
    if k > 0 {
      EvalsAgree(gs, tm, orig, order, evals1, evals2, k - 1);
    }
    assert PlayedFrom(gs, evals1, k) == PlayedFrom(gs, evals2, k);
    ThreadedAt(gs, tm, orig, evals1, k);
    ThreadedAt(gs, tm, orig, evals2, k);
    EvalUnique(evals1[k], evals2[k], PlayedFrom(gs, evals1, k), tm, orig);
  }

  /** At most one entry is the first with the lowest score. */
  lemma FirstMinimumUnique(evals: seq<Eval>, i: int, j: int)
    requires IsFirstMinimum(evals, i) && IsFirstMinimum(evals, j)
    ensures i == j
  {
    var si, sj := evals[i].score, evals[j].score;
  }

  /** `findBestMove` is deterministic once the shuffle is fixed: the evaluations, the
      state it leaves and the move it answers are determined by the state and the
      shuffled order. */
  lemma SearchResultUnique(gs: GameState, validMoves: seq<Move>, order: seq<Move>, r1: Search, r2: Search)
    requires SearchResult(gs, validMoves, order, r1) && SearchResult(gs, validMoves, order, r2)
    ensures r1 == r2
  {
    var tm, orig := TurnMultiplier(gs), (gs.checkMate, gs.staleMate);
    forall k | 0 <= k < |order|
      ensures r1.evals[k] == r2.evals[k]
    {
      EvalsAgree(gs, tm, orig, order, r1.evals, r2.evals, k);
    }
    assert r1.evals == r2.evals;
    if r1.best.Some? {
      var i1 :| 0 <= i1 < |order| && r1.best == Some(order[i1]) && IsFirstMinimum(r1.evals, i1);
      var i2 :| 0 <= i2 < |order| && r2.best == Some(order[i2]) && IsFirstMinimum(r2.evals, i2);
      FirstMinimumUnique(r1.evals, i1, i2);
    }
  }
}
