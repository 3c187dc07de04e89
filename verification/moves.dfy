/** The `Move` value type: one ply, recorded with the pieces it moves and captures
    at construction time, its integer key `moveID`, equality by that key, and the
    coordinate notation used to print it. */
module Moves {
  import opened Wrappers
  import opened Pieces

  datatype Move = Move(
    startRow: int, startCol: int, endRow: int, endCol: int,
    pieceMoved: Square,
    pieceCaptured: Square,
    isEnpassantMove: bool,
    isCastleMove: bool)
  {
    /** `moveID`: the four coordinates packed as decimal digits. */
    function Id(): int {
      startRow * 1000 + startCol * 100 + endRow * 10 + endCol
    }

    /** A pawn reaching the far rank; the flag is computed but promotion itself is never performed. */
    predicate IsPawnPromotion() {
      (pieceMoved == Piece(White, Pawn) && endRow == 0) || (pieceMoved == Piece(Black, Pawn) && endRow == 7)
    }

    predicate IsCapture() {
      pieceCaptured != Empty
    }

    predicate Endpoints(sr: int, sc: int, er: int, ec: int) {
      startRow == sr && startCol == sc && endRow == er && endCol == ec
    }

    predicate OnBoardMove() {
      OnBoard(startRow, startCol) && OnBoard(endRow, endCol)
    }
  }

  /** The constructor: the moved piece is read from the start square and the captured
      piece from the end square, or, for an en-passant capture, from the square beside
      the start square on the end column. */
  function Create(sr: int, sc: int, er: int, ec: int, b: Board, isEnpassant: bool, isCastle: bool): Move
    requires IsBoard(b) && OnBoard(sr, sc) && OnBoard(er, ec)
  {
    Move(sr, sc, er, ec, At(b, sr, sc),
         if isEnpassant then At(b, sr, ec) else At(b, er, ec),
         isEnpassant, isCastle)
  }

  /** A move the generators build for the piece on (r, c): it starts there, ends on the
      board, and records the piece standing on its start square. */
  predicate FromSquare(b: Board, r: int, c: int, m: Move)
    requires IsBoard(b)
  {
    && OnBoard(r, c) && m.startRow == r && m.startCol == c
    && OnBoard(m.endRow, m.endCol)
    && m.pieceMoved == At(b, r, c)
  }

  /** `__eq__`: two moves are the same move when their keys agree. */
  predicate Equal(a: Move, b: Move) {
    a.Id() == b.Id()
  }

  /** A move the state transitions can apply and take back without indexing outside
      the board: both endpoints on the board and, for a castle, the rook's squares
      (end column + 1 for a king-side castle, end column - 2 and + 1 otherwise) too. */
  predicate Applicable(m: Move) {
    && m.OnBoardMove()
    && (m.isCastleMove ==>
          if m.endCol - m.startCol == 2 then m.endCol + 1 <= 7 else 2 <= m.endCol <= 6)
  }

  /** For on-board moves the key determines the four coordinates, so `__eq__` holds
      exactly when both moves share start and end squares. */
  lemma EqualIffSameEndpoints(a: Move, b: Move)
    requires a.OnBoardMove() && b.OnBoardMove()
    ensures Equal(a, b) <==> a.Endpoints(b.startRow, b.startCol, b.endRow, b.endCol)
  {
    if Equal(a, b) {
      DigitsZero(a.startRow - b.startRow, a.startCol - b.startCol, a.endRow - b.endRow, a.endCol - b.endCol);
    }
  }

  /** Four base-ten digit differences that weigh to zero are all zero. */
  lemma DigitsZero(w: int, x: int, y: int, z: int)
    requires -7 <= w <= 7 && -7 <= x <= 7 && -7 <= y <= 7 && -7 <= z <= 7
    requires w * 1000 + x * 100 + y * 10 + z == 0
    ensures w == 0 && x == 0 && y == 0 && z == 0
  {
  }

  /** Moves built from the same endpoints are equal whatever board and flags were
      used: an en-passant capture and a plain move to the same square share one identity. */
  lemma CreateIdentityIgnoresBoard(sr: int, sc: int, er: int, ec: int, b1: Board, b2: Board,
                                   ep1: bool, ep2: bool, c1: bool, c2: bool)
    requires IsBoard(b1) && IsBoard(b2) && OnBoard(sr, sc) && OnBoard(er, ec)
    ensures Equal(Create(sr, sc, er, ec, b1, ep1, c1), Create(sr, sc, er, ec, b2, ep2, c2))
    ensures Create(sr, sc, er, ec, b1, ep1, c1).Endpoints(sr, sc, er, ec)
  {
  }

  // ---------------------------------------------------------------------------
  // Coordinate notation

  const Files: string := "abcdefgh"
  const Ranks: string := "87654321"

  /** `getRankFile`: file letter then rank digit; row 0 is rank 8. */
  function RankFile(r: int, c: int): (s: string)
    requires OnBoard(r, c)
    ensures |s| == 2
  {
    [Files[c], Ranks[r]]
  }

  function IndexOf(s: string, ch: char): (k: Option<nat>)
    ensures k.Some? ==> k.value < |s| && s[k.value] == ch
    ensures k.None? ==> ch !in s
  {
    if s == [] then None
    else if s[0] == ch then Some(0)
    else match IndexOf(s[1..], ch)
      case Some(k) => Some(k + 1)
      case None => None
  }

  function ParseRankFile(s: string): Option<(int, int)> {
    if |s| != 2 then None
    else match (IndexOf(Ranks, s[1]), IndexOf(Files, s[0]))
      case (Some(r), Some(c)) => Some((r, c))
      case _ => None
  }

  /** Square names are read back exactly, and every readable name is one `getRankFile` produces. */
  lemma RankFileRoundTrip(r: int, c: int, s: string)
    requires OnBoard(r, c)
    ensures ParseRankFile(RankFile(r, c)) == Some((r, c))
    ensures ParseRankFile(s) == Some((r, c)) ==> RankFile(r, c) == s
  {
    var t := RankFile(r, c);
    NamesDistinct();
    assert IndexOf(Ranks, t[1]) == Some(r) by { DistinctIndex(Ranks, r); }
    assert IndexOf(Files, t[0]) == Some(c) by { DistinctIndex(Files, c); }
    if ParseRankFile(s) == Some((r, c)) {
      assert s == [s[0], s[1]];
    }
  }

  lemma NamesDistinct()
    ensures forall i, j | 0 <= i < j < |Ranks| :: Ranks[i] != Ranks[j]
    ensures forall i, j | 0 <= i < j < |Files| :: Files[i] != Files[j]
  {
  }

  lemma {:induction false} DistinctIndex(s: string, k: nat)
    requires k < |s|
    requires forall i, j | 0 <= i < j < |s| :: s[i] != s[j]
    ensures IndexOf(s, s[k]) == Some(k)
  {
    if k > 0 {
      DistinctIndex(s[1..], k - 1);
    }
  }

  /** `getChessNotation`: start square then end square. */
  function ChessNotation(m: Move): (s: string)
    requires m.OnBoardMove()
    ensures |s| == 4
  {
    RankFile(m.startRow, m.startCol) + RankFile(m.endRow, m.endCol)
  }

  /** Two on-board moves print the same exactly when `__eq__` calls them equal. */
  lemma NotationMatchesEquality(a: Move, b: Move)
    requires a.OnBoardMove() && b.OnBoardMove()
    ensures ChessNotation(a) == ChessNotation(b) <==> Equal(a, b)
  {
    EqualIffSameEndpoints(a, b);
    if ChessNotation(a) == ChessNotation(b) {
      var na, nb := ChessNotation(a), ChessNotation(b);
      assert na[..2] == nb[..2] && na[2..] == nb[2..];
      RankFileRoundTrip(a.startRow, a.startCol, "");
      RankFileRoundTrip(b.startRow, b.startCol, "");
      RankFileRoundTrip(a.endRow, a.endCol, "");
      RankFileRoundTrip(b.endRow, b.endCol, "");
      assert na[..2] == RankFile(a.startRow, a.startCol);
      assert nb[..2] == RankFile(b.startRow, b.startCol);
      assert na[2..] == RankFile(a.endRow, a.endCol);
      assert nb[2..] == RankFile(b.endRow, b.endCol);
    }
  }

  /** `getPieceNotation`: both squares for a pawn, otherwise the piece letter and a file. */
  function PieceNotation(m: Move, piece: Square, col: int): (s: string)
    requires m.OnBoardMove() && piece.Piece? && 0 <= col < 8
    ensures piece.kind == Pawn ==> s == ChessNotation(m)
    ensures piece.kind != Pawn ==> |s| == 2 && s[0] == KindChar(piece.kind) && s[1] == Files[col]
  {
    if piece.kind == Pawn then ChessNotation(m) else [KindChar(piece.kind), Files[col]]
  }

  /** The piece notation reads back: a pawn's names both squares of the move, any other
      piece's names its kind and the given file. */
  lemma PieceNotationReadsBack(m: Move, piece: Square, col: int)
    requires m.OnBoardMove() && piece.Piece? && 0 <= col < 8
    ensures var s := PieceNotation(m, piece, col);
      && (piece.kind == Pawn ==>
            && |s| == 4
            && ParseRankFile(s[..2]) == Some((m.startRow, m.startCol))
            && ParseRankFile(s[2..]) == Some((m.endRow, m.endCol)))
      && (piece.kind != Pawn ==> |s| == 2 && ParseKind(s[0]) == Some(piece.kind) && IndexOf(Files, s[1]) == Some(col))
  {
    var s := PieceNotation(m, piece, col);
    if piece.kind == Pawn {
      RankFileRoundTrip(m.startRow, m.startCol, "");
      RankFileRoundTrip(m.endRow, m.endCol, "");
      assert s[..2] == RankFile(m.startRow, m.startCol);
      assert s[2..] == RankFile(m.endRow, m.endCol);
    } else {
      NamesDistinct();
      DistinctIndex(Files, col);
    }
  }

  /** `__str__`: castles print as O-O / O-O-O; other moves end with the destination
      square and carry an "x" exactly when they capture. */
  function MoveString(m: Move): (s: string)
    requires m.OnBoardMove()
    ensures m.isCastleMove ==> s == (if m.endCol == 6 then "O-O" else "O-O-O")
    ensures !m.isCastleMove ==> |s| >= 4 && s[|s| - 2..] == RankFile(m.endRow, m.endCol)
    ensures !m.isCastleMove ==> ('x' in s <==> m.IsCapture())
  {
    if m.isCastleMove then (if m.endCol == 6 then "O-O" else "O-O-O")
    else
      var start := RankFile(m.startRow, m.startCol);
      var end := RankFile(m.endRow, m.endCol);
      if m.pieceMoved.Piece? && m.pieceMoved.kind == Pawn then
        if m.IsCapture() then start + "x" + end else start + end
      else
        var letter := [Code(m.pieceMoved)[1]];
        if m.IsCapture() then letter + [Files[m.startCol]] + "x" + end
        else letter + [Files[m.startCol]] + end
  }
}
