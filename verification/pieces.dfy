/** Squares, pieces and the 8x8 board of the rules engine, with the two-character
    codes the engine stores in each square ("wK", "bp", "--") and the board
    fingerprint built from them. */
module Pieces {
  import opened Wrappers

  datatype Color = White | Black {
    function Opponent(): Color {
      match this
      case White => Black
      case Black => White
    }
  }

  datatype Kind = King | Queen | Rook | Bishop | Knight | Pawn

  /** One square: empty ("--") or a coloured piece. */
  datatype Square = Empty | Piece(color: Color, kind: Kind) {
    /** The square holds a piece of colour `c` (the engine's `square[0] == c`). */
    predicate Is(c: Color) {
      Piece? && color == c
    }
  }

  /** Row 0 is rank 8 and column 0 is file a. */
  type Board = seq<seq<Square>>

  predicate OnBoard(r: int, c: int) {
    0 <= r < 8 && 0 <= c < 8
  }

  predicate IsBoard(b: Board) {
    |b| == 8 && forall r | 0 <= r < 8 :: |b[r]| == 8
  }

  function At(b: Board, r: int, c: int): Square
    requires IsBoard(b) && OnBoard(r, c)
  {
    b[r][c]
  }

  /** The board with square (r, c) overwritten and every other square kept. */
  function Put(b: Board, r: int, c: int, s: Square): (b': Board)
    requires IsBoard(b) && OnBoard(r, c)
    ensures IsBoard(b')
    ensures At(b', r, c) == s
    ensures forall i, j | OnBoard(i, j) && (i, j) != (r, c) :: At(b', i, j) == At(b, i, j)
  {
    b[r := b[r][c := s]]
  }

  /** The colour a side to move plays ('w' when white is to move). */
  function SideColor(whiteToMove: bool): Color {
    if whiteToMove then White else Black
  }

  const BackRank: seq<Kind> := [Rook, Knight, Bishop, Queen, King, Bishop, Knight, Rook]

  /** The initial position set up by the game state's constructor. */
  function StartBoard(): (b: Board)
    ensures IsBoard(b)
  {
    [ seq(8, c requires 0 <= c < 8 => Piece(Black, BackRank[c])),
      seq(8, c => Piece(Black, Pawn)),
      seq(8, c => Empty), seq(8, c => Empty), seq(8, c => Empty), seq(8, c => Empty),
      seq(8, c => Piece(White, Pawn)),
      seq(8, c requires 0 <= c < 8 => Piece(White, BackRank[c])) ]
  }

  // ---------------------------------------------------------------------------
  // Two-character square codes and the board fingerprint

  function ColorChar(c: Color): char {
    match c
    case White => 'w'
    case Black => 'b'
  }

  function KindChar(k: Kind): char {
    match k
    case King => 'K'
    case Queen => 'Q'
    case Rook => 'R'
    case Bishop => 'B'
    case Knight => 'N'
    case Pawn => 'p'
  }

  /** The string the engine keeps in a square. */
  function Code(s: Square): (code: string)
    ensures |code| == 2
  {
    match s
    case Empty => "--"
    case Piece(c, k) => [ColorChar(c), KindChar(k)]
  }

  function ParseColor(ch: char): Option<Color> {
    if ch == 'w' then Some(White) else if ch == 'b' then Some(Black) else None
  }

  function ParseKind(ch: char): Option<Kind> {
    match ch
    case 'K' => Some(King)
    case 'Q' => Some(Queen)
    case 'R' => Some(Rook)
    case 'B' => Some(Bishop)
    case 'N' => Some(Knight)
    case 'p' => Some(Pawn)
    case _ => None
  }

  /** Reads one square code back; `None` for a string no square produces. */
  function ParseCode(s: string): Option<Square> {
    if s == "--" then Some(Empty)
    else if |s| != 2 then None
    else match (ParseColor(s[0]), ParseKind(s[1]))
      case (Some(c), Some(k)) => Some(Piece(c, k))
      case _ => None
  }

  /** Square codes are read back exactly, so distinct squares have distinct codes. */
  lemma CodeRoundTrip(s: Square)
    ensures ParseCode(Code(s)) == Some(s)
  {
  }

  function RowString(row: seq<Square>): (s: string)
    ensures |s| == 2 * |row|
  {
    if row == [] then "" else Code(row[0]) + RowString(row[1..])
  }

  /** `getBoardString`: all square codes, row by row. */
  function BoardString(b: Board): string {
    if b == [] then "" else RowString(b[0]) + BoardString(b[1..])
  }

  /** Reads a string of square codes back into squares. */
  function ParseRow(s: string): Option<seq<Square>>
    decreases |s|
  {
    if s == "" then Some([])
    else if |s| < 2 then None
    else match (ParseCode(s[..2]), ParseRow(s[2..]))
      case (Some(sq), Some(rest)) => Some([sq] + rest)
      case _ => None
  }

  /** Reads a fingerprint back into `rows` rows of eight squares. */
  function ParseRows(s: string, rows: nat): Option<Board> {
    if rows == 0 then (if s == "" then Some([]) else None)
    else if |s| < 16 then None
    else match (ParseRow(s[..16]), ParseRows(s[16..], rows - 1))
      case (Some(row), Some(rest)) => Some([row] + rest)
      case _ => None
  }

  function ParseBoardString(s: string): Option<Board> {
    ParseRows(s, 8)
  }

  lemma {:induction false} RowStringRoundTrip(row: seq<Square>)
    ensures ParseRow(RowString(row)) == Some(row)
  {
    if row != [] {
      var s := RowString(row);
      assert s[..2] == Code(row[0]);
      assert s[2..] == RowString(row[1..]);
      CodeRoundTrip(row[0]);
      RowStringRoundTrip(row[1..]);
      assert [row[0]] + row[1..] == row;
    }
  }

  lemma {:induction false} RowsRoundTrip(b: Board)
    requires forall r | 0 <= r < |b| :: |b[r]| == 8
    ensures |BoardString(b)| == 16 * |b|
    ensures ParseRows(BoardString(b), |b|) == Some(b)
  {
    if b != [] {
      var s := BoardString(b);
      RowsRoundTrip(b[1..]);
      assert s[..16] == RowString(b[0]);
      assert s[16..] == BoardString(b[1..]);
      RowStringRoundTrip(b[0]);
      assert [b[0]] + b[1..] == b;
    }
  }

  /** The fingerprint has 128 characters and determines the board: reading it back
      gives the board it was built from, so two boards with the same fingerprint
      are the same board. */
  lemma BoardStringRoundTrip(b: Board)
    requires IsBoard(b)
    ensures |BoardString(b)| == 128
    ensures ParseBoardString(BoardString(b)) == Some(b)
  {
    RowsRoundTrip(b);
  }

  lemma BoardStringInjective(b1: Board, b2: Board)
    requires IsBoard(b1) && IsBoard(b2)
    ensures BoardString(b1) == BoardString(b2) <==> b1 == b2
  {
    if BoardString(b1) == BoardString(b2) {
      BoardStringRoundTrip(b1);
      BoardStringRoundTrip(b2);
    }
  }

  /** Two boards are equal when they agree on every square. */
  lemma BoardExtensional(b1: Board, b2: Board)
    requires IsBoard(b1) && IsBoard(b2)
    requires forall r, c | OnBoard(r, c) :: At(b1, r, c) == At(b2, r, c)
    ensures b1 == b2
  {
    forall r | 0 <= r < 8 ensures b1[r] == b2[r] {
      forall c | 0 <= c < 8 ensures b1[r][c] == b2[r][c] {
        assert At(b1, r, c) == At(b2, r, c);
      }
    }
  }
}
