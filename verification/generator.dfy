/** The per-piece move generators of the rules engine for pawns, rooks, bishops and
    knights (a queen runs the rook and then the bishop generator), together with the
    pin lookup every generator starts with. */
module Generator {
  import opened Wrappers
  import opened Pieces
  import opened Moves
  import opened Analysis

  // ---------------------------------------------------------------------------
  // Pins

  /** The index of the last pin recorded for square (r, c); the generators search the
      pin list from its end. */
  function FindPin(pins: seq<Ray>, r: int, c: int): (k: Option<nat>)
    ensures k.Some? ==> k.value < |pins| && pins[k.value].row == r && pins[k.value].col == c
    ensures forall i | (if k.Some? then k.value + 1 else 0) <= i < |pins| :: !(pins[i].row == r && pins[i].col == c)
    decreases |pins|
  {
    if |pins| == 0 then None
    else if pins[|pins| - 1].row == r && pins[|pins| - 1].col == c then Some(|pins| - 1)
    else FindPin(pins[..|pins| - 1], r, c)
  }

  /** `list.remove`: the list without the first element equal to `x`. */
  function RemoveFirst<T(==)>(s: seq<T>, x: T): (s': seq<T>)
    ensures x in s ==> |s'| == |s| - 1
    ensures x !in s ==> s' == s
    ensures multiset(s') == multiset(s) - multiset{x}
  {
    if |s| == 0 then s
    else if s[0] == x then
      assert s == [s[0]] + s[1..];
      s[1..]
    else
      assert s == [s[0]] + s[1..];
      [s[0]] + RemoveFirst(s[1..], x)
  }

  /** `list.remove` takes out the first element equal to `x` and keeps the others in
      their order. */
  lemma {:induction false} RemoveFirstAt<T>(s: seq<T>, x: T)
    ensures x in s ==> exists i | 0 <= i < |s| :: s[i] == x && x !in s[..i] && RemoveFirst(s, x) == s[..i] + s[i + 1..]
  {
    if x in s {
      assert s == [s[0]] + s[1..];
      if s[0] == x {
        assert RemoveFirst(s, x) == s[..0] + s[1..];
      } else {
        assert x in s[1..];
        RemoveFirstAt(s[1..], x);
        var i :| 0 <= i < |s| - 1 && s[1..][i] == x && x !in s[1..][..i]
                 && RemoveFirst(s[1..], x) == s[1..][..i] + s[1..][i + 1..];
        RemoveFirstShift(s, x, i);
      }
    }
  }

  /** An occurrence found in the tail is one position further along in the list. */
  lemma RemoveFirstShift<T>(s: seq<T>, x: T, i: int)
    requires |s| > 0 && s[0] != x && 0 <= i < |s| - 1
    requires s[1..][i] == x && x !in s[1..][..i] && RemoveFirst(s[1..], x) == s[1..][..i] + s[1..][i + 1..]
    ensures s[i + 1] == x && x !in s[..i + 1] && RemoveFirst(s, x) == s[..i + 1] + s[i + 2..]
  {
    var t := s[1..];
    assert RemoveFirst(s, x) == [s[0]] + RemoveFirst(t, x);
    ConsSlices(s, i);
    assert [s[0]] + (t[..i] + t[i + 1..]) == ([s[0]] + t[..i]) + t[i + 1..];
  }

  lemma ConsSlices<T>(s: seq<T>, i: int)
    requires 0 <= i < |s| - 1
    ensures s[..i + 1] == [s[0]] + s[1..][..i] && s[i + 2..] == s[1..][i + 1..]
  {
  }

  /** A generator's pin lookup: the pin direction of (r, c) if it is pinned, and the pin
      list with that pin removed when `remove` holds. */
  function TakePin(pins: seq<Ray>, r: int, c: int, remove: bool): (Option<(int, int)>, seq<Ray>) {
    match FindPin(pins, r, c)
    case None => (None, pins)
    case Some(k) => (Some((pins[k].dr, pins[k].dc)), if remove then RemoveFirst(pins, pins[k]) else pins)
  }

  /** The lookup finds a pin exactly when one is recorded for the square, reports its
      direction, and removes one entry from the list when asked to. */
  lemma TakePinExact(pins: seq<Ray>, r: int, c: int, remove: bool)
    ensures var (pin, pins') := TakePin(pins, r, c, remove);
      && (pin.Some? <==> exists i | 0 <= i < |pins| :: pins[i].row == r && pins[i].col == c)
      && (pin.Some? ==> exists i | 0 <= i < |pins| :: pins[i].row == r && pins[i].col == c && pin.value == (pins[i].dr, pins[i].dc))
      && |pins'| == (if pin.Some? && remove then |pins| - 1 else |pins|)
      && multiset(pins') <= multiset(pins)
  {
    match FindPin(pins, r, c)
    case None =>
    case Some(k) =>
      assert pins[k] in pins;
  }

  // ---------------------------------------------------------------------------
  // Rooks and bishops

  const RookDirections: seq<(int, int)> := [(1, 0), (-1, 0), (0, 1), (0, -1)]
  const BishopDirections: seq<(int, int)> := [(1, 1), (-1, -1), (-1, 1), (1, -1)]

  /** A king-like step: each component in -1..1, not both zero. */
  predicate Unit(d: (int, int)) {
    -1 <= d.0 <= 1 && -1 <= d.1 <= 1 && d != (0, 0)
  }

  /** The square `k` steps along `d` is on the board and empty. */
  predicate OpenStep(b: Board, r: int, c: int, d: (int, int), k: int)
    requires IsBoard(b)
  {
    var (er, ec) := Step(r, c, d, k);
    OnBoard(er, ec) && At(b, er, ec) == Empty
  }

  predicate OpenPath(b: Board, r: int, c: int, d: (int, int), lo: int, hi: int)
    requires IsBoard(b)
  {
    forall t | lo <= t < hi :: OpenStep(b, r, c, d, t)
  }

  /** Reference description of a slide: `k` steps along `d`, every square passed over
      empty, landing on an empty square or an enemy piece. */
  predicate SlideTo(b: Board, enemy: Color, r: int, c: int, d: (int, int), lo: int, k: int)
    requires IsBoard(b)
  {
    var (er, ec) := Step(r, c, d, k);
    && lo <= k < 8
    && OpenPath(b, r, c, d, lo, k)
    && OnBoard(er, ec)
    && (At(b, er, ec) == Empty || At(b, er, ec).Is(enemy))
  }

  /** What a pin leaves a sliding piece: moves along the pin line only, and, when
      `forwardCaptureOnly` holds (the rook generator), captures only in the pin direction
      itself. */
  predicate PinAllows(pin: Option<(int, int)>, d: (int, int), forwardCaptureOnly: bool, capture: bool) {
    pin.None? || ((pin.value == d || pin.value == (-d.0, -d.1)) && (!capture || !forwardCaptureOnly || pin.value == d))
  }

  function SlideMove(b: Board, r: int, c: int, d: (int, int), k: int): Move
    requires IsBoard(b) && OnBoard(r, c) && OnBoard(Step(r, c, d, k).0, Step(r, c, d, k).1)
  {
    Create(r, c, Step(r, c, d, k).0, Step(r, c, d, k).1, b, false, false)
  }

  /** One direction of the rook or bishop generator from distance `i` on.  A piece
      pinned along another line stops the scan at once and lists nothing.  Off the board
      the source's loop runs on without effect, since every later square is off the
      board too; the model stops there. */
  function RayMoves(b: Board, enemy: Color, r: int, c: int, d: (int, int), pin: Option<(int, int)>,
                    forwardCaptureOnly: bool, i: int): (ms: seq<Move>)
    requires IsBoard(b) && OnBoard(r, c) && 1 <= i
    ensures forall m | m in ms :: FromSquare(b, r, c, m)
    decreases 8 - i
  {
    if i >= 8 then []
    else
      var (er, ec) := Step(r, c, d, i);
      if !OnBoard(er, ec) then []
      else if pin.Some? && pin.value != d && pin.value != (-d.0, -d.1) then []
      else if At(b, er, ec) == Empty then
        [Create(r, c, er, ec, b, false, false)] + RayMoves(b, enemy, r, c, d, pin, forwardCaptureOnly, i + 1)
      else if At(b, er, ec).Is(enemy) then
        if pin.None? || !forwardCaptureOnly || pin.value == d then [Create(r, c, er, ec, b, false, false)] else []
      else []
  }

  /** A slide to distance `k`, scanning from distance `lo`, that the pin allows. */
  predicate SlideOk(b: Board, enemy: Color, r: int, c: int, d: (int, int), pin: Option<(int, int)>,
                    fco: bool, lo: int, k: int)
    requires IsBoard(b)
  {
    && SlideTo(b, enemy, r, c, d, lo, k)
    && PinAllows(pin, d, fco, At(b, Step(r, c, d, k).0, Step(r, c, d, k).1) != Empty)
  }

  /** Past an empty square the pin allows, the slides from `i0` are that square and the
      slides from `i1 = i0 + 1`. */
  lemma SlideOkEmptyStep(b: Board, enemy: Color, r: int, c: int, d: (int, int), pin: Option<(int, int)>,
                         fco: bool, i0: int, i1: int)
    requires IsBoard(b) && i0 < 8 && i1 == i0 + 1
    requires OpenStep(b, r, c, d, i0) && PinAllows(pin, d, fco, false)
    ensures SlideOk(b, enemy, r, c, d, pin, fco, i0, i0)
    ensures forall k :: SlideOk(b, enemy, r, c, d, pin, fco, i0, k) <==> k == i0 || SlideOk(b, enemy, r, c, d, pin, fco, i1, k)
  {
    assert OpenPath(b, r, c, d, i0, i0);
    forall k ensures SlideOk(b, enemy, r, c, d, pin, fco, i0, k) <==> k == i0 || SlideOk(b, enemy, r, c, d, pin, fco, i1, k) {
      if i0 < k {
        assert OpenPath(b, r, c, d, i0, k) <==> OpenPath(b, r, c, d, i1, k);
      }
    }
  }

  /** An occupied square ends the scan: the only slide from `i0` left is onto it. */
  lemma SlideOkStop(b: Board, enemy: Color, r: int, c: int, d: (int, int), pin: Option<(int, int)>,
                    fco: bool, i0: int)
    requires IsBoard(b) && i0 < 8 && OnBoard(Step(r, c, d, i0).0, Step(r, c, d, i0).1)
    requires At(b, Step(r, c, d, i0).0, Step(r, c, d, i0).1) != Empty
    ensures forall k | SlideOk(b, enemy, r, c, d, pin, fco, i0, k) :: k == i0
  {
    forall k | i0 < k ensures !OpenPath(b, r, c, d, i0, k) {
      assert !OpenStep(b, r, c, d, i0);
    }
  }

  /** One direction of a sliding generator lists exactly the slides the pin allows. */
  lemma {:induction false} RayMovesExact(b: Board, enemy: Color, r: int, c: int, d: (int, int), pin: Option<(int, int)>,
                                         fco: bool, i0: int)
    requires IsBoard(b) && OnBoard(r, c) && 1 <= i0 && Unit(d)
    ensures forall m | m in RayMoves(b, enemy, r, c, d, pin, fco, i0) ::
      exists k :: SlideOk(b, enemy, r, c, d, pin, fco, i0, k) && m == SlideMove(b, r, c, d, k)
    ensures forall k | SlideOk(b, enemy, r, c, d, pin, fco, i0, k) ::
      SlideMove(b, r, c, d, k) in RayMoves(b, enemy, r, c, d, pin, fco, i0)
    decreases 8 - i0
  {
    var ms := RayMoves(b, enemy, r, c, d, pin, fco, i0);
    if i0 < 8 {
      var (er, ec) := Step(r, c, d, i0);
      if !OnBoard(er, ec) {
        forall k ensures !SlideTo(b, enemy, r, c, d, i0, k) {
          if i0 < k { assert !OpenStep(b, r, c, d, i0); }
        }
      } else if pin.Some? && pin.value != d && pin.value != (-d.0, -d.1) {
        // The pin forbids every slide in this direction, and the scan lists none.
      } else if At(b, er, ec) == Empty {
        RayMovesExact(b, enemy, r, c, d, pin, fco, i0 + 1);
        SlideOkEmptyStep(b, enemy, r, c, d, pin, fco, i0, i0 + 1);
        var rest := RayMoves(b, enemy, r, c, d, pin, fco, i0 + 1);
        assert ms == [SlideMove(b, r, c, d, i0)] + rest;
        forall m | m in ms
          ensures exists k :: SlideOk(b, enemy, r, c, d, pin, fco, i0, k) && m == SlideMove(b, r, c, d, k)
        {
          if m in rest {
            var k :| SlideOk(b, enemy, r, c, d, pin, fco, i0 + 1, k) && m == SlideMove(b, r, c, d, k);
            assert SlideOk(b, enemy, r, c, d, pin, fco, i0, k);
          } else {
            assert m == SlideMove(b, r, c, d, i0);
          }
        }
        forall k | SlideOk(b, enemy, r, c, d, pin, fco, i0, k) ensures SlideMove(b, r, c, d, k) in ms {
          if k != i0 {
            assert SlideOk(b, enemy, r, c, d, pin, fco, i0 + 1, k);
          }
        }
      } else {
        SlideOkStop(b, enemy, r, c, d, pin, fco, i0);
        if At(b, er, ec).Is(enemy) && (pin.None? || !fco || pin.value == d) {
          assert ms == [SlideMove(b, r, c, d, i0)];
          assert SlideOk(b, enemy, r, c, d, pin, fco, i0, i0);
        } else {
          assert ms == [];
          assert !SlideOk(b, enemy, r, c, d, pin, fco, i0, i0);
        }
      }
    }
  }

  /** Every direction of a sliding generator, in order. */
  function SlideMoves(b: Board, enemy: Color, r: int, c: int, dirs: seq<(int, int)>, pin: Option<(int, int)>,
                      fco: bool): (ms: seq<Move>)
    requires IsBoard(b) && OnBoard(r, c)
    ensures forall m | m in ms :: FromSquare(b, r, c, m)
  {
    if |dirs| == 0 then [] else RayMoves(b, enemy, r, c, dirs[0], pin, fco, 1) + SlideMoves(b, enemy, r, c, dirs[1..], pin, fco)
  }

  /** The reference description of a sliding generator: a slide along one of its
      directions that the pin allows. */
  ghost predicate Slide(b: Board, enemy: Color, r: int, c: int, dirs: seq<(int, int)>, pin: Option<(int, int)>,
                        fco: bool, m: Move)
    requires IsBoard(b) && OnBoard(r, c)
  {
    exists j, k | 0 <= j < |dirs| ::
      SlideOk(b, enemy, r, c, dirs[j], pin, fco, 1, k) && m == SlideMove(b, r, c, dirs[j], k)
  }

  lemma SlideFromHead(b: Board, enemy: Color, r: int, c: int, dirs: seq<(int, int)>, pin: Option<(int, int)>,
                      fco: bool, m: Move)
    requires IsBoard(b) && OnBoard(r, c) && |dirs| > 0 && Unit(dirs[0])
    requires m in RayMoves(b, enemy, r, c, dirs[0], pin, fco, 1)
    ensures Slide(b, enemy, r, c, dirs, pin, fco, m)
  {
    RayMovesExact(b, enemy, r, c, dirs[0], pin, fco, 1);
    var k :| SlideOk(b, enemy, r, c, dirs[0], pin, fco, 1, k) && m == SlideMove(b, r, c, dirs[0], k);
  }

  lemma SlideFromTail(b: Board, enemy: Color, r: int, c: int, dirs: seq<(int, int)>, pin: Option<(int, int)>,
                      fco: bool, m: Move)
    requires IsBoard(b) && OnBoard(r, c) && |dirs| > 0
    requires Slide(b, enemy, r, c, dirs[1..], pin, fco, m)
    ensures Slide(b, enemy, r, c, dirs, pin, fco, m)
  {
    var j, k :| 0 <= j < |dirs[1..]|
          && SlideOk(b, enemy, r, c, dirs[1..][j], pin, fco, 1, k) && m == SlideMove(b, r, c, dirs[1..][j], k);
    assert dirs[1..][j] == dirs[j + 1];
  }

  lemma SlideSplit(b: Board, enemy: Color, r: int, c: int, dirs: seq<(int, int)>, pin: Option<(int, int)>,
                   fco: bool, m: Move)
    requires IsBoard(b) && OnBoard(r, c) && |dirs| > 0 && Unit(dirs[0])
    requires Slide(b, enemy, r, c, dirs, pin, fco, m)
    ensures m in RayMoves(b, enemy, r, c, dirs[0], pin, fco, 1) || Slide(b, enemy, r, c, dirs[1..], pin, fco, m)
  {
    var j, k :| 0 <= j < |dirs|
          && SlideOk(b, enemy, r, c, dirs[j], pin, fco, 1, k) && m == SlideMove(b, r, c, dirs[j], k);
    if j == 0 {
      RayMovesExact(b, enemy, r, c, dirs[0], pin, fco, 1);
    } else {
      assert dirs[1..][j - 1] == dirs[j];
      assert Slide(b, enemy, r, c, dirs[1..], pin, fco, m);
    }
  }

  lemma {:induction false} SlideMovesExact(b: Board, enemy: Color, r: int, c: int, dirs: seq<(int, int)>,
                                           pin: Option<(int, int)>, fco: bool)
    requires IsBoard(b) && OnBoard(r, c) && forall j | 0 <= j < |dirs| :: Unit(dirs[j])
    ensures forall m :: m in SlideMoves(b, enemy, r, c, dirs, pin, fco) <==> Slide(b, enemy, r, c, dirs, pin, fco, m)
  {
    if |dirs| > 0 {
      var head := RayMoves(b, enemy, r, c, dirs[0], pin, fco, 1);
      var tail := SlideMoves(b, enemy, r, c, dirs[1..], pin, fco);
      SlideMovesExact(b, enemy, r, c, dirs[1..], pin, fco);
      forall m ensures m in head + tail <==> Slide(b, enemy, r, c, dirs, pin, fco, m) {
        if m in head {
          SlideFromHead(b, enemy, r, c, dirs, pin, fco, m);
        }
        if m in tail {
          SlideFromTail(b, enemy, r, c, dirs, pin, fco, m);
        }
        if Slide(b, enemy, r, c, dirs, pin, fco, m) {
          SlideSplit(b, enemy, r, c, dirs, pin, fco, m);
        }
      }
    }
  }

  /** The square holds a queen of either colour (the engine tests `square[1] == 'Q'`). */
  predicate IsQueen(s: Square) {
    s.Piece? && s.kind == Queen
  }

  /** `getRookMoves` for a rook or queen at (r, c) of colour `ally`: the pin is left in
      the list when the piece is a queen; a pinned rook captures only in the pin
      direction. */
  function RookMoves(b: Board, ally: Color, pins: seq<Ray>, r: int, c: int): (res: (seq<Ray>, seq<Move>))
    requires IsBoard(b) && OnBoard(r, c)
    ensures forall m | m in res.1 :: FromSquare(b, r, c, m)
  {
    var (pin, pins') := TakePin(pins, r, c, !IsQueen(At(b, r, c)));
    (pins', SlideMoves(b, ally.Opponent(), r, c, RookDirections, pin, true))
  }

  /** `getBishopMoves`: the pin is always removed; a pinned bishop captures both ways
      along the pin line. */
  function BishopMoves(b: Board, ally: Color, pins: seq<Ray>, r: int, c: int): (res: (seq<Ray>, seq<Move>))
    requires IsBoard(b) && OnBoard(r, c)
    ensures forall m | m in res.1 :: FromSquare(b, r, c, m)
  {
    var (pin, pins') := TakePin(pins, r, c, true);
    (pins', SlideMoves(b, ally.Opponent(), r, c, BishopDirections, pin, false))
  }

  /** Every rook move starts on the piece's square and slides along one of the four
      orthogonal directions over empty squares onto an empty or enemy square; a
      pinned rook stays on its pin line and captures only in the pin direction.
      Conversely every such slide is listed. */
  lemma RookMovesExact(b: Board, ally: Color, pins: seq<Ray>, r: int, c: int)
    requires IsBoard(b) && OnBoard(r, c)
    ensures var pin := TakePin(pins, r, c, !IsQueen(At(b, r, c))).0;
      forall m :: m in RookMoves(b, ally, pins, r, c).1 <==> Slide(b, ally.Opponent(), r, c, RookDirections, pin, true, m)
  {
    var pin := TakePin(pins, r, c, !IsQueen(At(b, r, c))).0;
    SlideMovesExact(b, ally.Opponent(), r, c, RookDirections, pin, true);
  }

  /** The same for bishops along the four diagonals, except that a pinned bishop
      captures in both directions of its pin line. */
  lemma BishopMovesExact(b: Board, ally: Color, pins: seq<Ray>, r: int, c: int)
    requires IsBoard(b) && OnBoard(r, c)
    ensures var pin := TakePin(pins, r, c, true).0;
      forall m :: m in BishopMoves(b, ally, pins, r, c).1 <==> Slide(b, ally.Opponent(), r, c, BishopDirections, pin, false, m)
  {
    var pin := TakePin(pins, r, c, true).0;
    SlideMovesExact(b, ally.Opponent(), r, c, BishopDirections, pin, false);
  }

  /** A pinned sliding piece only moves along the line through its square in the pin
      direction. */
  lemma PinnedSlideOnLine(b: Board, enemy: Color, r: int, c: int, dirs: seq<(int, int)>, p: (int, int),
                          fco: bool, m: Move)
    requires IsBoard(b) && OnBoard(r, c)
    requires Slide(b, enemy, r, c, dirs, Some(p), fco, m)
    ensures exists k | 1 <= k < 8 :: (m.endRow, m.endCol) in {Step(r, c, p, k), Step(r, c, (-p.0, -p.1), k)}
  {
    var j, k :| 0 <= j < |dirs| && SlideOk(b, enemy, r, c, dirs[j], Some(p), fco, 1, k) && m == SlideMove(b, r, c, dirs[j], k);
    assert 1 <= k < 8 && (dirs[j] == p || dirs[j] == (-p.0, -p.1));
    var sq := Step(r, c, dirs[j], k);
    assert m.endRow == sq.0 && m.endCol == sq.1;
    assert sq == Step(r, c, p, k) || sq == Step(r, c, (-p.0, -p.1), k);
    assert (m.endRow, m.endCol) in {Step(r, c, p, k), Step(r, c, (-p.0, -p.1), k)};
  }

  // ---------------------------------------------------------------------------
  // Knights

  /** Reference description of a knight move: a jump by offset `k` onto an on-board
      square that is empty or holds an enemy. */
  predicate KnightJump(b: Board, enemy: Color, r: int, c: int, k: int)
    requires IsBoard(b)
  {
    && 0 <= k < 8
    && OnBoard(r + KnightOffsets[k].0, c + KnightOffsets[k].1)
    && (At(b, r + KnightOffsets[k].0, c + KnightOffsets[k].1) == Empty
        || At(b, r + KnightOffsets[k].0, c + KnightOffsets[k].1).Is(enemy))
  }

  function KnightMove(b: Board, r: int, c: int, k: int): Move
    requires IsBoard(b) && OnBoard(r, c) && 0 <= k < 8 && OnBoard(r + KnightOffsets[k].0, c + KnightOffsets[k].1)
  {
    Create(r, c, r + KnightOffsets[k].0, c + KnightOffsets[k].1, b, false, false)
  }

  /** `getKnightMoves` from offset `k` on: a pinned knight has no moves; otherwise each
      on-board jump onto an empty or enemy square, in offset order. */
  function KnightMoves(b: Board, enemy: Color, r: int, c: int, pinned: bool, k: nat): (ms: seq<Move>)
    requires IsBoard(b) && OnBoard(r, c) && k <= 8
    ensures forall m | m in ms :: FromSquare(b, r, c, m)
    decreases 8 - k
  {
    if k == 8 then []
    else (if !pinned && KnightJump(b, enemy, r, c, k) then [KnightMove(b, r, c, k)] else [])
         + KnightMoves(b, enemy, r, c, pinned, k + 1)
  }

  /** A pinned knight has no moves; otherwise the generator lists exactly the jumps
      of the reference description. */
  lemma {:induction false} KnightMovesExact(b: Board, enemy: Color, r: int, c: int, pinned: bool, k0: nat)
    requires IsBoard(b) && OnBoard(r, c) && k0 <= 8
    ensures pinned ==> KnightMoves(b, enemy, r, c, pinned, k0) == []
    ensures forall m | m in KnightMoves(b, enemy, r, c, pinned, k0) ::
      exists k | k0 <= k < 8 :: KnightJump(b, enemy, r, c, k) && m == KnightMove(b, r, c, k)
    ensures !pinned ==> forall k | k0 <= k < 8 && KnightJump(b, enemy, r, c, k) ::
      KnightMove(b, r, c, k) in KnightMoves(b, enemy, r, c, pinned, k0)
    decreases 8 - k0
  {
    if k0 < 8 {
      KnightMovesExact(b, enemy, r, c, pinned, k0 + 1);
      var rest := KnightMoves(b, enemy, r, c, pinned, k0 + 1);
      var head := if !pinned && KnightJump(b, enemy, r, c, k0) then [KnightMove(b, r, c, k0)] else [];
      assert KnightMoves(b, enemy, r, c, pinned, k0) == head + rest;
      forall m | m in head + rest
        ensures exists k | k0 <= k < 8 :: KnightJump(b, enemy, r, c, k) && m == KnightMove(b, r, c, k)
      {
        if m in head {
          assert KnightJump(b, enemy, r, c, k0) && m == KnightMove(b, r, c, k0);
        }
      }
      if !pinned {
        forall k | k0 <= k < 8 && KnightJump(b, enemy, r, c, k) ensures KnightMove(b, r, c, k) in head + rest {
          if k == k0 {
            assert KnightMove(b, r, c, k) in head;
          } else {
            assert KnightMove(b, r, c, k) in rest;
          }
        }
      }
    }
  }

  /** `getKnightMoves` with its pin lookup. */
  function KnightMovesAt(b: Board, ally: Color, pins: seq<Ray>, r: int, c: int): (res: (seq<Ray>, seq<Move>))
    requires IsBoard(b) && OnBoard(r, c)
    ensures forall m | m in res.1 :: FromSquare(b, r, c, m)
  {
    var (pin, pins') := TakePin(pins, r, c, true);
    (pins', KnightMoves(b, ally.Opponent(), r, c, pin.Some?, 0))
  }

  // ---------------------------------------------------------------------------
  // Pawns

  /** The row step of the side's pawns: white moves up the board (towards row 0). */
  function Forward(whiteToMove: bool): int {
    if whiteToMove then -1 else 1
  }

  function PawnStartRow(whiteToMove: bool): int {
    if whiteToMove then 6 else 1
  }

  /** An enemy rook or queen, the pieces the en-passant veto looks for. */
  predicate EnemyLine(s: Square, enemy: Color) {
    s.Piece? && s.color == enemy && (s.kind == Rook || s.kind == Queen)
  }

  function Min(a: int, b: int): int { if a <= b then a else b }
  function Max(a: int, b: int): int { if a <= b then b else a }

  /** The en-passant veto for a pawn in column `c` capturing towards column `capCol`
      with its king on the same row in column `kc`: the columns strictly between the
      king and the two pawns ("inside") and those beyond the two pawns away from the
      king ("outside"). */
  function VetoRanges(c: int, capCol: int, kc: int): (res: ((int, int), (int, int)))
  {
    var lo := Min(c, capCol);
    var hi := Max(c, capCol);
    if kc < c then ((kc + 1, lo), (hi + 1, 8)) else ((hi + 1, kc), (0, lo))
  }

  /** The veto as written: an enemy rook or queen anywhere outside "attacks", and any
      other piece inside or outside "blocks"; the capture is allowed unless something
      attacks and nothing blocks.  Only a king on the pawn's row is protected. */
  predicate EnpassantAllowed(b: Board, r: int, c: int, capCol: int, enemy: Color, king: (int, int))
    requires IsBoard(b) && 0 <= r < 8 && 0 <= c < 8 && 0 <= capCol < 8 && OnBoard(king.0, king.1)
  {
    if king.0 != r then true
    else
      var (inside, outside) := VetoRanges(c, capCol, king.1);
      var attacking := exists i | outside.0 <= i < outside.1 :: EnemyLine(At(b, r, i), enemy);
      var blocking := (exists i | inside.0 <= i < inside.1 :: At(b, r, i) != Empty)
                   || (exists i | outside.0 <= i < outside.1 :: At(b, r, i) != Empty && !EnemyLine(At(b, r, i), enemy));
      !attacking || blocking
  }

  /** The capture of a pawn at (r, c) towards column c + dc: a diagonal capture of an
      enemy piece, then an en-passant capture onto the target square. */
  function PawnCaptures(b: Board, whiteToMove: bool, r: int, c: int, dc: int, pin: Option<(int, int)>,
                        ep: Option<(int, int)>, king: (int, int)): (ms: seq<Move>)
    requires IsBoard(b) && OnBoard(r, c) && 0 <= r + Forward(whiteToMove) < 8 && OnBoard(king.0, king.1)
    ensures forall m | m in ms :: FromSquare(b, r, c, m)
  {
    var amt := Forward(whiteToMove);
    var enemy := SideColor(whiteToMove).Opponent();
    if !(0 <= c + dc < 8) || !(pin.None? || pin.value == (amt, dc)) then []
    else
      (if At(b, r + amt, c + dc).Is(enemy) then [Create(r, c, r + amt, c + dc, b, false, false)] else [])
      + (if ep == Some((r + amt, c + dc)) && EnpassantAllowed(b, r, c, c + dc, enemy, king)
         then [Create(r, c, r + amt, c + dc, b, true, false)] else [])
  }

  /** `getPawnMoves` after the pin lookup: one step forward onto an empty square (unless
      pinned other than along the file), a second step from the start row, then the
      left and the right capture. */
  function PawnMoves(b: Board, whiteToMove: bool, r: int, c: int, pin: Option<(int, int)>,
                     ep: Option<(int, int)>, king: (int, int)): (ms: seq<Move>)
    requires IsBoard(b) && OnBoard(r, c) && 0 <= r + Forward(whiteToMove) < 8 && OnBoard(king.0, king.1)
    ensures forall m | m in ms :: FromSquare(b, r, c, m)
  {
    var amt := Forward(whiteToMove);
    var advance :=
      if At(b, r + amt, c) == Empty && (pin.None? || pin.value == (amt, 0)) then
        [Create(r, c, r + amt, c, b, false, false)]
        + (if r == PawnStartRow(whiteToMove) && At(b, r + 2 * amt, c) == Empty
           then [Create(r, c, r + 2 * amt, c, b, false, false)] else [])
      else [];
    advance + PawnCaptures(b, whiteToMove, r, c, -1, pin, ep, king) + PawnCaptures(b, whiteToMove, r, c, 1, pin, ep, king)
  }

  /** Every listed pawn move starts on the pawn's square and is either a step straight
      ahead onto an empty square, a double step from the start row across two empty
      squares, or a diagonal step that lands on an enemy piece or, as an en-passant
      capture, on the en-passant target with the veto's consent.  A pinned pawn moves
      only in its pin direction. */
  lemma PawnMovesSound(b: Board, whiteToMove: bool, r: int, c: int, pin: Option<(int, int)>,
                       ep: Option<(int, int)>, king: (int, int), m: Move)
    requires IsBoard(b) && OnBoard(r, c) && 0 <= r + Forward(whiteToMove) < 8 && OnBoard(king.0, king.1)
    requires m in PawnMoves(b, whiteToMove, r, c, pin, ep, king)
    ensures var amt := Forward(whiteToMove);
            var dc := m.endCol - c;
            && m == Create(r, c, m.endRow, m.endCol, b, m.isEnpassantMove, false)
            && (pin.Some? ==> pin.value == (amt, dc))
            && (|| (m.endRow == r + amt && dc == 0 && !m.isEnpassantMove && At(b, r + amt, c) == Empty)
                || (&& m.endRow == r + 2 * amt && dc == 0 && !m.isEnpassantMove && r == PawnStartRow(whiteToMove)
                    && At(b, r + amt, c) == Empty && At(b, r + 2 * amt, c) == Empty)
                || (&& m.endRow == r + amt && (dc == -1 || dc == 1)
                    && (if m.isEnpassantMove
                        then ep == Some((m.endRow, m.endCol))
                             && EnpassantAllowed(b, r, c, m.endCol, SideColor(whiteToMove).Opponent(), king)
                        else At(b, m.endRow, m.endCol).Is(SideColor(whiteToMove).Opponent()))))
  {
    var amt := Forward(whiteToMove);
    if m in PawnCaptures(b, whiteToMove, r, c, -1, pin, ep, king) {
      PawnCapturesSound(b, whiteToMove, r, c, -1, pin, ep, king, m);
    } else if m in PawnCaptures(b, whiteToMove, r, c, 1, pin, ep, king) {
      PawnCapturesSound(b, whiteToMove, r, c, 1, pin, ep, king, m);
    } else {
      assert At(b, r + amt, c) == Empty && (pin.None? || pin.value == (amt, 0));
    }
  }

  /** One capture side of the pawn generator: a diagonal step that the pin allows, onto an
      enemy piece or, en passant, onto the target square. */
  lemma PawnCapturesSound(b: Board, whiteToMove: bool, r: int, c: int, dc: int, pin: Option<(int, int)>,
                          ep: Option<(int, int)>, king: (int, int), m: Move)
    requires IsBoard(b) && OnBoard(r, c) && 0 <= r + Forward(whiteToMove) < 8 && OnBoard(king.0, king.1)
    requires m in PawnCaptures(b, whiteToMove, r, c, dc, pin, ep, king)
    ensures && m == Create(r, c, r + Forward(whiteToMove), c + dc, b, m.isEnpassantMove, false)
            && (pin.Some? ==> pin.value == (Forward(whiteToMove), dc))
            && (if m.isEnpassantMove
                then ep == Some((m.endRow, m.endCol))
                     && EnpassantAllowed(b, r, c, m.endCol, SideColor(whiteToMove).Opponent(), king)
                else At(b, m.endRow, m.endCol).Is(SideColor(whiteToMove).Opponent()))
  {
  }

  /** A pawn not pinned off its file steps onto the empty square ahead, and from the start
      row onwards onto a second empty square. */
  lemma PawnAdvanceListed(b: Board, whiteToMove: bool, r: int, c: int, pin: Option<(int, int)>,
                          ep: Option<(int, int)>, king: (int, int))
    requires IsBoard(b) && OnBoard(r, c) && 0 <= r + Forward(whiteToMove) < 8 && OnBoard(king.0, king.1)
    requires At(b, r + Forward(whiteToMove), c) == Empty
    requires pin.None? || pin.value == (Forward(whiteToMove), 0)
    ensures Create(r, c, r + Forward(whiteToMove), c, b, false, false) in PawnMoves(b, whiteToMove, r, c, pin, ep, king)
    ensures r == PawnStartRow(whiteToMove) && At(b, r + 2 * Forward(whiteToMove), c) == Empty
            ==> Create(r, c, r + 2 * Forward(whiteToMove), c, b, false, false) in PawnMoves(b, whiteToMove, r, c, pin, ep, king)
  {
    var amt := Forward(whiteToMove);
    var ms := PawnMoves(b, whiteToMove, r, c, pin, ep, king);
    assert ms[0] == Create(r, c, r + amt, c, b, false, false);
    if r == PawnStartRow(whiteToMove) && At(b, r + 2 * amt, c) == Empty {
      assert ms[1] == Create(r, c, r + 2 * amt, c, b, false, false);
    }
  }

  /** A pawn not pinned off the diagonal towards column c + dc captures the enemy piece
      standing there, and captures en passant onto the target square there unless the
      veto objects. */
  lemma PawnCaptureListed(b: Board, whiteToMove: bool, r: int, c: int, dc: int, pin: Option<(int, int)>,
                          ep: Option<(int, int)>, king: (int, int))
    requires IsBoard(b) && OnBoard(r, c) && 0 <= r + Forward(whiteToMove) < 8 && OnBoard(king.0, king.1)
    requires (dc == -1 || dc == 1) && 0 <= c + dc < 8
    requires pin.None? || pin.value == (Forward(whiteToMove), dc)
    ensures At(b, r + Forward(whiteToMove), c + dc).Is(SideColor(whiteToMove).Opponent())
            ==> Create(r, c, r + Forward(whiteToMove), c + dc, b, false, false) in PawnMoves(b, whiteToMove, r, c, pin, ep, king)
    ensures ep == Some((r + Forward(whiteToMove), c + dc))
            && EnpassantAllowed(b, r, c, c + dc, SideColor(whiteToMove).Opponent(), king)
            ==> Create(r, c, r + Forward(whiteToMove), c + dc, b, true, false) in PawnMoves(b, whiteToMove, r, c, pin, ep, king)
  {
    var amt := Forward(whiteToMove);
    var caps := PawnCaptures(b, whiteToMove, r, c, dc, pin, ep, king);
    assert forall x | x in caps :: x in PawnMoves(b, whiteToMove, r, c, pin, ep, king);
  }

  /** `getPawnMoves` with its pin lookup. */
  function PawnMovesAt(b: Board, whiteToMove: bool, pins: seq<Ray>, r: int, c: int, ep: Option<(int, int)>,
                       king: (int, int)): (res: (seq<Ray>, seq<Move>))
    requires IsBoard(b) && OnBoard(r, c) && 0 <= r + Forward(whiteToMove) < 8 && OnBoard(king.0, king.1)
    ensures forall m | m in res.1 :: FromSquare(b, r, c, m)
  {
    var (pin, pins') := TakePin(pins, r, c, true);
    (pins', PawnMoves(b, whiteToMove, r, c, pin, ep, king))
  }

  /** The veto counts a piece standing beyond an enemy rook as a blocker: with the white
      king on a5, the white pawn on d5 next to a black pawn on e5 that has just advanced
      two squares, a black rook on g5 and a white knight on h5, the en-passant capture
      is allowed although removing both pawns opens the rank between the rook and the
      king. */
  lemma EnpassantVetoBlockedFromBehind()
    ensures var row := [Piece(White, King), Empty, Empty, Piece(White, Pawn), Piece(Black, Pawn),
                        Empty, Piece(Black, Rook), Piece(White, Knight)];
      var b := [seq(8, _ => Empty), seq(8, _ => Empty), seq(8, _ => Empty), row,
                seq(8, _ => Empty), seq(8, _ => Empty), seq(8, _ => Empty), seq(8, _ => Empty)];
      && IsBoard(b)
      && (forall i | 0 < i < 6 && i != 3 && i != 4 :: At(b, 3, i) == Empty)
      && EnemyLine(At(b, 3, 6), Black)
      && EnpassantAllowed(b, 3, 3, 4, Black, (3, 0))
  {
    var row := [Piece(White, King), Empty, Empty, Piece(White, Pawn), Piece(Black, Pawn),
                Empty, Piece(Black, Rook), Piece(White, Knight)];
    var b := [seq(8, _ => Empty), seq(8, _ => Empty), seq(8, _ => Empty), row,
              seq(8, _ => Empty), seq(8, _ => Empty), seq(8, _ => Empty), seq(8, _ => Empty)];
    assert At(b, 3, 7) != Empty && !EnemyLine(At(b, 3, 7), Black);
  }
}
