/** Attack analysis: the ray scans `squareUnderAttack` and `checkForPinsAndChecks`.
    Each scan is given together with a declarative description of what it finds
    and a lemma that the two agree. */
module Analysis {
  import opened Wrappers
  import opened Pieces

  /** The eight rays in scan order: four orthogonal (indices 0-3), four diagonal (4-7). */
  const Directions: seq<(int, int)> :=
    [(-1, 0), (0, -1), (1, 0), (0, 1), (-1, -1), (-1, 1), (1, -1), (1, 1)]

  const KnightOffsets: seq<(int, int)> :=
    [(-2, -1), (-2, 1), (-1, -2), (-1, 2), (1, -2), (1, 2), (2, -1), (2, 1)]

  /** The square `i` steps from (r, c) along `d`. */
  function Step(r: int, c: int, d: (int, int), i: int): (int, int) {
    (r + d.0 * i, c + d.1 * i)
  }

  /** Whether an enemy piece of `kind`, met `i` steps away along ray `j`, attacks the
      origin: a rook on an orthogonal ray, a bishop on a diagonal one, a queen on any,
      a king one step away, or a pawn one step away on a diagonal it captures along
      (a white pawn from below, a black pawn from above). */
  predicate Attacks(kind: Kind, enemy: Color, j: int, i: int) {
    || (0 <= j <= 3 && kind == Rook)
    || (4 <= j <= 7 && kind == Bishop)
    || (i == 1 && kind == Pawn && ((enemy == White && 6 <= j <= 7) || (enemy == Black && 4 <= j <= 5)))
    || kind == Queen
    || (i == 1 && kind == King)
  }

  // ---------------------------------------------------------------------------
  // squareUnderAttack

  predicate EmptyStep(b: Board, r: int, c: int, j: int, k: int)
    requires IsBoard(b) && 0 <= j < 8
  {
    var (er, ec) := Step(r, c, Directions[j], k);
    OnBoard(er, ec) && At(b, er, ec) == Empty
  }

  predicate EmptyRange(b: Board, r: int, c: int, j: int, lo: int, hi: int)
    requires IsBoard(b) && 0 <= j < 8
  {
    forall k | lo <= k < hi :: EmptyStep(b, r, c, j, k)
  }

  /** An enemy of `ally` stands `i` steps along ray `j` and attacks from there. */
  predicate EnemyHits(b: Board, r: int, c: int, ally: Color, j: int, i: int)
    requires IsBoard(b) && 0 <= j < 8
  {
    var (er, ec) := Step(r, c, Directions[j], i);
    OnBoard(er, ec) && At(b, er, ec).Is(ally.Opponent()) && Attacks(At(b, er, ec).kind, ally.Opponent(), j, i)
  }

  /** Reference description: the square is attacked along ray `j` from distance `i`
      when every nearer square is empty and the piece at distance `i` attacks. */
  predicate AttackAlong(b: Board, r: int, c: int, ally: Color, j: int, i: int)
    requires IsBoard(b) && 0 <= j < 8
  {
    1 <= i < 8 && EmptyRange(b, r, c, j, 1, i) && EnemyHits(b, r, c, ally, j, i)
  }

  /** The scan of one ray from distance `i` on: it stops at the board edge, at any
      allied piece, and at the first enemy piece, which attacks or not. */
  function RayAttacked(b: Board, r: int, c: int, ally: Color, j: int, i: int): bool
    requires IsBoard(b) && 0 <= j < 8 && 1 <= i
    decreases 8 - i
  {
    if i >= 8 then false
    else
      var (er, ec) := Step(r, c, Directions[j], i);
      if !OnBoard(er, ec) then false
      else
        var p := At(b, er, ec);
        if p.Is(ally) then false
        else if p.Is(ally.Opponent()) then Attacks(p.kind, ally.Opponent(), j, i)
        else RayAttacked(b, r, c, ally, j, i + 1)
  }

  function AttackedFrom(b: Board, r: int, c: int, ally: Color, j: nat): bool
    requires IsBoard(b)
    decreases 8 - j
  {
    if j >= 8 then false else RayAttacked(b, r, c, ally, j, 1) || AttackedFrom(b, r, c, ally, j + 1)
  }

  /** `squareUnderAttack`: some ray from (r, c) reaches an enemy that attacks along
      it. Knights are not looked for. */
  function SquareUnderAttack(b: Board, r: int, c: int, ally: Color): bool
    requires IsBoard(b)
  {
    AttackedFrom(b, r, c, ally, 0)
  }

  lemma {:induction false} RayAttackedExact(b: Board, r: int, c: int, ally: Color, j: int, i0: int)
    requires IsBoard(b) && 0 <= j < 8 && 1 <= i0
    ensures RayAttacked(b, r, c, ally, j, i0) <==>
              exists i :: i0 <= i < 8 && EmptyRange(b, r, c, j, i0, i) && EnemyHits(b, r, c, ally, j, i)
    decreases 8 - i0
  {
    if i0 < 8 {
      assert EmptyRange(b, r, c, j, i0, i0);
      if EmptyStep(b, r, c, j, i0) {
        RayAttackedExact(b, r, c, ally, j, i0 + 1);
        if RayAttacked(b, r, c, ally, j, i0) {
          var i :| i0 + 1 <= i < 8 && EmptyRange(b, r, c, j, i0 + 1, i) && EnemyHits(b, r, c, ally, j, i);
          assert EmptyRange(b, r, c, j, i0, i);
        }
        if exists i :: i0 <= i < 8 && EmptyRange(b, r, c, j, i0, i) && EnemyHits(b, r, c, ally, j, i) {
          var i :| i0 <= i < 8 && EmptyRange(b, r, c, j, i0, i) && EnemyHits(b, r, c, ally, j, i);
          assert i != i0;
          assert EmptyRange(b, r, c, j, i0 + 1, i);
        }
      } else {
        if exists i :: i0 <= i < 8 && EmptyRange(b, r, c, j, i0, i) && EnemyHits(b, r, c, ally, j, i) {
          var i :| i0 <= i < 8 && EmptyRange(b, r, c, j, i0, i) && EnemyHits(b, r, c, ally, j, i);
          assert i == i0;
        }
      }
    }
  }

  /** `squareUnderAttack` holds exactly when some ray carries an attack in the sense
      of the reference description. */
  lemma SquareUnderAttackExact(b: Board, r: int, c: int, ally: Color)
    requires IsBoard(b)
    ensures SquareUnderAttack(b, r, c, ally) <==> exists j, i :: 0 <= j < 8 && AttackAlong(b, r, c, ally, j, i)
  {
    forall j | 0 <= j < 8 ensures RayAttacked(b, r, c, ally, j, 1) <==> exists i :: AttackAlong(b, r, c, ally, j, i) {
      RayAttackedExact(b, r, c, ally, j, 1);
      if RayAttacked(b, r, c, ally, j, 1) {
        var i :| 1 <= i < 8 && EmptyRange(b, r, c, j, 1, i) && EnemyHits(b, r, c, ally, j, i);
        assert AttackAlong(b, r, c, ally, j, i);
      }
    }
    AttackedFromExact(b, r, c, ally, 0);
  }

  lemma {:induction false} AttackedFromExact(b: Board, r: int, c: int, ally: Color, j0: nat)
    requires IsBoard(b)
    requires forall j | 0 <= j < 8 :: RayAttacked(b, r, c, ally, j, 1) <==> exists i :: AttackAlong(b, r, c, ally, j, i)
    ensures AttackedFrom(b, r, c, ally, j0) <==> exists j, i :: j0 <= j < 8 && AttackAlong(b, r, c, ally, j, i)
    decreases 8 - j0
  {
    if j0 < 8 {
      AttackedFromExact(b, r, c, ally, j0 + 1);
    }
  }

  // ---------------------------------------------------------------------------
  // checkForPinsAndChecks

  /** A pin or a check: a square and the ray direction (or knight offset) from the king to it. */
  datatype Ray = Ray(row: int, col: int, dr: int, dc: int)

  datatype Report = Report(inCheck: bool, pins: seq<Ray>, checks: seq<Ray>)

  function RayAt(r: int, c: int, j: int, i: int): Ray
    requires 0 <= j < 8
  {
    var (er, ec) := Step(r, c, Directions[j], i);
    Ray(er, ec, Directions[j].0, Directions[j].1)
  }

  /** The scan passes over empty squares and over the allied king itself. */
  predicate SeeThrough(b: Board, ally: Color, r: int, c: int, j: int, k: int)
    requires IsBoard(b) && 0 <= j < 8
  {
    var (er, ec) := Step(r, c, Directions[j], k);
    OnBoard(er, ec) && (At(b, er, ec) == Empty || At(b, er, ec) == Piece(ally, King))
  }

  /** An allied piece other than the king, the only kind that can be pinned. */
  predicate Blocker(b: Board, ally: Color, r: int, c: int, j: int, k: int)
    requires IsBoard(b) && 0 <= j < 8
  {
    var (er, ec) := Step(r, c, Directions[j], k);
    OnBoard(er, ec) && At(b, er, ec).Is(ally) && At(b, er, ec).kind != King
  }

  predicate ClearRange(b: Board, ally: Color, r: int, c: int, j: int, lo: int, hi: int)
    requires IsBoard(b) && 0 <= j < 8
  {
    forall k | lo <= k < hi :: SeeThrough(b, ally, r, c, j, k)
  }

  /** Reference description of a check along ray `j`: the attacker at distance `i`
      with nothing but empty squares (or the king) in between. */
  predicate RayCheck(b: Board, ally: Color, r: int, c: int, j: int, i: int)
    requires IsBoard(b) && 0 <= j < 8
  {
    1 <= i < 8 && ClearRange(b, ally, r, c, j, 1, i) && EnemyHits(b, r, c, ally, j, i)
  }

  /** A pin along ray `j` for a scan started at distance `i0`. */
  predicate PinFrom(b: Board, ally: Color, r: int, c: int, j: int, i0: int, p: int, i: int)
    requires IsBoard(b) && 0 <= j < 8
  {
    && i0 <= p < i < 8
    && ClearRange(b, ally, r, c, j, i0, p)
    && Blocker(b, ally, r, c, j, p)
    && ClearRange(b, ally, r, c, j, p + 1, i)
    && EnemyHits(b, r, c, ally, j, i)
  }

  /** Reference description of a pin along ray `j`: exactly one allied non-king piece,
      at distance `p`, between the king and an attacker at distance `i`. */
  predicate RayPin(b: Board, ally: Color, r: int, c: int, j: int, p: int, i: int)
    requires IsBoard(b) && 0 <= j < 8
  {
    PinFrom(b, ally, r, c, j, 1, p, i)
  }

  /** The scan of one ray from distance `i` with the candidate pin found so far;
      answers (pin, check), at most one of which is present. */
  function ScanRay(b: Board, ally: Color, r: int, c: int, j: int, i: int, candidate: Option<Ray>)
    : (Option<Ray>, Option<Ray>)
    requires IsBoard(b) && 0 <= j < 8 && 1 <= i
    decreases 8 - i
  {
    if i >= 8 then (None, None)
    else
      var (er, ec) := Step(r, c, Directions[j], i);
      if !OnBoard(er, ec) then (None, None)
      else
        var p := At(b, er, ec);
        if p.Is(ally) && p.kind != King then
          if candidate.None? then ScanRay(b, ally, r, c, j, i + 1, Some(RayAt(r, c, j, i)))
          else (None, None)
        else if p.Is(ally.Opponent()) then
          if Attacks(p.kind, ally.Opponent(), j, i) then
            if candidate.None? then (None, Some(RayAt(r, c, j, i))) else (candidate, None)
          else (None, None)
        else ScanRay(b, ally, r, c, j, i + 1, candidate)
  }

  /** An attacker at distance `i` with only see-through squares from distance `i0` on. */
  predicate CheckFrom(b: Board, ally: Color, r: int, c: int, j: int, i0: int, i: int)
    requires IsBoard(b) && 0 <= j < 8
  {
    i0 <= i < 8 && ClearRange(b, ally, r, c, j, i0, i) && EnemyHits(b, r, c, ally, j, i)
  }

  /** Some attacker is found scanning from distance `i0`. */
  ghost predicate AnyCheckFrom(b: Board, ally: Color, r: int, c: int, j: int, i0: int)
    requires IsBoard(b) && 0 <= j < 8
  {
    exists i :: CheckFrom(b, ally, r, c, j, i0, i)
  }

  /** `x` is the square and direction of an attacker found scanning from distance `i0`. */
  ghost predicate CheckReported(b: Board, ally: Color, r: int, c: int, j: int, i0: int, x: Ray)
    requires IsBoard(b) && 0 <= j < 8
  {
    exists i :: CheckFrom(b, ally, r, c, j, i0, i) && x == RayAt(r, c, j, i)
  }

  /** Some pin is found scanning from distance `i0`. */
  ghost predicate AnyPinFrom(b: Board, ally: Color, r: int, c: int, j: int, i0: int)
    requires IsBoard(b) && 0 <= j < 8
  {
    exists p, i :: PinFrom(b, ally, r, c, j, i0, p, i)
  }

  /** `x` is the square and direction of a pinned piece found scanning from distance `i0`. */
  ghost predicate PinReported(b: Board, ally: Color, r: int, c: int, j: int, i0: int, x: Ray)
    requires IsBoard(b) && 0 <= j < 8
  {
    exists p, i :: PinFrom(b, ally, r, c, j, i0, p, i) && x == RayAt(r, c, j, p)
  }

  lemma ClearRangeStep(b: Board, ally: Color, r: int, c: int, j: int, lo: int, hi: int)
    requires IsBoard(b) && 0 <= j < 8 && lo < hi
    ensures ClearRange(b, ally, r, c, j, lo, hi) <==> SeeThrough(b, ally, r, c, j, lo) && ClearRange(b, ally, r, c, j, lo + 1, hi)
  {
  }

  /** Over a see-through square the attackers found from `i0` are those found from
      `i0 + 1`. */
  lemma CheckFromShift(b: Board, ally: Color, r: int, c: int, j: int, i0: int)
    requires IsBoard(b) && 0 <= j < 8 && i0 < 8 && SeeThrough(b, ally, r, c, j, i0)
    ensures AnyCheckFrom(b, ally, r, c, j, i0) <==> AnyCheckFrom(b, ally, r, c, j, i0 + 1)
    ensures forall x :: CheckReported(b, ally, r, c, j, i0 + 1, x) ==> CheckReported(b, ally, r, c, j, i0, x)
  {
    assert !EnemyHits(b, r, c, ally, j, i0);
    if AnyCheckFrom(b, ally, r, c, j, i0) {
      var i :| CheckFrom(b, ally, r, c, j, i0, i);
      ClearRangeStep(b, ally, r, c, j, i0, i);
      assert CheckFrom(b, ally, r, c, j, i0 + 1, i);
    }
    if AnyCheckFrom(b, ally, r, c, j, i0 + 1) {
      var i :| CheckFrom(b, ally, r, c, j, i0 + 1, i);
      ClearRangeStep(b, ally, r, c, j, i0, i);
      assert CheckFrom(b, ally, r, c, j, i0, i);
    }
    forall x | CheckReported(b, ally, r, c, j, i0 + 1, x) ensures CheckReported(b, ally, r, c, j, i0, x) {
      var i :| CheckFrom(b, ally, r, c, j, i0 + 1, i) && x == RayAt(r, c, j, i);
      ClearRangeStep(b, ally, r, c, j, i0, i);
      assert CheckFrom(b, ally, r, c, j, i0, i);
    }
  }

  /** On a square that is not see-through, an attacker is found only there. */
  lemma CheckFromStop(b: Board, ally: Color, r: int, c: int, j: int, i0: int)
    requires IsBoard(b) && 0 <= j < 8 && i0 < 8 && !SeeThrough(b, ally, r, c, j, i0)
    ensures AnyCheckFrom(b, ally, r, c, j, i0) <==> EnemyHits(b, r, c, ally, j, i0)
    ensures EnemyHits(b, r, c, ally, j, i0) ==> CheckReported(b, ally, r, c, j, i0, RayAt(r, c, j, i0))
  {
    assert ClearRange(b, ally, r, c, j, i0, i0);
    if AnyCheckFrom(b, ally, r, c, j, i0) {
      var i :| CheckFrom(b, ally, r, c, j, i0, i);
      assert i == i0;
    }
    if EnemyHits(b, r, c, ally, j, i0) {
      assert CheckFrom(b, ally, r, c, j, i0, i0);
    }
  }

  lemma {:induction false} ScanRayAfterBlocker(b: Board, ally: Color, r: int, c: int, j: int, i0: int, cand: Ray)
    requires IsBoard(b) && 0 <= j < 8 && 1 <= i0
    ensures ScanRay(b, ally, r, c, j, i0, Some(cand)).1 == None
    ensures ScanRay(b, ally, r, c, j, i0, Some(cand)).0 in {None, Some(cand)}
    ensures ScanRay(b, ally, r, c, j, i0, Some(cand)).0.Some? <==> AnyCheckFrom(b, ally, r, c, j, i0)
    decreases 8 - i0
  {
    if i0 < 8 {
      if SeeThrough(b, ally, r, c, j, i0) {
        ScanRayAfterBlocker(b, ally, r, c, j, i0 + 1, cand);
        CheckFromShift(b, ally, r, c, j, i0);
        assert ScanRay(b, ally, r, c, j, i0, Some(cand)) == ScanRay(b, ally, r, c, j, i0 + 1, Some(cand));
      } else {
        CheckFromStop(b, ally, r, c, j, i0);
      }
    }
  }

  /** The one-ray scan reports a check exactly when the reference description
      finds an attacker with only see-through squares before it, and the reported
      square is that attacker's. */
  lemma {:induction false} ScanRayCheckExact(b: Board, ally: Color, r: int, c: int, j: int, i0: int)
    requires IsBoard(b) && 0 <= j < 8 && 1 <= i0
    ensures var check := ScanRay(b, ally, r, c, j, i0, None).1;
      && (check.Some? <==> AnyCheckFrom(b, ally, r, c, j, i0))
      && (check.Some? ==> CheckReported(b, ally, r, c, j, i0, check.value))
    decreases 8 - i0
  {
    if i0 < 8 {
      if SeeThrough(b, ally, r, c, j, i0) {
        ScanRayCheckExact(b, ally, r, c, j, i0 + 1);
        CheckFromShift(b, ally, r, c, j, i0);
        assert ScanRay(b, ally, r, c, j, i0, None) == ScanRay(b, ally, r, c, j, i0 + 1, None);
      } else {
        CheckFromStop(b, ally, r, c, j, i0);
        if Blocker(b, ally, r, c, j, i0) {
          ScanRayAfterBlocker(b, ally, r, c, j, i0 + 1, RayAt(r, c, j, i0));
        }
      }
    }
  }

  /** The one-ray scan reports a pin exactly when the reference description finds one
      allied non-king piece between the king and an attacker, and the reported square
      is that piece's. */
  lemma {:induction false} ScanRayPinExact(b: Board, ally: Color, r: int, c: int, j: int, i0: int)
    requires IsBoard(b) && 0 <= j < 8 && 1 <= i0
    ensures var pin := ScanRay(b, ally, r, c, j, i0, None).0;
      && (AnyPinFrom(b, ally, r, c, j, i0) ==> pin.Some?)
      && (pin.Some? ==> PinReported(b, ally, r, c, j, i0, pin.value))
    decreases 8 - i0
  {
    if i0 < 8 {
      var pin := ScanRay(b, ally, r, c, j, i0, None).0;
      if SeeThrough(b, ally, r, c, j, i0) {
        ScanRayPinExact(b, ally, r, c, j, i0 + 1);
        assert pin == ScanRay(b, ally, r, c, j, i0 + 1, None).0;
        PinFromShift(b, ally, r, c, j, i0);
      } else if Blocker(b, ally, r, c, j, i0) {
        ScanRayAfterBlocker(b, ally, r, c, j, i0 + 1, RayAt(r, c, j, i0));
        assert pin == ScanRay(b, ally, r, c, j, i0 + 1, Some(RayAt(r, c, j, i0))).0;
        PinFromBlocker(b, ally, r, c, j, i0);
      } else {
        forall p, i ensures !PinFrom(b, ally, r, c, j, i0, p, i) {
          if i0 < p {
            assert !SeeThrough(b, ally, r, c, j, i0);
          }
        }
      }
    }
  }

  /** Over a see-through square the pins found from `i0` are those found from `i0 + 1`. */
  lemma PinFromShift(b: Board, ally: Color, r: int, c: int, j: int, i0: int)
    requires IsBoard(b) && 0 <= j < 8 && i0 < 8 && SeeThrough(b, ally, r, c, j, i0)
    ensures AnyPinFrom(b, ally, r, c, j, i0) ==> AnyPinFrom(b, ally, r, c, j, i0 + 1)
    ensures forall x :: PinReported(b, ally, r, c, j, i0 + 1, x) ==> PinReported(b, ally, r, c, j, i0, x)
  {
    assert !Blocker(b, ally, r, c, j, i0);
    if AnyPinFrom(b, ally, r, c, j, i0) {
      var p, i :| PinFrom(b, ally, r, c, j, i0, p, i);
      ClearRangeStep(b, ally, r, c, j, i0, p);
      assert PinFrom(b, ally, r, c, j, i0 + 1, p, i);
    }
    forall x | PinReported(b, ally, r, c, j, i0 + 1, x) ensures PinReported(b, ally, r, c, j, i0, x) {
      var p, i :| PinFrom(b, ally, r, c, j, i0 + 1, p, i) && x == RayAt(r, c, j, p);
      ClearRangeStep(b, ally, r, c, j, i0, p);
      assert PinFrom(b, ally, r, c, j, i0, p, i);
    }
  }

  /** Behind a blocker at `i0` a pin is that blocker, confirmed by an attacker further out. */
  lemma PinFromBlocker(b: Board, ally: Color, r: int, c: int, j: int, i0: int)
    requires IsBoard(b) && 0 <= j < 8 && i0 < 8 && Blocker(b, ally, r, c, j, i0)
    ensures AnyPinFrom(b, ally, r, c, j, i0) <==> AnyCheckFrom(b, ally, r, c, j, i0 + 1)
    ensures AnyCheckFrom(b, ally, r, c, j, i0 + 1) ==> PinReported(b, ally, r, c, j, i0, RayAt(r, c, j, i0))
  {
    assert ClearRange(b, ally, r, c, j, i0, i0);
    if AnyPinFrom(b, ally, r, c, j, i0) {
      var p, i :| PinFrom(b, ally, r, c, j, i0, p, i);
      if i0 < p {
        ClearRangeStep(b, ally, r, c, j, i0, p);
        assert false;
      }
      assert CheckFrom(b, ally, r, c, j, i0 + 1, i);
    }
    if AnyCheckFrom(b, ally, r, c, j, i0 + 1) {
      var i :| CheckFrom(b, ally, r, c, j, i0 + 1, i);
      assert PinFrom(b, ally, r, c, j, i0, i0, i);
    }
  }

  /** A pin and a check can each sit at only one distance along a ray. */
  lemma PinUnique(b: Board, ally: Color, r: int, c: int, j: int, p: int, i: int, p': int, i': int)
    requires IsBoard(b) && 0 <= j < 8
    requires RayPin(b, ally, r, c, j, p, i) && RayPin(b, ally, r, c, j, p', i')
    ensures p == p'
  {
    assert !SeeThrough(b, ally, r, c, j, p) && !SeeThrough(b, ally, r, c, j, p');
  }

  lemma CheckUnique(b: Board, ally: Color, r: int, c: int, j: int, i: int, i': int)
    requires IsBoard(b) && 0 <= j < 8
    requires RayCheck(b, ally, r, c, j, i) && RayCheck(b, ally, r, c, j, i')
    ensures i == i'
  {
    assert !SeeThrough(b, ally, r, c, j, i) && !SeeThrough(b, ally, r, c, j, i');
  }

  function OptionToSeq<T(!new)>(o: Option<T>): (s: seq<T>)
    ensures |s| <= 1
    ensures forall x :: x in s <==> o == Some(x)
  {
    match o
    case Some(x) => [x]
    case None => []
  }

  /** Pins and ray checks from rays `j` to 7, in ray order. */
  function ScanAll(b: Board, ally: Color, r: int, c: int, j: nat): (res: (seq<Ray>, seq<Ray>))
    requires IsBoard(b) && j <= 8
    ensures |res.0| <= 8 - j && |res.1| <= 8 - j
    decreases 8 - j
  {
    if j == 8 then ([], [])
    else
      var (pin, check) := ScanRay(b, ally, r, c, j, 1, None);
      var (pins, checks) := ScanAll(b, ally, r, c, j + 1);
      (OptionToSeq(pin) + pins, OptionToSeq(check) + checks)
  }

  /** A pin the reference description confirms, reported as (square, ray direction). */
  ghost predicate PinnedOn(b: Board, ally: Color, r: int, c: int, x: Ray)
    requires IsBoard(b)
  {
    exists j, p, i | 0 <= j < 8 :: RayPin(b, ally, r, c, j, p, i) && x == RayAt(r, c, j, p)
  }

  /** A check along a ray the reference description confirms, as (attacker, ray direction). */
  ghost predicate CheckedAlong(b: Board, ally: Color, r: int, c: int, x: Ray)
    requires IsBoard(b)
  {
    exists j, i | 0 <= j < 8 :: RayCheck(b, ally, r, c, j, i) && x == RayAt(r, c, j, i)
  }

  /** Every reported pin is confirmed by the reference description, and every pin the
      reference description finds is reported. */
  lemma ScanAllPins(b: Board, ally: Color, r: int, c: int, j0: nat)
    requires IsBoard(b) && j0 <= 8
    ensures var pins := ScanAll(b, ally, r, c, j0).0;
      && (forall x | x in pins :: PinnedOn(b, ally, r, c, x) && (x.dr, x.dc) in Directions[j0..])
      && (forall j, p, i | j0 <= j < 8 && RayPin(b, ally, r, c, j, p, i) :: RayAt(r, c, j, p) in pins)
  {
    ScanAllPinsSound(b, ally, r, c, j0);
    ScanAllPinsComplete(b, ally, r, c, j0);
  }

  lemma {:induction false} ScanAllPinsSound(b: Board, ally: Color, r: int, c: int, j0: nat)
    requires IsBoard(b) && j0 <= 8
    ensures forall x | x in ScanAll(b, ally, r, c, j0).0 :: PinnedOn(b, ally, r, c, x) && (x.dr, x.dc) in Directions[j0..]
    decreases 8 - j0
  {
    if j0 < 8 {
      var pin := ScanRay(b, ally, r, c, j0, 1, None).0;
      var pins := ScanAll(b, ally, r, c, j0 + 1).0;
      assert ScanAll(b, ally, r, c, j0).0 == OptionToSeq(pin) + pins;
      ScanAllPinsSound(b, ally, r, c, j0 + 1);
      ScanRayPinExact(b, ally, r, c, j0, 1);
      PrependPinned(b, ally, r, c, pin, pins, j0);
    }
  }

  /** A confirmed pin of ray `j0` put in front of confirmed pins of the later rays. */
  lemma PrependPinned(b: Board, ally: Color, r: int, c: int, pin: Option<Ray>, pins: seq<Ray>, j0: nat)
    requires IsBoard(b) && j0 < 8
    requires pin.Some? ==> PinReported(b, ally, r, c, j0, 1, pin.value)
    requires forall x | x in pins :: PinnedOn(b, ally, r, c, x) && (x.dr, x.dc) in Directions[j0 + 1..]
    ensures forall x | x in OptionToSeq(pin) + pins :: PinnedOn(b, ally, r, c, x) && (x.dr, x.dc) in Directions[j0..]
  {
    assert Directions[j0..] == [Directions[j0]] + Directions[j0 + 1..];
    if pin.Some? {
      var p, i :| PinFrom(b, ally, r, c, j0, 1, p, i) && pin.value == RayAt(r, c, j0, p);
      assert RayPin(b, ally, r, c, j0, p, i);
    }
  }

  lemma {:induction false} ScanAllPinsComplete(b: Board, ally: Color, r: int, c: int, j0: nat)
    requires IsBoard(b) && j0 <= 8
    ensures forall j, p, i | j0 <= j < 8 && RayPin(b, ally, r, c, j, p, i) :: RayAt(r, c, j, p) in ScanAll(b, ally, r, c, j0).0
    decreases 8 - j0
  {
    if j0 < 8 {
      var pin := ScanRay(b, ally, r, c, j0, 1, None).0;
      var pins := ScanAll(b, ally, r, c, j0 + 1).0;
      var all := OptionToSeq(pin) + pins;
      assert ScanAll(b, ally, r, c, j0).0 == all;
      ScanAllPinsComplete(b, ally, r, c, j0 + 1);
      ScanRayPinExact(b, ally, r, c, j0, 1);
      forall j, p, i | j0 <= j < 8 && RayPin(b, ally, r, c, j, p, i) ensures RayAt(r, c, j, p) in all {
        if j == j0 {
          assert PinFrom(b, ally, r, c, j0, 1, p, i);
          var p0, i0 :| PinFrom(b, ally, r, c, j0, 1, p0, i0) && pin.value == RayAt(r, c, j0, p0);
          PinUnique(b, ally, r, c, j0, p0, i0, p, i);
        } else {
          assert RayAt(r, c, j, p) in pins;
        }
      }
    }
  }

  lemma {:induction false} ScanAllChecks(b: Board, ally: Color, r: int, c: int, j0: nat)
    requires IsBoard(b) && j0 <= 8
    ensures var checks := ScanAll(b, ally, r, c, j0).1;
      && (forall x | x in checks :: CheckedAlong(b, ally, r, c, x))
      && (forall j, i | j0 <= j < 8 && RayCheck(b, ally, r, c, j, i) :: RayAt(r, c, j, i) in checks)
    decreases 8 - j0
  {
    if j0 < 8 {
      var check := ScanRay(b, ally, r, c, j0, 1, None).1;
      var checks := ScanAll(b, ally, r, c, j0 + 1).1;
      assert ScanAll(b, ally, r, c, j0).1 == OptionToSeq(check) + checks;
      ScanAllChecks(b, ally, r, c, j0 + 1);
      ScanRayCheckExact(b, ally, r, c, j0, 1);
      if check.Some? {
        var i :| CheckFrom(b, ally, r, c, j0, 1, i) && check.value == RayAt(r, c, j0, i);
        assert RayCheck(b, ally, r, c, j0, i);
        assert CheckedAlong(b, ally, r, c, check.value);
      }
      forall j, i | j0 <= j < 8 && RayCheck(b, ally, r, c, j, i)
        ensures RayAt(r, c, j, i) in OptionToSeq(check) + checks
      {
        if j == j0 {
          assert CheckFrom(b, ally, r, c, j0, 1, i);
          var i0 :| CheckFrom(b, ally, r, c, j0, 1, i0) && check.value == RayAt(r, c, j0, i0);
          CheckUnique(b, ally, r, c, j0, i0, i);
        }
      }
    }
  }

  lemma DirectionsDistinct(j: nat)
    requires j < 8
    ensures Directions[j] !in Directions[j + 1..]
  {
  }

  /** No two rays in `xs` point the same way. */
  predicate DistinctDirections(xs: seq<Ray>)
  {
    forall a, a' | 0 <= a < a' < |xs| :: (xs[a].dr, xs[a].dc) != (xs[a'].dr, xs[a'].dc)
  }

  lemma PrependDistinct(x: Ray, xs: seq<Ray>)
    requires DistinctDirections(xs)
    requires forall y | y in xs :: (y.dr, y.dc) != (x.dr, x.dc)
    ensures DistinctDirections([x] + xs)
  {
    var all := [x] + xs;
    forall a, a' | 0 <= a < a' < |all| ensures (all[a].dr, all[a].dc) != (all[a'].dr, all[a'].dc) {
      if a == 0 {
        assert all[a'] in xs;
      } else {
        assert all[a] == xs[a - 1] && all[a'] == xs[a' - 1];
      }
    }
  }

  /** A pin the one-ray scan reports points along the scanned ray. */
  lemma {:induction false} ScanRayPinDirection(b: Board, ally: Color, r: int, c: int, j: int, i: int, cand: Option<Ray>)
    requires IsBoard(b) && 0 <= j < 8 && 1 <= i
    requires cand.Some? ==> (cand.value.dr, cand.value.dc) == Directions[j]
    ensures var pin := ScanRay(b, ally, r, c, j, i, cand).0;
      pin.Some? ==> (pin.value.dr, pin.value.dc) == Directions[j]
    decreases 8 - i
  {
    if i < 8 {
      ScanRayPinDirection(b, ally, r, c, j, i + 1, cand);
      ScanRayPinDirection(b, ally, r, c, j, i + 1, Some(RayAt(r, c, j, i)));
    }
  }

  /** Each ray contributes at most one pin, so no two pins share a direction. */
  lemma {:induction false} ScanAllPinsDistinct(b: Board, ally: Color, r: int, c: int, j0: nat)
    requires IsBoard(b) && j0 <= 8
    ensures var pins := ScanAll(b, ally, r, c, j0).0;
      && (forall x | x in pins :: (x.dr, x.dc) in Directions[j0..])
      && DistinctDirections(pins)
    decreases 8 - j0
  {
    if j0 < 8 {
      var pin := ScanRay(b, ally, r, c, j0, 1, None).0;
      var pins := ScanAll(b, ally, r, c, j0 + 1).0;
      assert ScanAll(b, ally, r, c, j0).0 == OptionToSeq(pin) + pins;
      ScanAllPinsDistinct(b, ally, r, c, j0 + 1);
      ScanRayPinDirection(b, ally, r, c, j0, 1, None);
      PrependPin(pin, pins, j0);
    }
  }

  /** The pin of ray `j0`, if any, put in front of the pins of the later rays. */
  lemma PrependPin(pin: Option<Ray>, pins: seq<Ray>, j0: nat)
    requires j0 < 8
    requires pin.Some? ==> (pin.value.dr, pin.value.dc) == Directions[j0]
    requires forall x | x in pins :: (x.dr, x.dc) in Directions[j0 + 1..]
    requires DistinctDirections(pins)
    ensures forall x | x in OptionToSeq(pin) + pins :: (x.dr, x.dc) in Directions[j0..]
    ensures DistinctDirections(OptionToSeq(pin) + pins)
  {
    assert Directions[j0..] == [Directions[j0]] + Directions[j0 + 1..];
    if pin.Some? {
      DirectionsDistinct(j0);
      PrependDistinct(pin.value, pins);
    } else {
      assert OptionToSeq(pin) + pins == pins;
    }
  }

  /** An enemy knight a knight's jump (offset `k`) away from (r, c). */
  predicate KnightCheck(b: Board, ally: Color, r: int, c: int, k: int)
    requires IsBoard(b)
  {
    && 0 <= k < 8
    && OnBoard(r + KnightOffsets[k].0, c + KnightOffsets[k].1)
    && At(b, r + KnightOffsets[k].0, c + KnightOffsets[k].1) == Piece(ally.Opponent(), Knight)
  }

  function KnightRay(r: int, c: int, k: int): Ray
    requires 0 <= k < 8
  {
    Ray(r + KnightOffsets[k].0, c + KnightOffsets[k].1, KnightOffsets[k].0, KnightOffsets[k].1)
  }

  /** Knight checks from offset `k` to 7, in offset order: exactly the offsets holding an enemy knight. */
  function KnightChecks(b: Board, ally: Color, r: int, c: int, k: nat): (res: seq<Ray>)
    requires IsBoard(b) && k <= 8
    ensures |res| <= 8 - k
    ensures forall x | x in res :: exists k' | k <= k' < 8 :: KnightCheck(b, ally, r, c, k') && x == KnightRay(r, c, k')
    ensures forall k' | k <= k' < 8 && KnightCheck(b, ally, r, c, k') :: KnightRay(r, c, k') in res
    decreases 8 - k
  {
    if k == 8 then []
    else
      var (er, ec) := (r + KnightOffsets[k].0, c + KnightOffsets[k].1);
      var here := if OnBoard(er, ec) && At(b, er, ec) == Piece(ally.Opponent(), Knight) then [KnightRay(r, c, k)] else [];
      here + KnightChecks(b, ally, r, c, k + 1)
  }

  /** The king of colour `ally` at (r, c) is attacked along a ray or by a knight. */
  ghost predicate Checked(b: Board, ally: Color, r: int, c: int)
    requires IsBoard(b)
  {
    (exists j, i | 0 <= j < 8 :: RayCheck(b, ally, r, c, j, i)) || (exists k :: KnightCheck(b, ally, r, c, k))
  }

  lemma RayChecksExact(b: Board, ally: Color, r: int, c: int)
    requires IsBoard(b)
    ensures |ScanAll(b, ally, r, c, 0).1| > 0 <==> exists j, i | 0 <= j < 8 :: RayCheck(b, ally, r, c, j, i)
  {
    var rayChecks := ScanAll(b, ally, r, c, 0).1;
    ScanAllChecks(b, ally, r, c, 0);
    if |rayChecks| > 0 {
      assert CheckedAlong(b, ally, r, c, rayChecks[0]);
    }
    if exists j, i | 0 <= j < 8 :: RayCheck(b, ally, r, c, j, i) {
      var j, i :| 0 <= j < 8 && RayCheck(b, ally, r, c, j, i);
      assert RayAt(r, c, j, i) in rayChecks;
    }
  }

  lemma KnightChecksExact(b: Board, ally: Color, r: int, c: int)
    requires IsBoard(b)
    ensures |KnightChecks(b, ally, r, c, 0)| > 0 <==> exists k :: KnightCheck(b, ally, r, c, k)
  {
    var knightChecks := KnightChecks(b, ally, r, c, 0);
    if |knightChecks| > 0 {
      assert knightChecks[0] in knightChecks;
    }
    if exists k :: KnightCheck(b, ally, r, c, k) {
      var k :| KnightCheck(b, ally, r, c, k);
      assert KnightRay(r, c, k) in knightChecks;
    }
  }

  lemma CheckedExact(b: Board, ally: Color, r: int, c: int)
    requires IsBoard(b)
    ensures |ScanAll(b, ally, r, c, 0).1 + KnightChecks(b, ally, r, c, 0)| > 0 <==> Checked(b, ally, r, c)
  {
    RayChecksExact(b, ally, r, c);
    KnightChecksExact(b, ally, r, c);
  }

  /** `checkForPinsAndChecks` for the king of colour `ally` placed at (r, c): the pins
      are exactly the allied non-king pieces the reference description calls pinned,
      at most one per ray; the checks are exactly the ray attackers and enemy knights
      a jump away; and the king is in check exactly when some such attacker exists. */
  function CheckForPinsAndChecks(b: Board, ally: Color, r: int, c: int): (rep: Report)
    requires IsBoard(b)
    ensures rep.inCheck <==> |rep.checks| > 0
    ensures rep.inCheck <==> Checked(b, ally, r, c)
    ensures |rep.pins| <= 8 && |rep.checks| <= 16
    ensures forall x | x in rep.pins :: PinnedOn(b, ally, r, c, x)
    ensures forall j, p, i | 0 <= j < 8 && RayPin(b, ally, r, c, j, p, i) :: RayAt(r, c, j, p) in rep.pins
    ensures DistinctDirections(rep.pins)
    ensures forall x | x in rep.checks ::
      CheckedAlong(b, ally, r, c, x) || exists k :: KnightCheck(b, ally, r, c, k) && x == KnightRay(r, c, k)
    ensures forall j, i | 0 <= j < 8 && RayCheck(b, ally, r, c, j, i) :: RayAt(r, c, j, i) in rep.checks
    ensures forall k | KnightCheck(b, ally, r, c, k) :: KnightRay(r, c, k) in rep.checks
  {
    var scan := ScanAll(b, ally, r, c, 0);
    ScanAllPins(b, ally, r, c, 0);
    ScanAllChecks(b, ally, r, c, 0);
    ScanAllPinsDistinct(b, ally, r, c, 0);
    CheckedExact(b, ally, r, c);
    var checks := scan.1 + KnightChecks(b, ally, r, c, 0);
    Report(|checks| > 0, scan.0, checks)
  }
}
