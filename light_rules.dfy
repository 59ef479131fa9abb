/** Pseudo-legal piece movement of the light-rules variant.

    No check, castling, en passant or promotion: a move is judged only by the
    moving piece's geometry and by which squares are occupied.  Kings may be
    captured like any other piece. */
module LightRules {
  import opened Pieces
  import opened Board

  function Abs(x: int): nat
  {
    if x < 0 then -x else x
  }

  function Sign(x: int): int
  {
    if x > 0 then 1 else if x < 0 then -1 else 0
  }

  function Max(a: nat, b: nat): nat
  {
    if a >= b then a else b
  }

  /** Same row, same column or same diagonal: the lines a slider moves along. */
  predicate Aligned(src: Square, dst: Square)
  {
    src.0 == dst.0 || src.1 == dst.1 || Abs(dst.0 - src.0) == Abs(dst.1 - src.1)
  }

  /** King-step distance: the number of single steps from src to dst. */
  function Dist(src: Square, dst: Square): nat
  {
    Max(Abs(dst.0 - src.0), Abs(dst.1 - src.1))
  }

  /** `k` times the unit `step` (which is -1, 0 or 1), without multiplication. */
  function Offset(k: int, step: int): int
  {
    if step > 0 then k else if step < 0 then -k else 0
  }

  /** The square reached from `from` after `k` steps in direction `d`. */
  function Walk(from: Square, d: Square, k: int): Square
  {
    (from.0 + Offset(k, d.0), from.1 + Offset(k, d.1))
  }

  /** The unit step from src towards dst (`step_r`, `step_c`). */
  function Step(src: Square, dst: Square): Square
  {
    (Sign(dst.0 - src.0), Sign(dst.1 - src.1))
  }

  /** The k-th square on the way from src to dst; it stays on the board. */
  function Between(src: Square, dst: Square, k: int): (s: Square)
    requires InBounds(src) && InBounds(dst) && Aligned(src, dst)
    requires 0 <= k <= Dist(src, dst)
    ensures InBounds(s)
  {
    Walk(src, Step(src, dst), k)
  }

  /** The k-th square on the way from src to dst is k steps from src and the
      remaining Dist(src, dst) - k steps from dst. */
  lemma BetweenDist(src: Square, dst: Square, k: int)
    requires InBounds(src) && InBounds(dst) && Aligned(src, dst)
    requires 0 <= k <= Dist(src, dst)
    ensures Dist(src, Between(src, dst, k)) == k
    ensures Dist(Between(src, dst, k), dst) == Dist(src, dst) - k
  {
  }

  /** Every square strictly between src and dst is empty. */
  predicate PathClear(b: array2<Cell>, src: Square, dst: Square)
    reads b
    requires Is8x8(b) && InBounds(src) && InBounds(dst) && Aligned(src, dst)
  {
    forall k :: 1 <= k < Dist(src, dst) ==> At(b, Between(src, dst, k)).None?
  }

  /** `is_path_clear`: steps (r, c) from the square after src until it reaches
      dst, failing at the first occupied square.  The walk ends only because
      src and dst are aligned, which every caller guarantees. */
  method IsPathClear(b: array2<Cell>, src: Square, dst: Square) returns (clear: bool)
    requires Is8x8(b) && InBounds(src) && InBounds(dst) && Aligned(src, dst)
    ensures clear <==> PathClear(b, src, dst)
  {
    var stepR := Sign(dst.0 - src.0);
    var stepC := Sign(dst.1 - src.1);
    var r, c := src.0 + stepR, src.1 + stepC;
    ghost var n: int := Dist(src, dst);
    ghost var k: int := 1;
    if n > 0 {
      assert (r, c) == Between(src, dst, 1);
    }
    while (r, c) != dst
      invariant n == 0 ==> (r, c) == dst
      invariant n > 0 ==> 1 <= k <= n && (r, c) == Between(src, dst, k)
      invariant forall j :: 1 <= j < k && j < n ==> At(b, Between(src, dst, j)).None?
      decreases n - k
    {
      ReachesDstOnlyAtEnd(src, dst, k);
      if b[r, c].Some? {
        assert At(b, Between(src, dst, k)).Some?;
        return false;
      }
      StepForward(src, dst, k);
      r, c := r + stepR, c + stepC;
      k := k + 1;
    }
    if n > 0 {
      ReachesDstOnlyAtEnd(src, dst, k);
    }
    return true;
  }

  /** The walk from src meets dst after exactly Dist(src, dst) steps. */
  lemma ReachesDstOnlyAtEnd(src: Square, dst: Square, k: int)
    requires InBounds(src) && InBounds(dst) && Aligned(src, dst)
    requires 0 <= k <= Dist(src, dst)
    ensures Between(src, dst, k) == dst <==> k == Dist(src, dst)
  {
    BetweenDist(src, dst, k);
  }

  /** One more step from the k-th square reaches the (k + 1)-th. */
  lemma StepForward(src: Square, dst: Square, k: int)
    requires InBounds(src) && InBounds(dst) && Aligned(src, dst)
    requires 0 <= k < Dist(src, dst)
    ensures Between(src, dst, k + 1) ==
      (Between(src, dst, k).0 + Sign(dst.0 - src.0), Between(src, dst, k).1 + Sign(dst.1 - src.1))
  {
  }

  /** Row direction of a pawn: White moves up the board, Black down. */
  function Forward(c: Color): int
  {
    if c == White then -1 else 1
  }

  /** The row a side's pawns start on. */
  function PawnStartRow(c: Color): int
  {
    if c == White then 6 else 1
  }

  /** The pawn branch of `legal_move_basic`: one step forward onto an empty
      square, two steps from the start row over two empty squares, or one
      diagonal step forward onto an occupied square. */
  function PawnMove(b: array2<Cell>, us: Color, src: Square, dst: Square): (ok: bool)
    reads b
    requires Is8x8(b) && InBounds(src) && InBounds(dst)
    ensures ok ==> Abs(dst.1 - src.1) <= 1
    ensures ok ==> (dst.0 - src.0 == Forward(us) ||
                    (src.0 == PawnStartRow(us) && dst.0 - src.0 == 2 * Forward(us) && dst.1 == src.1))
    ensures ok && dst.1 != src.1 ==> At(b, dst).Some?
  {
    var dir := Forward(us);
    var rr, cc := dst.0 - src.0, dst.1 - src.1;
    if cc == 0 then
      if rr == dir && At(b, dst).None? then true
      else if src.0 == PawnStartRow(us) && rr == 2 * dir then
        At(b, (src.0 + dir, dst.1)).None? && At(b, dst).None?
      else false
    else
      Abs(cc) == 1 && rr == dir && At(b, dst).Some?
  }

  /** `legal_move_basic`: may the piece on src move to dst?  An accepted move
      has dst on the board, a piece on src, and dst different from src; it
      never lands on a piece of the mover's own side.  The lemmas below
      characterise each kind of piece. */
  function LegalMoveBasic(b: array2<Cell>, src: Square, dst: Square): (ok: bool)
    reads b
    requires Is8x8(b) && InBounds(src)
    ensures ok ==> InBounds(dst) && At(b, src).Some? && dst != src
    ensures ok ==> !OwnPieceAt(b, dst, At(b, src).value.color)
  {
    if !InBounds(dst) then false
    else
      var piece := At(b, src);
      if piece.None? then false
      else
        var us := SideOf(piece).value;
        var them := At(b, dst);
        if them.Some? && SideOf(them) == Some(us) then false
        else
          var rr, cc := dst.0 - src.0, dst.1 - src.1;
          match KindOf(piece).value
          case Knight => (Abs(rr), Abs(cc)) in {(1, 2), (2, 1)}
          case King => Max(Abs(rr), Abs(cc)) == 1
          case Rook => if rr != 0 && cc != 0 then false else PathClear(b, src, dst)
          case Bishop => if Abs(rr) != Abs(cc) then false else PathClear(b, src, dst)
          case Queen =>
            if rr == 0 || cc == 0 || Abs(rr) == Abs(cc) then PathClear(b, src, dst) else false
          case Pawn => PawnMove(b, us, src, dst)
  }

  /** A square holding a piece of a different side than the piece on src, or
      nothing: a destination the first checks of `legal_move_basic` let through. */
  predicate NotFriendly(b: array2<Cell>, src: Square, dst: Square)
    reads b
    requires Is8x8(b) && InBounds(src) && InBounds(dst)
  {
    At(b, dst).None? || SideOf(At(b, dst)) != SideOf(At(b, src))
  }

  /** A knight accepts exactly the (1, 2) and (2, 1) jumps. */
  lemma KnightRule(b: array2<Cell>, src: Square, dst: Square)
    requires Is8x8(b) && InBounds(src) && InBounds(dst)
    requires KindOf(At(b, src)) == Some(Knight) && NotFriendly(b, src, dst)
    ensures LegalMoveBasic(b, src, dst) <==>
      (Abs(dst.0 - src.0) == 1 && Abs(dst.1 - src.1) == 2) ||
      (Abs(dst.0 - src.0) == 2 && Abs(dst.1 - src.1) == 1)
  {
  }

  /** A king accepts exactly the eight neighbouring squares. */
  lemma KingRule(b: array2<Cell>, src: Square, dst: Square)
    requires Is8x8(b) && InBounds(src) && InBounds(dst)
    requires KindOf(At(b, src)) == Some(King) && NotFriendly(b, src, dst)
    ensures LegalMoveBasic(b, src, dst) <==>
      dst != src && Abs(dst.0 - src.0) <= 1 && Abs(dst.1 - src.1) <= 1
  {
  }

  /** Knights and kings look at no square but src and dst: two boards that
      agree on those two squares accept the same knight or king moves. */
  lemma LeapersIgnoreOtherSquares(b1: array2<Cell>, b2: array2<Cell>, src: Square, dst: Square)
    requires Is8x8(b1) && Is8x8(b2) && InBounds(src) && InBounds(dst)
    requires At(b1, src) == At(b2, src) && At(b1, dst) == At(b2, dst)
    requires KindOf(At(b1, src)) == Some(Knight) || KindOf(At(b1, src)) == Some(King)
    ensures LegalMoveBasic(b1, src, dst) == LegalMoveBasic(b2, src, dst)
  {
  }

  /** The line a slider moves along: a rook's rows and columns, a bishop's
      diagonals, a queen's both. */
  predicate OnSliderLine(k: Kind, src: Square, dst: Square)
  {
    var rr, cc := dst.0 - src.0, dst.1 - src.1;
    match k
    case Rook => rr == 0 || cc == 0
    case Bishop => Abs(rr) == Abs(cc)
    case Queen => rr == 0 || cc == 0 || Abs(rr) == Abs(cc)
    case _ => false
  }

  /** Rooks, bishops and queens accept a move exactly when it follows their
      line and every square strictly between is empty. */
  lemma SliderRule(b: array2<Cell>, src: Square, dst: Square)
    requires Is8x8(b) && InBounds(src) && InBounds(dst)
    requires At(b, src).Some? && At(b, src).value.kind in {Rook, Bishop, Queen}
    requires NotFriendly(b, src, dst)
    ensures LegalMoveBasic(b, src, dst) <==>
      OnSliderLine(At(b, src).value.kind, src, dst) && Aligned(src, dst) && PathClear(b, src, dst)
  {
  }

  /** Squares one king step apart have nothing between them. */
  lemma AdjacentPathClear(b: array2<Cell>, src: Square, dst: Square)
    requires Is8x8(b) && InBounds(src) && InBounds(dst)
    requires Dist(src, dst) <= 1
    ensures Aligned(src, dst) && PathClear(b, src, dst)
  {
  }

  /** An accepted pawn move runs along a line with nothing in between. */
  lemma {:induction false} PawnPathClear(b: array2<Cell>, src: Square, dst: Square)
    requires Is8x8(b) && InBounds(src) && InBounds(dst)
    requires At(b, src).Some? && PawnMove(b, At(b, src).value.color, src, dst)
    ensures Aligned(src, dst) && PathClear(b, src, dst)
  {
    var dir := Forward(At(b, src).value.color);
    if dst.1 == src.1 && dst.0 - src.0 == 2 * dir {
      assert Dist(src, dst) == 2;
      assert Between(src, dst, 1) == (src.0 + dir, dst.1);
    } else {
      AdjacentPathClear(b, src, dst);
    }
  }

  /** No piece but the knight passes over another piece: every other accepted
      move runs along a line whose inner squares are all empty. */
  lemma {:induction false} OnlyKnightsJump(b: array2<Cell>, src: Square, dst: Square)
    requires Is8x8(b) && InBounds(src)
    requires LegalMoveBasic(b, src, dst)
    requires KindOf(At(b, src)) != Some(Knight)
    ensures InBounds(dst) && Aligned(src, dst) && PathClear(b, src, dst)
  {
    var p := At(b, src).value;
    match p.kind
    case Pawn => PawnPathClear(b, src, dst);
    case King => AdjacentPathClear(b, src, dst);
    case _ =>
  }

  /** The pawn's moves, case by case. */
  lemma PawnRule(b: array2<Cell>, src: Square, dst: Square)
    requires Is8x8(b) && InBounds(src) && InBounds(dst)
    requires KindOf(At(b, src)) == Some(Pawn) && NotFriendly(b, src, dst)
    ensures var us := At(b, src).value.color;
      var f := Forward(us);
      LegalMoveBasic(b, src, dst) <==>
        // one step forward onto an empty square
        (dst == (src.0 + f, src.1) && At(b, dst).None?) ||
        // two steps from the start row, over an empty square onto an empty square
        (src.0 == PawnStartRow(us) && dst == (src.0 + 2 * f, src.1) &&
         At(b, (src.0 + f, src.1)).None? && At(b, dst).None?) ||
        // one step diagonally forward onto an enemy piece
        (dst.0 == src.0 + f && Abs(dst.1 - src.1) == 1 && OwnPieceAt(b, dst, Opponent(us)))
  {
  }

  /** A pawn only ever advances: White's to a smaller row, Black's to a larger
      one, by at most two rows and at most one column. */
  lemma PawnNeverRetreats(b: array2<Cell>, src: Square, dst: Square)
    requires Is8x8(b) && InBounds(src)
    requires KindOf(At(b, src)) == Some(Pawn) && LegalMoveBasic(b, src, dst)
    ensures At(b, src).value.color == White ==> src.0 - 2 <= dst.0 < src.0
    ensures At(b, src).value.color == Black ==> src.0 < dst.0 <= src.0 + 2
    ensures Abs(dst.1 - src.1) <= 1
  {
  }

  /** A knight always lands on a square of the other colour. */
  lemma KnightSwitchesSquareColour(b: array2<Cell>, src: Square, dst: Square)
    requires Is8x8(b) && InBounds(src)
    requires KindOf(At(b, src)) == Some(Knight) && LegalMoveBasic(b, src, dst)
    ensures (src.0 + src.1) % 2 != (dst.0 + dst.1) % 2
  {
  }

  /** A bishop never leaves the squares of its colour. */
  lemma BishopKeepsSquareColour(b: array2<Cell>, src: Square, dst: Square)
    requires Is8x8(b) && InBounds(src)
    requires KindOf(At(b, src)) == Some(Bishop) && LegalMoveBasic(b, src, dst)
    ensures (src.0 + src.1) % 2 == (dst.0 + dst.1) % 2
  {
  }

  /** Walking back from dst visits the same squares in the opposite order. */
  lemma BetweenReversed(src: Square, dst: Square, k: int)
    requires InBounds(src) && InBounds(dst) && Aligned(src, dst)
    requires 0 <= k <= Dist(src, dst)
    ensures Dist(dst, src) == Dist(src, dst)
    ensures Between(dst, src, k) == Between(src, dst, Dist(src, dst) - k)
  {
  }

  /** Moving a piece along a clear line leaves the same line clear the other
      way round: the squares in between are neither src nor dst.  Both games
      move in place on one board; `before` is a copy of it taken before the
      move step, and `after` the board once it is done. */
  lemma {:induction false} PathClearAfterMove(before: array2<Cell>, after: array2<Cell>, src: Square, dst: Square)
    requires Is8x8(before) && Is8x8(after) && InBounds(src) && InBounds(dst)
    requires Aligned(src, dst) && PathClear(before, src, dst)
    requires IsMoveOf(after, before, src, dst)
    ensures Aligned(dst, src) && PathClear(after, dst, src)
  {
    var n := Dist(src, dst);
    forall k | 1 <= k < Dist(dst, src)
      ensures At(after, Between(dst, src, k)).None?
    {
      BetweenReversed(src, dst, k);
      var s := Between(src, dst, n - k);
      BetweenDist(src, dst, n - k);
      assert At(before, s).None?;
      assert s != src && s != dst;
    }
  }

  /** After an accepted move of anything but a pawn, the same piece may move
      straight back on the resulting board.  As above, `before` is a copy of
      the board taken before the in-place move step and `after` the board
      once it is done. */
  lemma {:induction false} MoveCanBeUndone(before: array2<Cell>, after: array2<Cell>, src: Square, dst: Square)
    requires Is8x8(before) && Is8x8(after) && InBounds(src) && InBounds(dst)
    requires LegalMoveBasic(before, src, dst) && KindOf(At(before, src)) != Some(Pawn)
    requires IsMoveOf(after, before, src, dst)
    ensures LegalMoveBasic(after, dst, src)
  {
    var p := At(before, src).value;
    assert At(after, dst) == Some(p);
    assert At(after, src) == None;
    if p.kind in {Rook, Bishop, Queen} {
      PathClearAfterMove(before, after, src, dst);
    }
  }

  /** A pawn can never move straight back after an accepted move.  As above,
      `before` is a copy of the board taken before the in-place move step and
      `after` the board once it is done. */
  lemma PawnMoveCannotBeUndone(before: array2<Cell>, after: array2<Cell>, src: Square, dst: Square)
    requires Is8x8(before) && Is8x8(after) && InBounds(src) && InBounds(dst)
    requires LegalMoveBasic(before, src, dst) && KindOf(At(before, src)) == Some(Pawn)
    requires IsMoveOf(after, before, src, dst)
    ensures !LegalMoveBasic(after, dst, src)
  {
    assert At(after, dst) == At(before, src);
    PawnNeverRetreats(before, src, dst);
    if LegalMoveBasic(after, dst, src) {
      PawnNeverRetreats(after, dst, src);
    }
  }

  // ---------------------------------------------------------------------
  // Ray casting: an independent description of slider moves.
  // ---------------------------------------------------------------------

  /** The unit directions a slider may move in. */
  function Directions(k: Kind): set<Square>
  {
    var orthogonal := {(1, 0), (-1, 0), (0, 1), (0, -1)};
    var diagonal := {(1, 1), (1, -1), (-1, 1), (-1, -1)};
    match k
    case Rook => orthogonal
    case Bishop => diagonal
    case Queen => orthogonal + diagonal
    case _ => {}
  }

  predicate UnitDirection(d: Square)
  {
    d in Directions(Queen)
  }

  /** How many steps in direction d are left before leaving the board. */
  function Room(from: Square, d: Square): nat
    requires InBounds(from) && UnitDirection(d)
  {
    if d.0 == 1 then 8 - from.0
    else if d.0 == -1 then from.0 + 1
    else if d.1 == 1 then 8 - from.1
    else from.1 + 1
  }

  /** The squares a slider of side `us` standing on `from` reaches in
      direction d: each empty square in turn, then the first occupied square
      if it holds an enemy piece, and nothing beyond it. */
  function Ray(b: array2<Cell>, us: Color, from: Square, d: Square): seq<Square>
    reads b
    requires Is8x8(b) && InBounds(from) && UnitDirection(d)
    decreases Room(from, d)
  {
    var next := Walk(from, d, 1);
    if !InBounds(next) then []
    else match At(b, next)
      case None => [next] + Ray(b, us, next, d)
      case Some(q) => if q.color == us then [] else [next]
  }

  /** k unit steps cover a king-step distance of exactly k. */
  lemma WalkDist(from: Square, d: Square, k: int)
    requires UnitDirection(d) && k >= 0
    ensures Dist(from, Walk(from, d, k)) == k
  {
  }

  /** Walking k steps from the next square is walking k + 1 from this one. */
  lemma WalkShift(from: Square, d: Square)
    requires UnitDirection(d)
    ensures forall k :: Walk(Walk(from, d, 1), d, k) == Walk(from, d, k + 1)
  {
  }

  /** The first n - 1 squares from `from` in direction d are on the board
      and empty. */
  predicate ClearRun(b: array2<Cell>, from: Square, d: Square, n: int)
    reads b
    requires Is8x8(b)
  {
    forall j :: 1 <= j < n ==> InBounds(Walk(from, d, j)) && At(b, Walk(from, d, j)).None?
  }

  /** When the next square is on the board and empty, a clear run of n - 1
      squares from here is a clear run of n - 2 squares from there. */
  lemma {:induction false} ClearRunShift(b: array2<Cell>, from: Square, d: Square, n: int)
    requires Is8x8(b) && UnitDirection(d) && n >= 2
    requires InBounds(Walk(from, d, 1)) && At(b, Walk(from, d, 1)).None?
    ensures ClearRun(b, from, d, n) <==> ClearRun(b, Walk(from, d, 1), d, n - 1)
  {
    var next := Walk(from, d, 1);
    WalkShift(from, d);
    if ClearRun(b, next, d, n - 1) {
      forall j | 1 <= j < n
        ensures InBounds(Walk(from, d, j)) && At(b, Walk(from, d, j)).None?
      {
        if j > 1 {
          assert Walk(from, d, j) == Walk(next, d, j - 1);
        }
      }
    }
    if ClearRun(b, from, d, n) {
      forall j | 1 <= j < n - 1
        ensures InBounds(Walk(next, d, j)) && At(b, Walk(next, d, j)).None?
      {
        assert Walk(next, d, j) == Walk(from, d, j + 1);
      }
    }
  }

  /** The n-th square in direction d is on the ray exactly when it is on the
      board, the n - 1 squares before it are empty, and it does not hold a
      piece of the slider's own side. */
  lemma {:induction false} RayMember(b: array2<Cell>, us: Color, from: Square, d: Square, n: int)
    requires Is8x8(b) && InBounds(from) && UnitDirection(d) && n >= 1
    decreases n
    ensures Walk(from, d, n) in Ray(b, us, from, d) <==>
      ClearRun(b, from, d, n) &&
      InBounds(Walk(from, d, n)) && SideOf(At(b, Walk(from, d, n))) != Some(us)
  {
    var next := Walk(from, d, 1);
    var t := Walk(from, d, n);
    if n > 1 {
      WalkDist(from, d, n);
      assert t != next;
      if InBounds(next) && At(b, next).None? {
        RayMember(b, us, next, d, n - 1);
        WalkShift(from, d);
        assert Walk(next, d, n - 1) == t;
        ClearRunShift(b, from, d, n);
      } else {
        assert !(InBounds(Walk(from, d, 1)) && At(b, Walk(from, d, 1)).None?);
      }
    }
  }

  /** Every square on a ray is some positive number of steps along it. */
  lemma {:induction false} RayOnLine(b: array2<Cell>, us: Color, from: Square, d: Square, t: Square)
    requires Is8x8(b) && InBounds(from) && UnitDirection(d)
    requires t in Ray(b, us, from, d)
    decreases Room(from, d)
    ensures Dist(from, t) >= 1 && t == Walk(from, d, Dist(from, t))
  {
    var next := Walk(from, d, 1);
    if t == next {
      WalkDist(from, d, 1);
    } else {
      RayOnLine(b, us, next, d, t);
      var m := Dist(next, t);
      WalkShift(from, d);
      assert t == Walk(from, d, m + 1);
      WalkDist(from, d, m + 1);
    }
  }

  /** Walking from src in the direction of an aligned dst passes exactly the
      squares between them. */
  lemma StepWalksBetween(src: Square, dst: Square)
    requires InBounds(src) && InBounds(dst) && Aligned(src, dst) && src != dst
    ensures UnitDirection(Step(src, dst))
    ensures forall k :: 0 <= k <= Dist(src, dst) ==> Walk(src, Step(src, dst), k) == Between(src, dst, k)
  {
  }

  /** An accepted slider move lands on one of the slider's rays. */
  lemma {:induction false} SliderMoveOnRay(b: array2<Cell>, src: Square, dst: Square)
    requires Is8x8(b) && InBounds(src)
    requires At(b, src).Some? && At(b, src).value.kind in {Rook, Bishop, Queen}
    requires LegalMoveBasic(b, src, dst)
    ensures dst in Ray(b, At(b, src).value.color, src, Step(src, dst))
    ensures Step(src, dst) in Directions(At(b, src).value.kind)
  {
    var p := At(b, src).value;
    SliderRule(b, src, dst);
    var d := Step(src, dst);
    var n := Dist(src, dst);
    StepWalksBetween(src, dst);
    ReachesDstOnlyAtEnd(src, dst, n);
    assert Walk(src, d, n) == dst;
    RayMember(b, p.color, src, d, n);
  }

  /** Every square on one of a slider's rays is an accepted move. */
  lemma {:induction false} RaySquareIsSliderMove(b: array2<Cell>, src: Square, dst: Square, d: Square)
    requires Is8x8(b) && InBounds(src)
    requires At(b, src).Some? && At(b, src).value.kind in {Rook, Bishop, Queen}
    requires d in Directions(At(b, src).value.kind) && dst in Ray(b, At(b, src).value.color, src, d)
    ensures LegalMoveBasic(b, src, dst)
  {
    var p := At(b, src).value;
    RayOnLine(b, p.color, src, d, dst);
    var n := Dist(src, dst);
    RayMember(b, p.color, src, d, n);
    assert InBounds(dst) && dst != src;
    assert Step(src, dst) == d;
    assert Aligned(src, dst);
    StepWalksBetween(src, dst);
    assert PathClear(b, src, dst);
    SliderRule(b, src, dst);
  }

  /** A slider's accepted moves are exactly the squares on its rays: sliding
      one direction at a time, stopping at the first occupied square, and
      taking that square only from the enemy. */
  lemma SliderMovesAreRays(b: array2<Cell>, src: Square, dst: Square)
    requires Is8x8(b) && InBounds(src)
    requires At(b, src).Some? && At(b, src).value.kind in {Rook, Bishop, Queen}
    ensures var p := At(b, src).value;
      LegalMoveBasic(b, src, dst) <==>
        exists d :: d in Directions(p.kind) && dst in Ray(b, p.color, src, d)
  {
    var p := At(b, src).value;
    if LegalMoveBasic(b, src, dst) {
      SliderMoveOnRay(b, src, dst);
    }
    if d :| d in Directions(p.kind) && dst in Ray(b, p.color, src, d) {
      RaySquareIsSliderMove(b, src, dst, d);
    }
  }
}
