/** The 8x8 board shared by both playable variants.

    A square is a (row, col) pair.  Row 0 is the top row, Black's back
    rank; row 7 is the bottom row, White's back rank. */
module Board {
  import opened Pieces

  type Square = (int, int)

  /** `in_bounds`: both coordinates in 0..7. */
  predicate InBounds(s: Square)
    ensures InBounds(s) <==> 0 <= 7 - s.0 < 8 && 0 <= 7 - s.1 < 8
  {
    0 <= s.0 < 8 && 0 <= s.1 < 8
  }

  predicate Is8x8(b: array2<Cell>)
  {
    b.Length0 == 8 && b.Length1 == 8
  }

  function At(b: array2<Cell>, s: Square): Cell
    reads b
    requires Is8x8(b) && InBounds(s)
  {
    b[s.0, s.1]
  }

  /** Square `s` holds a piece of side `side`. */
  predicate OwnPieceAt(b: array2<Cell>, s: Square, side: Color)
    reads b
    requires Is8x8(b) && InBounds(s)
  {
    SideOf(At(b, s)) == Some(side)
  }

  /** The back rank from column 0 to column 7: r n b q k b n r. */
  function BackRank(c: int): Kind
    requires 0 <= c < 8
  {
    if c == 0 || c == 7 then Rook
    else if c == 1 || c == 6 then Knight
    else if c == 2 || c == 5 then Bishop
    else if c == 3 then Queen
    else King
  }

  /** The opening layout, square by square. */
  function StartCell(s: Square): Cell
    requires InBounds(s)
  {
    if s.0 == 0 then Some(Piece(Black, BackRank(s.1)))
    else if s.0 == 1 then Some(Piece(Black, Pawn))
    else if s.0 == 6 then Some(Piece(White, Pawn))
    else if s.0 == 7 then Some(Piece(White, BackRank(s.1)))
    else None
  }

  /** `start_position`: a fresh board in the opening layout. */
  method StartPosition() returns (b: array2<Cell>)
    ensures fresh(b) && Is8x8(b)
    ensures forall r, c :: 0 <= r < 8 && 0 <= c < 8 ==> b[r, c] == StartCell((r, c))
  {
    b := new Cell[8, 8]((_, _) => None);
    for c := 0 to 8
      invariant forall r, c' :: 0 <= r < 8 && 0 <= c' < 8 ==>
        b[r, c'] == if c' < c then StartCell((r, c')) else None
    {
      b[0, c] := Some(Piece(Black, BackRank(c)));
      b[1, c] := Some(Piece(Black, Pawn));
      b[6, c] := Some(Piece(White, Pawn));
      b[7, c] := Some(Piece(White, BackRank(c)));
    }
  }

  /** Rows 0 and 1 hold Black's pieces, rows 6 and 7 White's, rows 2..5 nothing,
      and each back rank is r n b q k b n r. */
  lemma StartLayout(s: Square)
    requires InBounds(s)
    ensures 2 <= s.0 <= 5 <==> StartCell(s).None?
    ensures s.0 <= 1 ==> SideOf(StartCell(s)) == Some(Black)
    ensures s.0 >= 6 ==> SideOf(StartCell(s)) == Some(White)
    ensures (s.0 == 1 || s.0 == 6) <==> KindOf(StartCell(s)) == Some(Pawn)
    ensures s.0 == 0 || s.0 == 7 ==> Code(StartCell(s).value)[1] == "rnbqkbnr"[s.1]
  {
  }

  /** Exactly one king of each colour: White's on (7, 4), Black's on (0, 4). */
  lemma StartOneKingEach(s: Square)
    requires InBounds(s)
    ensures StartCell(s) == Some(Piece(White, King)) <==> s == (7, 4)
    ensures StartCell(s) == Some(Piece(Black, King)) <==> s == (0, 4)
  {
  }

  /** Number of occupied squares among the square indices i..63 of the opening
      layout, square index i standing for row i / 8, column i % 8. */
  function StartCountFrom(i: nat): nat
    requires i <= 64
    decreases 64 - i
  {
    if i == 64 then 0
    else (if StartCell((i / 8, i % 8)).Some? then 1 else 0) + StartCountFrom(i + 1)
  }

  /** Squares 0..15 (rows 0 and 1) and 48..63 (rows 6 and 7) are occupied,
      so the count from square i onwards is the size of what is left of those
      two blocks. */
  lemma {:induction false} StartCountFromIs(i: nat)
    requires i <= 64
    decreases 64 - i
    ensures StartCountFrom(i) == if i < 16 then 32 - i else if i < 48 then 16 else 64 - i
  {
    if i < 64 {
      StartCountFromIs(i + 1);
      assert i < 16 <==> i / 8 <= 1;
      assert i >= 48 <==> i / 8 >= 6;
    }
  }

  /** The opening layout has 32 pieces. */
  lemma StartHas32Pieces()
    ensures StartCountFrom(0) == 32
  {
    StartCountFromIs(0);
  }

  /** `after` is `before` with the piece on src moved to dst: src empty, dst
      holding what src held, every other square as it was. */
  predicate IsMoveOf(after: array2<Cell>, before: array2<Cell>, src: Square, dst: Square)
    reads after, before
    requires Is8x8(after) && Is8x8(before) && InBounds(src) && InBounds(dst)
  {
    forall r, c :: 0 <= r < 8 && 0 <= c < 8 ==>
      after[r, c] == if (r, c) == src then None
                     else if (r, c) == dst then before[src.0, src.1]
                     else before[r, c]
  }

  /** `board[sr][sc]` is written to `board[dr][dc]`, then `board[sr][sc]` is
      emptied; the move step both variants perform. */
  method MovePiece(b: array2<Cell>, src: Square, dst: Square)
    requires Is8x8(b) && InBounds(src) && InBounds(dst)
    modifies b
    ensures forall r, c :: 0 <= r < 8 && 0 <= c < 8 ==>
      b[r, c] == if (r, c) == src then None
                 else if (r, c) == dst then old(b[src.0, src.1])
                 else old(b[r, c])
  {
    var moving := b[src.0, src.1];
    b[dst.0, dst.1] := moving;
    b[src.0, src.1] := None;
  }
}
