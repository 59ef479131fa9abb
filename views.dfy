/** Square numbering of the library-backed variant and its two board views.

    A square index runs 0..63 as 8 * rank + file, with file 0 = a and
    rank 0 = the first rank (a1 = 0, h1 = 7, a8 = 56, h8 = 63).  The left
    board shows White's view (a8 top left), the right board Black's view
    (h1 top left); (r, c) is the row and column of a square on screen. */
module Views {

  /** `chess.square(file, rank)`. */
  function SquareOf(file: int, rank: int): (sq: int)
    ensures 0 <= file < 8 && 0 <= rank < 8 ==> 0 <= sq < 64
  {
    8 * rank + file
  }

  /** `chess.square_file`. */
  function SquareFile(sq: int): (file: int)
    ensures 0 <= file < 8
  {
    sq % 8
  }

  /** `chess.square_rank`. */
  function SquareRank(sq: int): (rank: int)
    ensures 0 <= sq < 64 ==> 0 <= rank < 8
  {
    sq / 8
  }

  predicate ValidRc(r: int, c: int)
  {
    0 <= r < 8 && 0 <= c < 8
  }

  predicate ValidSquare(sq: int)
  {
    0 <= sq < 64
  }

  /** `square_from_rc_white_view`: column c is the file, row r is rank 8 - r. */
  function SquareFromRcWhiteView(r: int, c: int): (sq: int)
    requires ValidRc(r, c)
    ensures ValidSquare(sq)
    ensures SquareFile(sq) == c && SquareRank(sq) == 7 - r
  {
    SquareOf(c, 7 - r)
  }

  /** `square_from_rc_black_view`: column c is file h - c, row r is rank r + 1. */
  function SquareFromRcBlackView(r: int, c: int): (sq: int)
    requires ValidRc(r, c)
    ensures ValidSquare(sq)
    ensures SquareFile(sq) == 7 - c && SquareRank(sq) == r
  {
    SquareOf(7 - c, r)
  }

  /** `rc_from_square_for_white_view`. */
  function RcFromSquareForWhiteView(sq: int): (rc: (int, int))
    requires ValidSquare(sq)
    ensures ValidRc(rc.0, rc.1)
  {
    var file := SquareFile(sq);
    var rank := SquareRank(sq);
    (7 - rank, file)
  }

  /** `rc_from_square_for_black_view`. */
  function RcFromSquareForBlackView(sq: int): (rc: (int, int))
    requires ValidSquare(sq)
    ensures ValidRc(rc.0, rc.1)
  {
    var file := SquareFile(sq);
    var rank := SquareRank(sq);
    (rank, 7 - file)
  }

  /** A square splits into the file and rank it was made of. */
  lemma SquareFileRank(file: int, rank: int)
    requires 0 <= file < 8 && 0 <= rank < 8
    ensures SquareFile(SquareOf(file, rank)) == file && SquareRank(SquareOf(file, rank)) == rank
  {
    // Solver hints: the quotient-remainder decomposition of the square.
    var sq := SquareOf(file, rank);
    var q, m := sq / 8, sq % 8;
    assert sq == 8 * q + m && 0 <= m < 8;
    assert 8 * (q - rank) == file - m;
  }

  /** File and rank recover the square they were split from. */
  lemma FileRankSquare(sq: int)
    requires ValidSquare(sq)
    ensures 0 <= SquareFile(sq) < 8 && 0 <= SquareRank(sq) < 8
    ensures SquareOf(SquareFile(sq), SquareRank(sq)) == sq
  {
    // Solver hint: the quotient-remainder decomposition of sq.
    assert sq == 8 * (sq / 8) + sq % 8;
  }

  /** White view: (r, c) -> square -> (r, c) is the identity. */
  lemma WhiteViewRoundTrip(r: int, c: int)
    requires ValidRc(r, c)
    ensures RcFromSquareForWhiteView(SquareFromRcWhiteView(r, c)) == (r, c)
  {
  }

  /** Black view: (r, c) -> square -> (r, c) is the identity. */
  lemma BlackViewRoundTrip(r: int, c: int)
    requires ValidRc(r, c)
    ensures RcFromSquareForBlackView(SquareFromRcBlackView(r, c)) == (r, c)
  {
  }

  /** White view: square -> (r, c) -> square is the identity. */
  lemma WhiteViewSquareRoundTrip(sq: int)
    requires ValidSquare(sq)
    ensures var rc := RcFromSquareForWhiteView(sq);
      SquareFromRcWhiteView(rc.0, rc.1) == sq
  {
    FileRankSquare(sq);
  }

  /** Black view: square -> (r, c) -> square is the identity. */
  lemma BlackViewSquareRoundTrip(sq: int)
    requires ValidSquare(sq)
    ensures var rc := RcFromSquareForBlackView(sq);
      SquareFromRcBlackView(rc.0, rc.1) == sq
  {
    FileRankSquare(sq);
  }

  /** The black view is the white view turned through 180 degrees, in both
      directions of the conversion. */
  lemma BlackViewIsRotation(r: int, c: int, sq: int)
    requires ValidRc(r, c) && ValidSquare(sq)
    ensures SquareFromRcBlackView(r, c) == SquareFromRcWhiteView(7 - r, 7 - c)
    ensures var w := RcFromSquareForWhiteView(sq);
      RcFromSquareForBlackView(sq) == (7 - w.0, 7 - w.1)
  {
  }

  /** The top-left corner is a8 on the white view and h1 on the black view;
      the bottom-right corner is h1 and a8 respectively. */
  lemma Corners()
    ensures SquareFromRcWhiteView(0, 0) == SquareOf(0, 7)
    ensures SquareFromRcBlackView(0, 0) == SquareOf(7, 0)
    ensures SquareFromRcWhiteView(7, 7) == SquareOf(7, 0)
    ensures SquareFromRcBlackView(7, 7) == SquareOf(0, 7)
  {
  }
}
