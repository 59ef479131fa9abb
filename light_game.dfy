/** The click-driven game loop of the light-rules variant.

    Both boards show the same position; the left one is seen from White's
    side, the right one from Black's.  A click arrives as a board square
    (already turned the right way up) together with the board it was made on.
    The first click selects one of the mover's own pieces, on the mover's own
    board; the next click either drops the selection (same square), plays the
    move (if the light rules accept it), or re-selects. */
module LightGame {
  import opened Pieces
  import opened Board
  import opened LightRules

  /** Which of the two boards a click landed on. */
  datatype View = Left | Right

  /** The board a side must select on: White the left one, Black the right. */
  function HomeView(c: Color): View
  {
    if c == White then Left else Right
  }

  /** A click on sq, made on board `which`, may select sq. */
  predicate Selectable(b: array2<Cell>, sq: Square, turn: Color, which: View)
    reads b
    requires Is8x8(b) && InBounds(sq)
    ensures Selectable(b, sq, turn, which) ==>
      At(b, sq).Some? && which != HomeView(Opponent(turn)) && !OwnPieceAt(b, sq, Opponent(turn))
  {
    OwnPieceAt(b, sq, turn) && which == HomeView(turn)
  }

  class Game {
    var board: array2<Cell>
    var turn: Color
    var selected: Option<Square>

    /** The board is 8x8 and a selection always names one of the mover's pieces. */
    ghost predicate Valid()
      reads this, board
    {
      Is8x8(board) &&
      (selected.Some? ==> InBounds(selected.value) && OwnPieceAt(board, selected.value, turn))
    }

    /** The module-level start: the opening layout, White to move, nothing selected. */
    constructor ()
      ensures Valid() && fresh(board)
      ensures turn == White && selected == None
      ensures forall r, c :: 0 <= r < 8 && 0 <= c < 8 ==> board[r, c] == StartCell((r, c))
    {
      var b := StartPosition();
      board := b;
      turn := White;
      selected := None;
    }

    /** One left click on square sq of board `which`. */
    method Click(sq: Square, which: View)
      requires Valid() && InBounds(sq)
      modifies this, board
      ensures Valid() && board == old(board)
      // Selection phase: select an own piece clicked on the own board, else ignore.
      ensures old(selected).None? ==>
        && unchanged(board) && turn == old(turn)
        && selected == (if old(Selectable(board, sq, turn, which)) then Some(sq) else None)
      // Clicking the selected square again drops the selection.
      ensures old(selected) == Some(sq) ==>
        unchanged(board) && turn == old(turn) && selected == None
      // An accepted move: the piece goes to sq, its square empties, nothing
      // else changes, the turn passes and the selection is dropped.
      ensures old(selected).Some? && old(selected) != Some(sq) &&
              old(LegalMoveBasic(board, selected.value, sq)) ==>
        && (forall r, c :: 0 <= r < 8 && 0 <= c < 8 ==>
              board[r, c] == if (r, c) == old(selected.value) then None
                             else if (r, c) == sq then old(board[selected.value.0, selected.value.1])
                             else old(board[r, c]))
        && turn == Opponent(old(turn)) && selected == None
      // A rejected move changes neither board nor turn; a click on another
      // selectable piece re-selects, anything else keeps the selection.
      ensures old(selected).Some? && old(selected) != Some(sq) &&
              !old(LegalMoveBasic(board, selected.value, sq)) ==>
        && unchanged(board) && turn == old(turn)
        && selected == (if old(Selectable(board, sq, turn, which)) then Some(sq) else old(selected))
      // Only the side to move ever moves.
      ensures turn != old(turn) ==> OwnPieceAt(board, sq, old(turn))
    {
      if selected.None? {
        if !Selectable(board, sq, turn, which) {
          return;
        }
        selected := Some(sq);
      } else {
        var src := selected.value;
        if sq == src {
          selected := None;
          return;
        }
        if LegalMoveBasic(board, src, sq) {
          MovePiece(board, src, sq);
          selected := None;
          turn := Opponent(turn);
        } else if Selectable(board, sq, turn, which) {
          selected := Some(sq);
        }
      }
    }
  }
}
