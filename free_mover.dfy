/** The rule-free variant: any piece of the side to move may go to any other
    square, taking whatever stands there, even a piece of its own side. */
module FreeMover {
  import opened Pieces
  import opened Board
  import LightRules

  /** What `try_move` demands: an own piece on src and a different dst.
      Nothing about the geometry of the move or the piece on dst. */
  predicate MoveAllowed(b: array2<Cell>, turn: Color, src: Square, dst: Square)
    reads b
    requires Is8x8(b) && InBounds(src) && InBounds(dst)
    ensures MoveAllowed(b, turn, src, dst) ==>
      At(b, src).Some? && SideOf(At(b, src)) != Some(Opponent(turn)) && src != dst
  {
    OwnPieceAt(b, src, turn) && src != dst
  }

  /** Every move the light rules accept for the side to move is one the
      rule-free mover accepts too. */
  lemma LightMoveIsFreeMove(b: array2<Cell>, turn: Color, src: Square, dst: Square)
    requires Is8x8(b) && InBounds(src) && OwnPieceAt(b, src, turn)
    requires LightRules.LegalMoveBasic(b, src, dst)
    ensures InBounds(dst) && MoveAllowed(b, turn, src, dst)
  {
  }

  /** The converse fails: the rule-free mover lets a piece take one of its own
      side's pieces, which the light rules never accept. */
  lemma FreeMoverTakesOwnPieces(b: array2<Cell>, turn: Color, src: Square, dst: Square)
    requires Is8x8(b) && InBounds(src) && InBounds(dst) && src != dst
    requires OwnPieceAt(b, src, turn) && OwnPieceAt(b, dst, turn)
    ensures MoveAllowed(b, turn, src, dst) && !LightRules.LegalMoveBasic(b, src, dst)
  {
  }

  class Game {
    var board: array2<Cell>
    var turn: Color
    var selected: Option<Square>

    /** The board is 8x8 and a selection always names one of the mover's pieces. */
    ghost predicate Valid()
      reads this, board
    {
      Is8x8(board) &&
      (selected.Some? ==> InBounds(selected.value) && OwnPieceAt(board, selected.value, turn))
    }

    /** The module-level start: the opening layout, White to move, nothing selected. */
    constructor ()
      ensures Valid() && fresh(board)
      ensures turn == White && selected == None
      ensures forall r, c :: 0 <= r < 8 && 0 <= c < 8 ==> board[r, c] == StartCell((r, c))
    {
      var b := StartPosition();
      board := b;
      turn := White;
      selected := None;
    }

    /** `try_move`: refuse (changing nothing) unless src holds a piece of the
        side to move and dst differs from src; otherwise move it, overwriting
        dst, and pass the turn. */
    method TryMove(src: Square, dst: Square) returns (moved: bool)
      requires Is8x8(board) && InBounds(src) && InBounds(dst)
      modifies board, this`turn
      ensures moved <==> old(MoveAllowed(board, turn, src, dst))
      ensures moved ==>
        && (forall r, c :: 0 <= r < 8 && 0 <= c < 8 ==>
              board[r, c] == if (r, c) == src then None
                             else if (r, c) == dst then old(board[src.0, src.1])
                             else old(board[r, c]))
        && turn == Opponent(old(turn))
      ensures !moved ==> unchanged(board) && turn == old(turn)
    {
      if !MoveAllowed(board, turn, src, dst) {
        return false;
      }
      MovePiece(board, src, dst);
      turn := Opponent(turn);
      return true;
    }

    /** One left click on square sq (of either board). */
    method Click(sq: Square)
      requires Valid() && InBounds(sq)
      modifies this, board
      ensures Valid() && board == old(board)
      // Selection phase: only a piece of the side to move is selected.
      ensures old(selected).None? ==>
        && unchanged(board) && turn == old(turn)
        && selected == (if old(OwnPieceAt(board, sq, turn)) then Some(sq) else None)
      // With a selection, a click on any other square always moves there.
      ensures old(selected).Some? && old(selected) != Some(sq) ==>
        && (forall r, c :: 0 <= r < 8 && 0 <= c < 8 ==>
              board[r, c] == if (r, c) == old(selected.value) then None
                             else if (r, c) == sq then old(board[selected.value.0, selected.value.1])
                             else old(board[r, c]))
        && turn == Opponent(old(turn)) && selected == None
      // Clicking the selected square again is a refused move that re-selects it.
      ensures old(selected) == Some(sq) ==>
        unchanged(board) && turn == old(turn) && selected == old(selected)
    {
      if selected.None? {
        if OwnPieceAt(board, sq, turn) {
          selected := Some(sq);
        }
      } else {
        var ok := TryMove(selected.value, sq);
        if ok {
          selected := None;
        } else if OwnPieceAt(board, sq, turn) {
          selected := Some(sq);
        }
      }
    }
  }
}
