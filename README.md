# Two-board chess: move rules and board bookkeeping

A Dafny model of the logic inside a small pygame chess program that shows
one game on two boards side by side: the left board from White's seat, the
right board from Black's. The repository has several variants, and three of
them are modelled here:

- **Light rules** (`chess_rules_light.py`). The board is an 8x8 grid of
  two-letter piece codes ("wp", "bk") or empty squares. Row 0 is Black's back
  rank and row 7 is White's. `legal_move_basic` judges a move only by the
  piece's geometry and by which squares are occupied. There is no check, no
  castling, no en passant and no promotion, so a king can be captured. A click
  handler selects a piece, plays a move or re-selects. The side to move must
  select (and re-select) on its own board; the destination may be clicked on
  either board.
- **Rule-free mover** (`chess.py`). `try_move` moves any piece of the side to
  move to any other square, taking whatever stands there, and passes the turn.
- **Square numbering** (`chess_engine.py`). Four conversions between square
  indices 0..63 (8 * rank + file, a1 = 0) and the (row, column) of a square
  on the white-view and black-view boards.

Modules: `Pieces` (pieces and their codes), `Board` (squares, the opening
layout, the shared move step), `LightRules` (path walk, `legal_move_basic`,
a ray-casting description of slider moves), `LightGame` and `FreeMover` (the
two click-driven games as classes over an `array2`), and `Views` (square
numbering).

A full chess engine would add check, castling, en passant, promotion and
mate detection. None of that is in `chess_rules_light.py` or `chess.py`.
`chess_engine.py` hands it to python-chess. Its own `make_move` only turns a
pawn move to the last rank into a promotion to a queen
(`chess_engine.py:201-209`), and `make_move` is left out. The model follows
the code.

Both files define `start_position` identically, and both define `side_of`
identically (`chess.py:30-37`, `chess.py:115`). Each is modelled once:
`Board.StartPosition` and `Pieces.SideOf` serve both variants. `in_bounds`
is `Board.InBounds`. The move step `board[dst] = board[src];
board[src] = None` appears in both variants and is `Board.MovePiece`.

## Model

| member | source | states |
|---|---|---|
| `Pieces.Opponent` | chess_rules_light.py:268 | The turn swap always hands the move to the other side. |
| `Pieces.Code` | chess_rules_light.py:30 | A piece's code has exactly two letters. |
| `Pieces.DecodeCode` | chess_rules_light.py:139 | Each of the twelve piece codes reads back as the piece it names. |
| `Pieces.CodeDecode` | chess_rules_light.py:30 | Any string that reads as a piece is that piece's code, so codes and pieces correspond one to one. |
| `Pieces.SideOf` | chess_rules_light.py:43-44 | `side_of` gives nothing for an empty square, and otherwise the side whose letter is the code's first character. |
| `Pieces.KindOf` | chess_rules_light.py:46-47 | `kind_of` gives nothing for an empty square, and otherwise the kind whose letter is the code's second character. |
| `Board.InBounds` | chess_rules_light.py:49-50 | `in_bounds` accepts a square whose row and column are both in 0..7. Its contract states that the accepted squares are closed under the 180-degree rotation (7 - r, 7 - c) that turns the left board into the right one. |
| `Board.StartPosition` | chess_rules_light.py:34-41 | `start_position` returns a fresh 8x8 board holding the opening layout on every square. |
| `Board.StartLayout` | chess_rules_light.py:34-41 | In the opening layout, rows 0-1 are Black's and rows 6-7 are White's. Rows 2-5 are exactly the empty squares. Pawns fill rows 1 and 6. Each back rank reads r n b q k b n r. |
| `Board.StartOneKingEach` | chess_rules_light.py:37-40 | The opening layout has exactly one king per side: White's on (7,4) and Black's on (0,4). |
| `Board.StartHas32Pieces` | chess.py:30-37 | The opening layout holds 32 pieces. |
| `Board.MovePiece` | chess_rules_light.py:263-265 | After the move step, src is empty and dst holds what src held. Every other square is unchanged. |
| `LightRules.Between` | chess_rules_light.py:54-58 | Each square the path walk visits between src and dst is on the board. |
| `LightRules.BetweenDist` | chess_rules_light.py:58-63 | The k-th square of the walk is k king steps from src and the rest of the distance from dst. |
| `LightRules.ReachesDstOnlyAtEnd` | chess_rules_light.py:59 | The walk meets dst after exactly the king-step distance and not before, so the loop ends for aligned squares. |
| `LightRules.StepForward` | chess_rules_light.py:62-63 | Adding (step_r, step_c) to the k-th square gives the (k+1)-th. |
| `LightRules.IsPathClear` | chess_rules_light.py:52-64 | `is_path_clear` returns true exactly when every square strictly between two aligned squares is empty. |
| `LightRules.LegalMoveBasic` | chess_rules_light.py:66-128 | An accepted move has dst on the board, an occupied src and dst different from src, and never lands on a piece of the mover's side. Each kind of piece is characterised exactly by `KnightRule`, `KingRule`, `SliderRule`, `PawnRule` and `SliderMovesAreRays` below. |
| `LightRules.PawnMove` | chess_rules_light.py:106-126 | An accepted pawn move goes one row forward, or two rows straight forward from the start row, and at most one column sideways. A sideways move needs a piece on dst. |
| `LightRules.KnightRule` | chess_rules_light.py:87-88 | A knight moving to a square that holds no friendly piece is accepted exactly when its absolute row and column changes are 1 and 2, or 2 and 1. |
| `LightRules.KingRule` | chess_rules_light.py:90-91 | A king moving to a square that holds no friendly piece is accepted exactly for the eight neighbouring squares. |
| `LightRules.LeapersIgnoreOtherSquares` | chess_rules_light.py:87-91 | Knight and king moves depend on no square other than src and dst. |
| `LightRules.SliderRule` | chess_rules_light.py:93-104 | A rook, bishop or queen move to a square that holds no friendly piece is accepted exactly when it follows the piece's lines and the path is clear. |
| `LightRules.OnlyKnightsJump` | chess_rules_light.py:87-126 | Every accepted move by a piece other than a knight runs along a line whose inner squares are all empty. This includes a pawn's two-step. |
| `LightRules.PawnRule` | chess_rules_light.py:106-126 | A pawn is accepted exactly for one of three moves: one step forward onto an empty square; two steps from its start row over an empty square onto an empty one; or one diagonal step forward onto an enemy piece. |
| `LightRules.PawnNeverRetreats` | chess_rules_light.py:107-126 | An accepted pawn move goes 1-2 rows forward for its side (up for White, down for Black) and at most one column sideways. |
| `LightRules.KnightSwitchesSquareColour` | chess_rules_light.py:87-88 | A knight always lands on a square of the other colour. |
| `LightRules.BishopKeepsSquareColour` | chess_rules_light.py:97-99 | A bishop always stays on squares of its colour. |
| `LightRules.BetweenReversed` | chess_rules_light.py:54-63 | Walking from dst back to src visits the same squares in reverse order. |
| `LightRules.PathClearAfterMove` | chess_rules_light.py:52-64 | After a slider moves along a clear line, the line is clear in the other direction too. |
| `LightRules.MoveCanBeUndone` | chess_rules_light.py:87-104 | After an accepted move of any non-pawn piece, that piece's move straight back is accepted on the new board. |
| `LightRules.PawnMoveCannotBeUndone` | chess_rules_light.py:106-126 | After an accepted pawn move, the move straight back is never accepted. |
| `LightRules.ClearRunShift` | chess_rules_light.py:59-63 | After one step onto an empty square, the remaining run of empty squares is one step shorter. |
| `LightRules.RayMember` | chess_rules_light.py:93-104 | The n-th square in a direction is on the slider's ray exactly when it is on the board, the squares before it are empty, and it holds no friendly piece. |
| `LightRules.RayOnLine` | chess_rules_light.py:93-104 | Every ray square lies a positive number of steps along the ray's direction. |
| `LightRules.SliderMoveOnRay` | chess_rules_light.py:93-104 | Every accepted slider move lands on the ray in the direction of the move, and that direction is one the piece may use. |
| `LightRules.RaySquareIsSliderMove` | chess_rules_light.py:93-104 | Every square on one of a slider's rays is an accepted move. |
| `LightRules.SliderMovesAreRays` | chess_rules_light.py:93-104 | A rook, bishop or queen move is accepted exactly when dst lies on one of its rays. A ray slides until the first occupied square and includes that square only when an enemy holds it. |
| `LightGame.Selectable` | chess_rules_light.py:244-252 | A selectable square holds a piece, never one of the opponent's, and the click was not made on the opponent's board. A side's own board is given by `HomeView`: White selects on the left board and Black on the right (line 251). |
| `LightGame.Game.constructor` | chess_rules_light.py:152-154 | The game starts on the opening layout with White to move and nothing selected. |
| `LightGame.Game.Click` | chess_rules_light.py:242-273 | A piece is selected only if it belongs to the side to move and was clicked on that side's board. Clicking the selected square drops the selection. An accepted move changes exactly src and dst, passes the turn and drops the selection. A rejected move changes neither board nor turn, and either re-selects or keeps the selection. The selection always names one of the mover's pieces. |
| `FreeMover.MoveAllowed` | chess.py:120-121 | A move `try_move` allows starts from a piece that is not the opponent's and goes to a different square. |
| `FreeMover.Game.constructor` | chess.py:61-63 | The game starts on the opening layout with White to move and nothing selected. |
| `FreeMover.Game.TryMove` | chess.py:117-126 | `try_move` succeeds exactly when src holds a piece of the side to move and dst differs from src. On success the piece goes to dst, overwriting anything there, src empties, nothing else changes and the turn passes. On failure nothing changes. |
| `FreeMover.Game.Click` | chess.py:140-150 | Only a piece of the side to move is selected. With a selection, a click on any other square plays the move there and drops the selection. A click on the selected square keeps it selected and changes nothing. |
| `FreeMover.LightMoveIsFreeMove` | chess.py:117-126 | Every move the light rules accept for the side to move is accepted by `try_move`. |
| `FreeMover.FreeMoverTakesOwnPieces` | chess.py:121-124 | `try_move` accepts taking one's own piece, which the light rules never do. |
| `Views.SquareOf` | chess_engine.py:91-95 | A file and a rank in 0..7 make a square in 0..63. |
| `Views.SquareFile` | chess_engine.py:99-105 | The file of any square is in 0..7. |
| `Views.SquareRank` | chess_engine.py:100-106 | The rank of a square in 0..63 is in 0..7. |
| `Views.SquareFromRcWhiteView` | chess_engine.py:89-91 | The white view maps (r, c) to a square in 0..63 on file c and rank 7 - r. |
| `Views.SquareFromRcBlackView` | chess_engine.py:93-95 | The black view maps (r, c) to a square in 0..63 on file 7 - c and rank r. |
| `Views.RcFromSquareForWhiteView` | chess_engine.py:97-101 | Every square maps to a row and column in 0..7 on the white view. |
| `Views.RcFromSquareForBlackView` | chess_engine.py:103-108 | Every square maps to a row and column in 0..7 on the black view. |
| `Views.SquareFileRank` | chess_engine.py:99-100 | Combining a file and rank into a square and splitting it again gives the same file and rank. |
| `Views.FileRankSquare` | chess_engine.py:99-100 | Splitting a square into file and rank gives values in 0..7, and combining them gives the square back. |
| `Views.WhiteViewRoundTrip` | chess_engine.py:89-101 | On the white view, (r, c) to square to (r, c) is the identity. |
| `Views.BlackViewRoundTrip` | chess_engine.py:93-108 | On the black view, (r, c) to square to (r, c) is the identity. |
| `Views.WhiteViewSquareRoundTrip` | chess_engine.py:89-101 | On the white view, square to (r, c) to square is the identity. |
| `Views.BlackViewSquareRoundTrip` | chess_engine.py:93-108 | On the black view, square to (r, c) to square is the identity. |
| `Views.BlackViewIsRotation` | chess_engine.py:89-108 | The black view is the white view rotated 180 degrees, in both directions of the conversion. |
| `Views.Corners` | chess_engine.py:90-94 | The top-left square is a8 on the white view and h1 on the black view. The bottom-right square is h1 and a8 respectively. |

## Left out

- All pygame code is left out. That covers window and font setup, image loading, `draw_board`, `draw_pieces`, `draw_banners`, the frame loop with `clock.tick`, and the QUIT/KEYDOWN handling. It is display and input plumbing.
- Mouse-to-square mapping is left out (`board_from_mouse` in both variants, `board_click_to_square`), because it is screen geometry. A click reaches the model as an on-board square. In the light variant it also carries the board it was made on (`View`). Clicks outside both boards do nothing in the source and are not modelled.
- `update_legal_targets_from_selected`, `make_move` and the click loop of `chess_engine.py` are left out. They hand legality, check, castling, en passant and promotion to python-chess's `Board`, and that code is not part of this model. The one piece of rules work `make_move` does itself, retrying a pawn move to the last rank as a promotion to a queen (lines 201-209), goes with it.
- Check, castling, en passant, promotion, checkmate and stalemate are not modelled. The modelled code implements none of them, and the light rules deliberately let kings be captured.
- Python's negative list indexing is not modelled. Every square that the modelled code reads is on the board: `legal_move_basic` tests dst first, and sources come from earlier selections.
- Views: python-chess's `square_file` and `square_rank` are bit operations (`& 7`, `>> 3`). The model writes them as `% 8` and `/ 8`, which agree with the bit operations on 0..63. The view conversions require their inputs to be in range, as their docstrings state.
