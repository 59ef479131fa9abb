/** Pieces and their two-letter codes.

    The board stores a code such as "wp" or "bk" in every occupied square:
    the first letter is the side ('w' or 'b'), the second the kind
    ('p', 'n', 'b', 'r', 'q', 'k').  The model keeps the decoded form,
    `Piece(color, kind)`, and relates it to the code by `Code` and `Decode`. */
module Pieces {

  datatype Option<+T> = None | Some(value: T)

  datatype Color = White | Black

  datatype Kind = Pawn | Knight | Bishop | Rook | Queen | King

  datatype Piece = Piece(color: Color, kind: Kind)

  /** What a square holds: a piece, or nothing (`None` in the source). */
  type Cell = Option<Piece>

  /** The side that moves next after `c` has moved. */
  function Opponent(c: Color): (o: Color)
    ensures o != c
  {
    if c == White then Black else White
  }

  function ColorLetter(c: Color): char
  {
    if c == White then 'w' else 'b'
  }

  function KindLetter(k: Kind): char
  {
    match k
    case Pawn => 'p'
    case Knight => 'n'
    case Bishop => 'b'
    case Rook => 'r'
    case Queen => 'q'
    case King => 'k'
  }

  /** The two-letter code the board stores for a piece. */
  function Code(p: Piece): (s: string)
    ensures |s| == 2
  {
    [ColorLetter(p.color), KindLetter(p.kind)]
  }

  function ParseColor(ch: char): (r: Option<Color>)
    ensures r.Some? ==> ColorLetter(r.value) == ch
  {
    if ch == 'w' then Some(White)
    else if ch == 'b' then Some(Black)
    else None
  }

  function ParseKind(ch: char): (r: Option<Kind>)
    ensures r.Some? ==> KindLetter(r.value) == ch
  {
    if ch == 'p' then Some(Pawn)
    else if ch == 'n' then Some(Knight)
    else if ch == 'b' then Some(Bishop)
    else if ch == 'r' then Some(Rook)
    else if ch == 'q' then Some(Queen)
    else if ch == 'k' then Some(King)
    else None
  }

  /** Reads a two-letter code back into a piece; anything else is not a code. */
  function Decode(s: string): Option<Piece>
  {
    if |s| != 2 then None
    else match (ParseColor(s[0]), ParseKind(s[1]))
      case (Some(c), Some(k)) => Some(Piece(c, k))
      case _ => None
  }

  /** Every piece's code decodes to that piece. */
  lemma DecodeCode(p: Piece)
    ensures Decode(Code(p)) == Some(p)
  {
  }

  /** Every string that decodes is the code of the piece it decodes to,
      so codes and pieces are in one-to-one correspondence. */
  lemma CodeDecode(s: string)
    ensures Decode(s).Some? ==> Code(Decode(s).value) == s
  {
  }

  /** `side_of`: the first letter of the code, or nothing for an empty square. */
  function SideOf(cell: Cell): (r: Option<Color>)
    ensures r.None? <==> cell.None?
    ensures cell.Some? ==> ColorLetter(r.value) == Code(cell.value)[0]
  {
    match cell
    case None => None
    case Some(p) => Some(p.color)
  }

  /** `kind_of`: the second letter of the code, or nothing for an empty square. */
  function KindOf(cell: Cell): (r: Option<Kind>)
    ensures r.None? <==> cell.None?
    ensures cell.Some? ==> KindLetter(r.value) == Code(cell.value)[1]
  {
    match cell
    case None => None
    case Some(p) => Some(p.kind)
  }
}
