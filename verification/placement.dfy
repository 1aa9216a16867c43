/** PlacementValidator.canPlaceAt: where a piece from the reserve may enter the board. */
module Placement {
  import opened Wrappers
  import opened Hex
  import opened Pieces
  import opened Boards

  /** Colour of the top piece at `n`, if `n` holds a stack. */
  function TopColor(b: Board, n: Coord): Option<Color> {
    match TopPieceAt(b, n)
    case None => None
    case Some(p) => Some(p.color)
  }

  /** Some neighbouring top piece has colour `color`. */
  ghost predicate TouchesOwn(b: Board, c: Coord, color: Color) {
    exists n :: Adjacent(c, n) && TopColor(b, n) == Some(color)
  }

  /** Every occupied neighbour's top piece has colour `color`. */
  ghost predicate TouchesNoEnemy(b: Board, c: Coord, color: Color) {
    forall n :: Adjacent(c, n) && n in b ==> TopColor(b, n) == Some(color)
  }

  /** The colour loop of `canPlaceAt`: fail at the first foreign top piece, otherwise report
      whether an own top piece was seen. */
  function ScanColors(b: Board, ns: seq<Coord>, color: Color, seenOwn: bool): (ok: bool)
    requires NoEmptyStacks(b)
    ensures ok <==> (seenOwn || exists n :: n in ns && TopColor(b, n) == Some(color))
                    && forall n :: n in ns && n in b ==> TopColor(b, n) == Some(color)
  {
    if ns == [] then seenOwn
    else
      assert forall n :: n in ns <==> n == ns[0] || n in ns[1..];
      if ns[0] in b then
        if TopPieceAt(b, ns[0]).value.color == color then ScanColors(b, ns[1..], color, true)
        else false
      else ScanColors(b, ns[1..], color, seenOwn)
  }

  /** `canPlaceAt`. Java reads the top piece of every occupied neighbour, so the board must have
      no empty stacks. */
  function CanPlaceAt(b: Board, c: Coord, piece: Piece): (ok: bool)
    requires NoEmptyStacks(b)
    ensures IsEmpty(b) ==> (ok <==> c == Coord(0, 0))
    ensures !IsEmpty(b) && c in b ==> !ok
    ensures !IsEmpty(b) && c !in b && |b| == 1 ==> (ok <==> exists n :: Adjacent(c, n) && n in b)
    ensures !IsEmpty(b) && c !in b && |b| != 1 ==>
              (ok <==> TouchesOwn(b, c, piece.color) && TouchesNoEnemy(b, c, piece.color))
  {
    if |b| == 0 then c == Coord(0, 0)
    else if c in b then false
    else if |b| == 1 then HasAdjacentPiece(b, c)
    else ScanColors(b, Neighbors(c), piece.color, false)
  }

  /** On a non-empty board an accepted cell is free and touches the hive. */
  lemma AcceptedCellTouchesHive(b: Board, c: Coord, piece: Piece)
    requires NoEmptyStacks(b) && !IsEmpty(b) && CanPlaceAt(b, c, piece)
    ensures c !in b
    ensures exists n :: Adjacent(c, n) && n in b
  {
    if |b| != 1 {
      var n :| Adjacent(c, n) && TopColor(b, n) == Some(piece.color);
    }
  }
}
