/** Piece types, colours and pieces (PieceType, java.awt.Color, Piece). */
module Pieces {
  import opened Wrappers
  import opened Hex

  /** The two colours a piece can have; `java.awt.Color` is only ever WHITE or BLACK here. */
  datatype Color = White | Black

  function Opponent(c: Color): (o: Color)
    ensures o != c
  {
    if c == White then Black else White
  }

  /** The five insect types, in declaration order. */
  datatype PieceType = Queen | Ant | Spider | Grasshopper | Beetle

  /** `PieceType.values()`: the declaration order. */
  const AllTypes: seq<PieceType> := [Queen, Ant, Spider, Grasshopper, Beetle]

  /** `ordinal()`: position in the declaration order. */
  function Ordinal(t: PieceType): (n: nat)
    ensures n < |AllTypes| && AllTypes[n] == t
  {
    match t
    case Queen => 0
    case Ant => 1
    case Spider => 2
    case Grasshopper => 3
    case Beetle => 4
  }

  /** `getCount`: how many pieces of the type each colour owns. */
  function Count(t: PieceType): nat {
    match t
    case Queen => 1
    case Ant => 3
    case Spider => 2
    case Grasshopper => 3
    case Beetle => 2
  }

  /** `getSymbol`: the one-character symbol of the type. */
  function Symbol(t: PieceType): char {
    match t
    case Queen => 'Q'
    case Ant => 'A'
    case Spider => 'S'
    case Grasshopper => 'G'
    case Beetle => 'B'
  }

  /** Sum of `Count` over a list of types. */
  function CountTotal(ts: seq<PieceType>): nat {
    if ts == [] then 0 else Count(ts[0]) + CountTotal(ts[1..])
  }

  /** Each colour owns eleven pieces in total. */
  lemma PiecesPerColor()
    ensures CountTotal(AllTypes) == 11
  {
    assert AllTypes[1..][1..][1..][1..][1..] == [];
  }

  /** Distinct types have distinct symbols, and every type occurs once in the declaration order. */
  lemma SymbolsDistinct(t1: PieceType, t2: PieceType)
    ensures Symbol(t1) == Symbol(t2) <==> t1 == t2
    ensures Ordinal(t1) == Ordinal(t2) <==> t1 == t2
  {
  }

  /** A piece: identity (type, colour, instance number) plus the two mutable fields of `Piece`. */
  datatype Piece = Piece(kind: PieceType, color: Color, instance: int,
                         position: Option<Coord>, stackLevel: int)

  /** The `Piece` constructor: no position yet and stack level 0. */
  function NewPiece(kind: PieceType, color: Color, instance: int): (p: Piece)
    ensures p.kind == kind && p.color == color && p.instance == instance
    ensures p.position.None? && p.stackLevel == 0
  {
    Piece(kind, color, instance, None, 0)
  }

  /** `setPosition`: changes the position only. */
  function SetPosition(p: Piece, c: Coord): (p': Piece)
    ensures p'.position == Some(c)
    ensures SameIdentity(p, p') && p'.stackLevel == p.stackLevel
  {
    p.(position := Some(c))
  }

  /** `setStackLevel`: changes the stack level only. */
  function SetStackLevel(p: Piece, level: int): (p': Piece)
    ensures p'.stackLevel == level
    ensures SameIdentity(p, p') && p'.position == p.position
  {
    p.(stackLevel := level)
  }

  /** Same type, colour and instance number. */
  predicate SameIdentity(a: Piece, b: Piece) {
    a.kind == b.kind && a.color == b.color && a.instance == b.instance
  }
}
