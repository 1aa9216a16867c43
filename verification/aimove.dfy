/** AIMove: a placement or movement decision, how it finds its real piece and how it is applied. */
module AIMoves {
  import opened Wrappers
  import opened Hex
  import opened Pieces
  import opened Boards
  import opened GameStates

  datatype MoveKind = Place | Move

  /** `from` is `None` (the source's `null`) for placements. */
  datatype AIMove = AIMove(piece: Piece, from: Option<Coord>, to: Coord, kind: MoveKind, score: real)

  /** The constructor: the score starts at zero. */
  function NewMove(piece: Piece, from: Option<Coord>, to: Coord, kind: MoveKind): (m: AIMove)
    ensures m.piece == piece && m.from == from && m.to == to && m.kind == kind && m.score == 0.0
  {
    AIMove(piece, from, to, kind, 0.0)
  }

  /** A reserve piece of the given kind and colour, and, when `instance` is given, that instance. */
  predicate Matches(p: Piece, kind: PieceType, color: Color, instance: Option<int>) {
    p.kind == kind && p.color == color && (instance.None? || p.instance == instance.value)
  }

  /** Index of the first element of `xs` that matches, or -1. */
  function FindIndex(xs: seq<Piece>, kind: PieceType, color: Color, instance: Option<int>)
    : (i: int)
    ensures -1 <= i < |xs|
    ensures i == -1 <==> forall p :: p in xs ==> !Matches(p, kind, color, instance)
    ensures i >= 0 ==> Matches(xs[i], kind, color, instance)
                       && forall j :: 0 <= j < i ==> !Matches(xs[j], kind, color, instance)
  {
    if xs == [] then -1
    else if Matches(xs[0], kind, color, instance) then 0
    else
      var i := FindIndex(xs[1..], kind, color, instance);
      assert forall j :: 1 <= j < |xs| ==> xs[j] == xs[1..][j - 1];
      if i == -1 then -1 else i + 1
  }

  /** The loops of `findActualPiece`: the first element of `xs` that matches. */
  function FindFirst(xs: seq<Piece>, kind: PieceType, color: Color, instance: Option<int>)
    : (r: Option<Piece>)
    ensures r.None? <==> forall p :: p in xs ==> !Matches(p, kind, color, instance)
    ensures r.Some? ==> r.value in xs && Matches(r.value, kind, color, instance)
  {
    var i := FindIndex(xs, kind, color, instance);
    if i == -1 then None else Some(xs[i])
  }

  /** `findActualPiece`. A movement takes the top piece at `from` (none when `from` is absent or
      unoccupied). A placement looks in the reserve of the move piece's colour for the same kind
      and instance, then for any piece of that kind, and otherwise finds nothing. */
  function FindActualPiece(s: GameState, m: AIMove): (r: Option<Piece>)
    ensures m.kind == Move ==> r == (if m.from.Some? then TopPieceAt(s.board, m.from.value) else None)
    ensures m.kind == Place ==>
              (r.None? <==> forall p :: p in Reserve(s, m.piece.color) ==> !Matches(p, m.piece.kind, m.piece.color, None))
    ensures m.kind == Place && r.Some? ==>
              r.value in Reserve(s, m.piece.color) && r.value.kind == m.piece.kind
              && r.value.color == m.piece.color
    ensures m.kind == Place ==>
              (exists p :: p in Reserve(s, m.piece.color) && Matches(p, m.piece.kind, m.piece.color, Some(m.piece.instance)))
              ==> r.Some? && r.value.instance == m.piece.instance
  {
    if m.kind == Move then
      if m.from.Some? then TopPieceAt(s.board, m.from.value) else None
    else
      var reserve := Reserve(s, m.piece.color);
      var exact := FindFirst(reserve, m.piece.kind, m.piece.color, Some(m.piece.instance));
      if exact.Some? then exact
      else FindFirst(reserve, m.piece.kind, m.piece.color, None)
  }

  /** `execute`. A placement with no matching reserve piece changes nothing (the source only logs
      an error). Otherwise the piece goes on the board, is removed from the reserve of the side to
      move, and sets its colour's queen flag if it is a queen. A movement pops the stack at `from`
      and pushes onto `to`; it fails (`None`) where the source throws, on an unoccupied `from`. */
  function Execute(s: GameState, m: AIMove): (r: Option<GameState>)
    ensures m.kind == Move ==>
              (r.None? <==> m.from.None? || m.from.value !in s.board || |s.board[m.from.value]| == 0)
    ensures m.kind == Move && r.Some? ==>
              r.value == s.(board := MovePiece(s.board, m.from.value, m.to).value)
    ensures m.kind == Place && FindActualPiece(s, m).None? ==> r == Some(s)
    ensures m.kind == Place && FindActualPiece(s, m).Some? ==>
              var a := FindActualPiece(s, m).value;
              && r.Some?
              && r.value.board == PlacePiece(s.board, a, m.to)
              && Reserve(r.value, s.current) == RemoveFirst(Reserve(s, s.current), a)
              && Reserve(r.value, Opponent(s.current)) == Reserve(s, Opponent(s.current))
              && QueenPlaced(r.value, a.color) == (QueenPlaced(s, a.color) || a.kind == Queen)
              && QueenPlaced(r.value, Opponent(a.color)) == QueenPlaced(s, Opponent(a.color))
              && r.value.current == s.current && r.value.turnCount == s.turnCount
  {
    if m.kind == Place then
      match FindActualPiece(s, m)
      case None => Some(s)
      case Some(a) =>
        var placed := s.(board := PlacePiece(s.board, a, m.to));
        var removed := RemovePieceFromReserve(placed, a);
        Some(if a.kind == Queen then SetQueenPlaced(removed, a.color) else removed)
    else
      if m.from.None? then None
      else match MovePiece(s.board, m.from.value, m.to)
        case None => None
        case Some(b') => Some(s.(board := b'))
  }

  /** Pieces in play: on the board plus in both reserves. */
  ghost function PiecesInPlay(s: GameState): nat {
    PieceCount(s.board) + |s.whiteReserve| + |s.blackReserve|
  }

  /** Executing a move by the side to move neither creates nor destroys pieces: a placement moves
      one piece from the reserve to the board, a movement keeps the board's piece count. */
  lemma ExecuteConservesPieces(s: GameState, m: AIMove)
    requires m.kind == Place ==> m.piece.color == s.current
    requires Execute(s, m).Some?
    ensures PiecesInPlay(Execute(s, m).value) == PiecesInPlay(s)
  {
    var r := Execute(s, m).value;
    if m.kind == Move {
      MovePieceFacts(s.board, m.from.value, m.to);
    } else if FindActualPiece(s, m).Some? {
      var a := FindActualPiece(s, m).value;
      PlacePieceFacts(s.board, a, m.to);
      assert a in Reserve(s, s.current);
      assert |r.whiteReserve| + |r.blackReserve|
          == |Reserve(r, s.current)| + |Reserve(r, Opponent(s.current))|;
    }
  }

  /** Each reserve holds only pieces of its own colour. */
  ghost predicate ReservesOwnColor(s: GameState) {
    forall c: Color, p :: p in Reserve(s, c) ==> p.color == c
  }

  lemma InitialReservesOwnColor()
    ensures ReservesOwnColor(Initial())
  {
  }

  /** A placement for the side not to move puts the piece on the board but leaves it in its
      owner's reserve, since only the mover's reserve is searched for removal. */
  lemma PlaceForOpponentKeepsReserve(s: GameState, m: AIMove)
    requires ReservesOwnColor(s)
    requires m.kind == Place && m.piece.color != s.current && FindActualPiece(s, m).Some?
    ensures var a := FindActualPiece(s, m).value;
            && Reserve(Execute(s, m).value, a.color) == Reserve(s, a.color)
            && PiecesInPlay(Execute(s, m).value) == PiecesInPlay(s) + 1
  {
    var a := FindActualPiece(s, m).value;
    PlacePieceFacts(s.board, a, m.to);
    assert a !in Reserve(s, s.current);
    var r := Execute(s, m).value;
    assert |r.whiteReserve| + |r.blackReserve|
        == |Reserve(r, s.current)| + |Reserve(r, Opponent(s.current))|;
    assert |s.whiteReserve| + |s.blackReserve|
        == |Reserve(s, s.current)| + |Reserve(s, Opponent(s.current))|;
  }

  /** Executing a move keeps every stack on the board non-empty. */
  lemma ExecuteKeepsStacks(s: GameState, m: AIMove)
    requires NoEmptyStacks(s.board) && Execute(s, m).Some?
    ensures NoEmptyStacks(Execute(s, m).value.board)
  {
    if m.kind == Move {
      MovePieceFacts(s.board, m.from.value, m.to);
    } else if FindActualPiece(s, m).Some? {
      PlacePieceFacts(s.board, FindActualPiece(s, m).value, m.to);
    }
  }
}
