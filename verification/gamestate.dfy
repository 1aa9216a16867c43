/** GameState: board, reserves, side to move, queen flags and turn counters. */
module GameStates {
  import opened Wrappers
  import opened Hex
  import opened Pieces
  import opened Boards

  datatype GameState = GameState(
    board: Board,
    whiteReserve: seq<Piece>,
    blackReserve: seq<Piece>,
    current: Color,
    whiteQueenPlaced: bool,
    blackQueenPlaced: bool,
    turnCount: int,
    whiteTurnCount: int,
    blackTurnCount: int)

  /** `getReserve`. */
  function Reserve(s: GameState, c: Color): seq<Piece> {
    if c == White then s.whiteReserve else s.blackReserve
  }

  function WithReserve(s: GameState, c: Color, r: seq<Piece>): (s': GameState)
    ensures Reserve(s', c) == r && Reserve(s', Opponent(c)) == Reserve(s, Opponent(c))
    ensures s'.board == s.board && s'.current == s.current
  {
    if c == White then s.(whiteReserve := r) else s.(blackReserve := r)
  }

  /** `isQueenPlaced`. */
  function QueenPlaced(s: GameState, c: Color): bool {
    if c == White then s.whiteQueenPlaced else s.blackQueenPlaced
  }

  /** The pieces `createPieceSet` builds for one type: instances 1..k. */
  function Instances(t: PieceType, color: Color, k: nat): (ps: seq<Piece>)
    ensures |ps| == k
    ensures forall i :: 0 <= i < k ==> ps[i] == NewPiece(t, color, i + 1)
  {
    if k == 0 then [] else Instances(t, color, k - 1) + [NewPiece(t, color, k)]
  }

  lemma InstancesComplete(t: PieceType, color: Color, k: nat)
    ensures forall p: Piece :: p in Instances(t, color, k) <==>
      p.kind == t && p.color == color && 1 <= p.instance <= k && p.position.None? && p.stackLevel == 0
  {
    var here := Instances(t, color, k);
    forall p: Piece | p.kind == t && p.color == color && 1 <= p.instance <= k
                      && p.position.None? && p.stackLevel == 0
      ensures p in here
    {
      assert here[p.instance - 1] == p;
    }
  }

  function PiecesOfTypes(ts: seq<PieceType>, color: Color): (ps: seq<Piece>)
    ensures |ps| == CountTotal(ts)
    ensures forall p :: p in ps <==> p.kind in ts && p.color == color && 1 <= p.instance <= Count(p.kind)
                                     && p.position.None? && p.stackLevel == 0
  {
    if ts == [] then []
    else
      InstancesComplete(ts[0], color, Count(ts[0]));
      Instances(ts[0], color, Count(ts[0])) + PiecesOfTypes(ts[1..], color)
  }

  lemma AllTypesComplete()
    ensures forall t: PieceType :: t in AllTypes
  {
    forall t: PieceType
      ensures t in AllTypes
    {
      assert AllTypes[Ordinal(t)] == t;
    }
  }

  /** `createPieceSet`: one piece per type and instance 1..count, eleven in all. */
  function PieceSet(color: Color): (ps: seq<Piece>)
    ensures |ps| == 11
    ensures forall p :: p in ps <==> p.color == color && 1 <= p.instance <= Count(p.kind)
                                     && p.position.None? && p.stackLevel == 0
  {
    PiecesPerColor();
    AllTypesComplete();
    PiecesOfTypes(AllTypes, color)
  }

  /** The `GameState` constructor. */
  function Initial(): (s: GameState)
    ensures s.current == White && s.turnCount == 0
    ensures !QueenPlaced(s, White) && !QueenPlaced(s, Black)
    ensures IsEmpty(s.board)
    ensures s.whiteReserve == PieceSet(White) && s.blackReserve == PieceSet(Black)
  {
    GameState(map[], PieceSet(White), PieceSet(Black), White, false, false, 0, 0, 0)
  }

  /** `nextPlayer`: swap the side to move and bump the total and the new side's counter. */
  function NextPlayer(s: GameState): (s': GameState)
    ensures s'.current == Opponent(s.current)
    ensures s'.turnCount == s.turnCount + 1
    ensures s'.board == s.board && s'.whiteReserve == s.whiteReserve && s'.blackReserve == s.blackReserve
    ensures forall c :: QueenPlaced(s', c) == QueenPlaced(s, c)
  {
    var next := if s.current == White then Black else White;
    s.(current := next, turnCount := s.turnCount + 1,
       whiteTurnCount := if next == White then s.whiteTurnCount + 1 else s.whiteTurnCount,
       blackTurnCount := if next == Black then s.blackTurnCount + 1 else s.blackTurnCount)
  }

  /** Turn bookkeeping invariant: totals add up, white moves on even turns, black is at most one ahead. */
  predicate TurnInv(s: GameState) {
    && s.turnCount == s.whiteTurnCount + s.blackTurnCount
    && (s.current == White <==> s.turnCount % 2 == 0)
    && 0 <= s.blackTurnCount - s.whiteTurnCount <= 1
  }

  lemma InitialTurnInv()
    ensures TurnInv(Initial())
  {
  }

  lemma NextPlayerTurnInv(s: GameState)
    requires TurnInv(s)
    ensures TurnInv(NextPlayer(s))
  {
  }

  /** `mustPlaceQueen`: white after three own moves or black after four, queen still in hand,
      whoever is to move. */
  predicate MustPlaceQueen(s: GameState) {
    (s.whiteTurnCount >= 3 && !s.whiteQueenPlaced) || (s.blackTurnCount >= 4 && !s.blackQueenPlaced)
  }

  /** From the turn invariant: a side that has not placed its queen is forced to when it makes its
      fourth move (turn 6 for white, turn 7 for black). */
  lemma QueenDeadline(s: GameState)
    requires TurnInv(s)
    ensures s.turnCount == 6 && !QueenPlaced(s, White) ==> s.current == White && MustPlaceQueen(s)
    ensures s.turnCount == 7 && !QueenPlaced(s, Black) ==> s.current == Black && MustPlaceQueen(s)
    ensures s.turnCount < 6 ==> !MustPlaceQueen(s)
  {
  }

  /** The rule ignores whose turn it is: after white misses its deadline, black is forced too. */
  lemma MustPlaceQueenIgnoresTurn(s: GameState)
    requires TurnInv(s) && s.turnCount == 7 && !QueenPlaced(s, White)
    ensures s.current == Black && MustPlaceQueen(s)
  {
  }

  /** `setQueenPlaced`: sets one flag to true and clears nothing. */
  function SetQueenPlaced(s: GameState, c: Color): (s': GameState)
    ensures QueenPlaced(s', c)
    ensures forall x :: QueenPlaced(s, x) ==> QueenPlaced(s', x)
    ensures QueenPlaced(s', Opponent(c)) == QueenPlaced(s, Opponent(c))
    ensures s'.board == s.board && s'.current == s.current
    ensures forall x :: Reserve(s', x) == Reserve(s, x)
  {
    if c == White then s.(whiteQueenPlaced := true) else s.(blackQueenPlaced := true)
  }

  /** Index of the first element equal to `p`. */
  function IndexOf(xs: seq<Piece>, p: Piece): (i: nat)
    requires p in xs
    ensures i < |xs| && xs[i] == p && p !in xs[..i]
  {
    if xs[0] == p then 0
    else
      var i := IndexOf(xs[1..], p);
      assert xs[..i + 1] == [xs[0]] + xs[1..][..i];
      i + 1
  }

  /** `List.remove(Object)`: drop the first element equal to `p`, if any. */
  function RemoveFirst(xs: seq<Piece>, p: Piece): (ys: seq<Piece>)
    ensures p !in xs ==> ys == xs
    ensures p in xs ==> |ys| == |xs| - 1 && multiset(ys) == multiset(xs) - multiset{p}
  {
    if p in xs then
      var i := IndexOf(xs, p);
      assert xs == xs[..i] + [p] + xs[i + 1..];
      xs[..i] + xs[i + 1..]
    else xs
  }

  /** `removePieceFromReserve`: remove from the side to move's reserve only. */
  function RemovePieceFromReserve(s: GameState, p: Piece): (s': GameState)
    ensures Reserve(s', s.current) == RemoveFirst(Reserve(s, s.current), p)
    ensures Reserve(s', Opponent(s.current)) == Reserve(s, Opponent(s.current))
    ensures s'.board == s.board && s'.current == s.current && s'.turnCount == s.turnCount
    ensures forall c :: QueenPlaced(s', c) == QueenPlaced(s, c)
  {
    WithReserve(s, s.current, RemoveFirst(Reserve(s, s.current), p))
  }
}
