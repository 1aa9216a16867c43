/** HiveAI: move generation, state encoding and the choice between heuristics, the policy network
    and the tree search. Network outputs, tree-search results and random draws are parameters. */
module HiveAI {
  import opened Wrappers
  import opened Hex
  import opened Pieces
  import opened Boards
  import opened GameStates
  import opened Placement
  import opened MoveCalc
  import opened AIMoves

  // ---------------------------------------------------------------- placements

  /** The neighbours of the listed cells, cell by cell, in neighbour order. */
  function Candidates(cells: seq<Coord>): (cs: seq<Coord>)
    ensures forall c :: c in cs <==> exists k :: k in cells && Adjacent(k, c)
  {
    if cells == [] then []
    else
      var rest := Candidates(cells[1..]);
      assert forall k :: k in cells <==> k == cells[0] || k in cells[1..];
      forall c | c in Neighbors(cells[0]) ensures exists k :: k in cells && Adjacent(k, c) {
        assert Adjacent(cells[0], c);
      }
      Neighbors(cells[0]) + rest
  }

  /** The `checked` loop of `getValidPlacementCoords`: test each candidate once, keep the accepted. */
  function PlacementScan(b: Board, piece: Piece, cs: seq<Coord>, checked: set<Coord>): (r: seq<Coord>)
    requires NoEmptyStacks(b)
    ensures forall c :: c in r <==> c in cs && c !in checked && CanPlaceAt(b, c, piece)
    ensures Distinct(r)
  {
    if cs == [] then []
    else if cs[0] in checked then PlacementScan(b, piece, cs[1..], checked)
    else
      var rest := PlacementScan(b, piece, cs[1..], checked + {cs[0]});
      if CanPlaceAt(b, cs[0], piece) then [cs[0]] + rest else rest
  }

  /** `getValidPlacementCoords`: the centre on an empty board; otherwise every neighbour of an
      occupied cell that `canPlaceAt` accepts, each once. */
  function ValidPlacementCoords(b: Board, piece: Piece): (r: seq<Coord>)
    requires NoEmptyStacks(b)
    ensures forall c :: c in r <==> CanPlaceAt(b, c, piece)
    ensures Distinct(r)
  {
    if IsEmpty(b) then [Coord(0, 0)]
    else
      var r := PlacementScan(b, piece, Candidates(Enumerate(b.Keys)), {});
      forall c | CanPlaceAt(b, c, piece) ensures c in r {
        AcceptedCellTouchesHive(b, c, piece);
        var n :| Adjacent(c, n) && n in b;
        AdjacentSymmetric(c, n);
      }
      r
  }

  // ---------------------------------------------------------------- legal moves

  function PlaceMovesFor(piece: Piece, cs: seq<Coord>): (ms: seq<AIMove>)
    ensures forall m :: m in ms <==> m.piece == piece && m.from.None? && m.to in cs && m.kind == Place && m.score == 0.0
  {
    if cs == [] then []
    else [NewMove(piece, None, cs[0], Place)] + PlaceMovesFor(piece, cs[1..])
  }

  function MoveMovesFor(piece: Piece, from: Coord, ds: seq<Coord>): (ms: seq<AIMove>)
    ensures forall m :: m in ms <==> m.piece == piece && m.from == Some(from) && m.to in ds && m.kind == Move && m.score == 0.0
  {
    if ds == [] then []
    else [NewMove(piece, Some(from), ds[0], Move)] + MoveMovesFor(piece, from, ds[1..])
  }

  /** A reserve piece may be played now: before the queen deadline any piece, after it only a queen. */
  predicate MayPlace(s: GameState, piece: Piece) {
    !(MustPlaceQueen(s) && piece.kind != Queen)
  }

  /** The reserve loop of `generateLegalMoves`. */
  function PlacementMoves(s: GameState, reserve: seq<Piece>): (ms: seq<AIMove>)
    requires NoEmptyStacks(s.board)
    ensures forall m :: m in ms <==>
              m.piece in reserve && MayPlace(s, m.piece) && m.from.None? && m.kind == Place
              && m.score == 0.0 && CanPlaceAt(s.board, m.to, m.piece)
  {
    if reserve == [] then []
    else
      var piece := reserve[0];
      var here := if MayPlace(s, piece) then PlaceMovesFor(piece, ValidPlacementCoords(s.board, piece)) else [];
      assert forall p :: p in reserve <==> p == piece || p in reserve[1..];
      here + PlacementMoves(s, reserve[1..])
  }

  /** The destinations `getValidMoves` gives the top piece at an occupied `from`. */
  function Destinations(b: Board, from: Coord): seq<Coord>
    requires from in b && |b[from]| > 0
  {
    GetValidMoves(b, TopPieceAt(b, from).value, from).value
  }

  /** The board loop of `generateLegalMoves`: each cell whose top piece has the colour. */
  function MovementMoves(b: Board, color: Color, cells: seq<Coord>): (ms: seq<AIMove>)
    ensures forall m :: m in ms <==>
              m.from.Some? && m.from.value in cells && m.from.value in b && |b[m.from.value]| > 0
              && m.piece == TopPieceAt(b, m.from.value).value && m.piece.color == color
              && m.to in Destinations(b, m.from.value) && m.kind == Move && m.score == 0.0
  {
    if cells == [] then []
    else
      var c := cells[0];
      var top := TopPieceAt(b, c);
      var here := if top.Some? && top.value.color == color then MoveMovesFor(top.value, c, Destinations(b, c)) else [];
      assert forall x :: x in cells <==> x == c || x in cells[1..];
      here + MovementMoves(b, color, cells[1..])
  }

  /** `generateLegalMoves`: placements of the colour's reserve pieces, then (once its queen is
      down) the moves of its pieces on top of a stack. Cells are visited in the board's iteration
      order. */
  function GenerateLegalMoves(s: GameState, color: Color): (ms: seq<AIMove>)
    requires NoEmptyStacks(s.board)
    ensures forall m :: m in ms ==> m.score == 0.0 && (m.kind == Place <==> m.from.None?)
  {
    PlacementMoves(s, Reserve(s, color))
    + (if QueenPlaced(s, color) then MovementMoves(s.board, color, Enumerate(s.board.Keys)) else [])
  }

  /** A legal move of `color`, stated without reference to the generating loops. */
  ghost predicate IsLegal(s: GameState, color: Color, m: AIMove)
    requires NoEmptyStacks(s.board)
  {
    m.score == 0.0 &&
    if m.kind == Place then
      && m.from.None? && m.piece in Reserve(s, color) && MayPlace(s, m.piece)
      && CanPlaceAt(s.board, m.to, m.piece)
    else
      && QueenPlaced(s, color) && m.from.Some? && TopPieceAt(s.board, m.from.value) == Some(m.piece)
      && m.piece.color == color
      && m.to in GetValidMoves(s.board, m.piece, m.from.value).value
  }

  /** The generated list holds exactly the legal moves. */
  lemma GeneratedExactlyLegal(s: GameState, color: Color, m: AIMove)
    requires NoEmptyStacks(s.board)
    ensures m in GenerateLegalMoves(s, color) <==> IsLegal(s, color, m)
  {
    if m.kind == Place {
      GeneratedPlacement(s, color, m);
    } else {
      GeneratedMovement(s, color, m);
    }
  }

  lemma GeneratedPlacement(s: GameState, color: Color, m: AIMove)
    requires NoEmptyStacks(s.board) && m.kind == Place
    ensures m in GenerateLegalMoves(s, color) <==> IsLegal(s, color, m)
  {
    var places := PlacementMoves(s, Reserve(s, color));
    var moves := if QueenPlaced(s, color) then MovementMoves(s.board, color, Enumerate(s.board.Keys)) else [];
    assert GenerateLegalMoves(s, color) == places + moves;
    assert m !in moves;
  }

  lemma GeneratedMovement(s: GameState, color: Color, m: AIMove)
    requires NoEmptyStacks(s.board) && m.kind == Move
    ensures m in GenerateLegalMoves(s, color) <==> IsLegal(s, color, m)
  {
    var places := PlacementMoves(s, Reserve(s, color));
    assert m !in places;
    if QueenPlaced(s, color) {
      var moves := MovementMoves(s.board, color, Enumerate(s.board.Keys));
      assert GenerateLegalMoves(s, color) == places + moves;
      MovedExactly(s.board, color, m);
    } else {
      assert GenerateLegalMoves(s, color) == places;
    }
  }

  /** The board loop over every cell yields exactly the moves of the colour's top pieces. */
  lemma MovedExactly(b: Board, color: Color, m: AIMove)
    requires NoEmptyStacks(b) && m.kind == Move
    ensures m in MovementMoves(b, color, Enumerate(b.Keys)) <==>
              && m.score == 0.0 && m.from.Some? && TopPieceAt(b, m.from.value) == Some(m.piece)
              && m.piece.color == color && m.to in GetValidMoves(b, m.piece, m.from.value).value
  {
    if m.from.Some? && TopPieceAt(b, m.from.value) == Some(m.piece) {
      assert m.from.value in Enumerate(b.Keys);
    }
  }

  // ---------------------------------------------------------------- state encoding

  const BoardFeatures: nat := 1210
  const FeatureCount: nat := 1220

  /** Index of the first of the ten slots of cell `(q, r)` of the 11 x 11 window. */
  function CellBase(q: int, r: int): int {
    ((q + 5) * 11 + (r + 5)) * 10
  }

  /** Slot of a piece within its cell: own colour 0..4, other colour 5..9, by type ordinal. */
  function SlotOf(p: Piece, aiColor: Color): (k: nat)
    ensures k < 10
  {
    (if p.color == aiColor then 0 else 5) + Ordinal(p.kind)
  }

  /** The meaning of board feature `i`: decode its cell and slot and look at the top piece there. */
  function BoardFeature(b: Board, aiColor: Color, i: nat): real
    requires i < BoardFeatures
  {
    var cell, slot := i / 10, i % 10;
    match TopPieceAt(b, Coord(cell / 11 - 5, cell % 11 - 5))
    case None => 0.0
    case Some(p) => if SlotOf(p, aiColor) == slot then 1.0 else 0.0
  }

  /** The scalar features 1210..1214; 1215..1219 stay zero. */
  function ScalarFeature(s: GameState, aiColor: Color, i: nat): real
    requires BoardFeatures <= i < FeatureCount
  {
    if i == 1210 then s.turnCount as real / 30.0
    else if i == 1211 then (if QueenPlaced(s, aiColor) then 1.0 else 0.0)
    else if i == 1212 then (if QueenPlaced(s, Opponent(aiColor)) then 1.0 else 0.0)
    else if i == 1213 then |Reserve(s, aiColor)| as real / 11.0
    else if i == 1214 then |s.board| as real / 22.0
    else 0.0
  }

  lemma DecodeSlot(k: nat, j: nat)
    requires k < 121 && j < 10
    ensures (10 * k + j) / 10 == k && (10 * k + j) % 10 == j
  {
  }

  /** `encodeGameState`: a one-hot of the top piece of every cell of the window q, r in -5..5
      (q outer, r inner; cell number k = (q + 5) * 11 + (r + 5) has slots 10k..10k+9), then the
      game-phase scalars. */
  method EncodeGameState(s: GameState, aiColor: Color) returns (features: seq<real>)
    ensures |features| == FeatureCount
    ensures forall i :: 0 <= i < BoardFeatures ==> features[i] == BoardFeature(s.board, aiColor, i)
    ensures forall i :: BoardFeatures <= i < FeatureCount ==> features[i] == ScalarFeature(s, aiColor, i)
  {
    var f := new real[FeatureCount](_ => 0.0);
    var k := 0;
    while k < 121
      invariant 0 <= k <= 121
      invariant forall i :: 0 <= i < 10 * k ==> f[i] == BoardFeature(s.board, aiColor, i)
      invariant forall i :: 10 * k <= i < FeatureCount ==> f[i] == 0.0
    {
      var q, r := k / 11 - 5, k % 11 - 5;
      assert CellBase(q, r) == 10 * k;
      var idx := 10 * k;
      var piece := TopPieceAt(s.board, Coord(q, r));
      if piece.Some? {
        f[idx + SlotOf(piece.value, aiColor)] := 1.0;
      }
      forall i | idx <= i < idx + 10
        ensures f[i] == BoardFeature(s.board, aiColor, i)
      {
        DecodeSlot(k, i - idx);
      }
      k := k + 1;
    }
    f[1210] := s.turnCount as real / 30.0;
    f[1211] := if QueenPlaced(s, aiColor) then 1.0 else 0.0;
    f[1212] := if QueenPlaced(s, Opponent(aiColor)) then 1.0 else 0.0;
    f[1213] := |Reserve(s, aiColor)| as real / 11.0;
    f[1214] := |s.board| as real / 22.0;
    features := f[..];
  }

  /** A piece on top of a cell inside the window sets exactly one feature of that cell. */
  lemma OneHotPerCell(b: Board, aiColor: Color, q: int, r: int)
    requires -5 <= q <= 5 && -5 <= r <= 5 && TopPieceAt(b, Coord(q, r)).Some?
    ensures 0 <= CellBase(q, r) && CellBase(q, r) + 10 <= BoardFeatures
    ensures forall i :: CellBase(q, r) <= i < CellBase(q, r) + 10 ==>
              (BoardFeature(b, aiColor, i) == 1.0
               <==> i == CellBase(q, r) + SlotOf(TopPieceAt(b, Coord(q, r)).value, aiColor))
  {
    var k := (q + 5) * 11 + (r + 5);
    assert k / 11 == q + 5 && k % 11 == r + 5;
    forall i | CellBase(q, r) <= i < CellBase(q, r) + 10
      ensures i / 10 == k && i % 10 == i - CellBase(q, r)
    {
      DecodeSlot(k, i - CellBase(q, r));
    }
  }

  // ---------------------------------------------------------------- choosing a move

  predicate ToCentre(m: AIMove) {
    m.to == Coord(0, 0)
  }

  predicate MovesQueen(m: AIMove) {
    m.piece.kind == Queen
  }

  /** The early-game heuristic: on the first turn the first move to the centre, then (if the queen
      is due) the first queen move, otherwise the move at the random index `pick`. */
  function EarlyGameMove(s: GameState, moves: seq<AIMove>, pick: nat): (r: Option<AIMove>)
    requires moves != [] ==> pick < |moves|
    ensures r.None? <==> moves == []
    ensures r.Some? ==> r.value in moves
    ensures s.turnCount == 0 && (exists m :: m in moves && m.to == Coord(0, 0)) ==> r.value.to == Coord(0, 0)
    ensures !(s.turnCount == 0 && exists m :: m in moves && m.to == Coord(0, 0))
            && MustPlaceQueen(s) && (exists m :: m in moves && m.piece.kind == Queen)
            ==> r.value.piece.kind == Queen
    ensures s.turnCount == 0 && (exists m :: m in moves && ToCentre(m)) ==> r == FirstMove(moves, ToCentre)
    ensures !(s.turnCount == 0 && exists m :: m in moves && ToCentre(m))
            && MustPlaceQueen(s) && (exists m :: m in moves && MovesQueen(m))
            ==> r == FirstMove(moves, MovesQueen)
    ensures moves != [] && !(s.turnCount == 0 && exists m :: m in moves && ToCentre(m))
            && !(MustPlaceQueen(s) && exists m :: m in moves && MovesQueen(m))
            ==> r == Some(moves[pick])
  {
    var centre := FirstMove(moves, ToCentre);
    var queen := FirstMove(moves, MovesQueen);
    if s.turnCount == 0 && centre.Some? then centre
    else if MustPlaceQueen(s) && queen.Some? then queen
    else if moves == [] then None
    else Some(moves[pick])
  }

  /** The first move satisfying `want`: it is wanted, and no move before it is. */
  function FirstMove(moves: seq<AIMove>, want: AIMove -> bool): (r: Option<AIMove>)
    ensures r.None? <==> forall m :: m in moves ==> !want(m)
    ensures r.Some? ==> r.value in moves && want(r.value)
    ensures r.Some? ==> exists i :: 0 <= i < |moves| && moves[i] == r.value && want(moves[i])
                                    && forall j :: 0 <= j < i ==> !want(moves[j])
  {
    if moves == [] then None
    else if want(moves[0]) then Some(moves[0])
    else
      var r := FirstMove(moves[1..], want);
      if r.Some? then
        var i :| 0 <= i < |moves[1..]| && moves[1..][i] == r.value && want(moves[1..][i])
                 && forall j :: 0 <= j < i ==> !want(moves[1..][j]);
        assert moves[i + 1] == r.value && want(moves[i + 1]);
        assert forall j :: 0 <= j < i + 1 ==> !want(moves[j]) by {
          forall j | 0 <= j < i + 1 ensures !want(moves[j]) {
            if j > 0 { assert moves[j] == moves[1..][j - 1]; }
          }
        }
        r
      else r
  }

  /** Sum of the first `n` weights. */
  function Prefix(ws: seq<real>, n: nat): real
    requires n <= |ws|
  {
    if n == 0 then 0.0 else Prefix(ws, n - 1) + ws[n - 1]
  }

  /** The running total up to and including index `j` reaches `target`. */
  predicate Reaches(ws: seq<real>, target: real, j: nat) {
    j < |ws| && target <= Prefix(ws, j + 1)
  }

  /** The sampling loop of `selectMoveFromPolicy`: the first index from `i` on whose running total
      reaches `target`, or 0 when none does. */
  function SampleIndex(ws: seq<real>, target: real, i: nat): (k: nat)
    requires ws != [] && i <= |ws|
    requires i > 0 ==> Prefix(ws, i) < target
    ensures k < |ws|
    ensures target <= Prefix(ws, |ws|) ==>
              k >= i && (k == 0 || Prefix(ws, k) < target) && target <= Prefix(ws, k + 1)
    ensures (exists j :: i <= j && Reaches(ws, target, j)) ==>
              i <= k && Reaches(ws, target, k) && forall j :: i <= j < k ==> !Reaches(ws, target, j)
    ensures (forall j :: i <= j ==> !Reaches(ws, target, j)) ==> k == 0
    decreases |ws| - i
  {
    if i == |ws| then 0
    else if target <= Prefix(ws, i + 1) then
      assert Reaches(ws, target, i);
      i
    else
      assert !Reaches(ws, target, i);
      SampleIndex(ws, target, i + 1)
  }

  /** `selectMoveFromPolicy`: weight move `i` by `exp(probs[i mod |probs|] / 0.5)`, scale the
      uniform draw `u` in [0, 1) to the total weight, and take the first move whose running total
      reaches it, or move 0 when none does. The source divides by zero for an empty `probs`. */
  function SelectMoveFromPolicy(moves: seq<AIMove>, probs: seq<real>, u: real, exp: real -> real)
    : (r: Option<AIMove>)
    requires |probs| > 0
    ensures r.None? <==> moves == []
    ensures r.Some? ==> r.value in moves
    ensures var ws := PolicyWeights(|moves|, probs, exp);
            var t := Draw(ws, u);
            (exists j :: Reaches(ws, t, j)) ==>
              exists k :: 0 <= k < |moves| && r == Some(moves[k]) && Reaches(ws, t, k)
                          && forall j :: 0 <= j < k ==> !Reaches(ws, t, j)
    ensures var ws := PolicyWeights(|moves|, probs, exp);
            var t := Draw(ws, u);
            moves != [] && (forall j :: !Reaches(ws, t, j)) ==> r == Some(moves[0])
  {
    if moves == [] then None
    else
      var ws := PolicyWeights(|moves|, probs, exp);
      SampleFirst(moves, ws, Draw(ws, u));
      Some(moves[SampleIndex(ws, Draw(ws, u), 0)])
  }

  /** The uniform draw scaled to the total weight. */
  function Draw(ws: seq<real>, u: real): real {
    u * Prefix(ws, |ws|)
  }

  /** The move sampled from index 0 is the one at the first index whose running total reaches the
      target, or move 0 when none does. */
  lemma SampleFirst(moves: seq<AIMove>, ws: seq<real>, t: real)
    requires moves != [] && |ws| == |moves|
    ensures (exists j :: Reaches(ws, t, j)) ==>
              exists k :: 0 <= k < |moves| && Some(moves[SampleIndex(ws, t, 0)]) == Some(moves[k])
                          && Reaches(ws, t, k) && forall j :: 0 <= j < k ==> !Reaches(ws, t, j)
    ensures (forall j :: !Reaches(ws, t, j)) ==> Some(moves[SampleIndex(ws, t, 0)]) == Some(moves[0])
  {
    var k := SampleIndex(ws, t, 0);
    if exists j :: Reaches(ws, t, j) {
      assert Reaches(ws, t, k) && forall j :: 0 <= j < k ==> !Reaches(ws, t, j);
    }
  }

  /** The weight of move `i`: `exp(probs[i mod |probs|] / 0.5)`. */
  function PolicyWeights(n: nat, probs: seq<real>, exp: real -> real): (ws: seq<real>)
    requires |probs| > 0
    ensures |ws| == n && forall i :: 0 <= i < n ==> ws[i] == exp(probs[i % |probs|] / 0.5)
  {
    seq(n, i requires 0 <= i < n => exp(probs[i % |probs|] / 0.5))
  }

  /** With positive weights and a draw in [0, 1) the sample is index `k` exactly when the draw
      falls in `k`'s share of the running total. */
  lemma SampleIsInverseCdf(ws: seq<real>, u: real)
    requires ws != [] && forall i :: 0 <= i < |ws| ==> ws[i] > 0.0
    requires 0.0 <= u < 1.0
    ensures var k := SampleIndex(ws, u * Prefix(ws, |ws|), 0);
            Prefix(ws, k) <= u * Prefix(ws, |ws|) <= Prefix(ws, k + 1)
  {
    PrefixPositive(ws, |ws|);
    var t := ScaledBelow(u, Prefix(ws, |ws|));
    SampleBracket(ws, t);
    assert t == u * Prefix(ws, |ws|);
    var k := SampleIndex(ws, t, 0);
    assert k == SampleIndex(ws, u * Prefix(ws, |ws|), 0);
    assert Prefix(ws, k) <= t;
  }

  /** For a target inside [0, total) the sampled index brackets the target. */
  lemma SampleBracket(ws: seq<real>, t: real)
    requires ws != [] && 0.0 <= t < Prefix(ws, |ws|)
    ensures var k := SampleIndex(ws, t, 0);
            Prefix(ws, k) <= t <= Prefix(ws, k + 1)
  {
    var k := SampleIndex(ws, t, 0);
    if k == 0 {
      assert Prefix(ws, 0) == 0.0;
    }
  }

  /** A draw in [0, 1) scales a positive total to a point inside [0, total). */
  lemma ScaledBelow(u: real, total: real) returns (t: real)
    requires 0.0 <= u < 1.0 && total > 0.0
    ensures t == u * total && 0.0 <= t < total
  {
    t := u * total;
    assert total - t == (1.0 - u) * total;
  }

  lemma {:induction false} PrefixPositive(ws: seq<real>, n: nat)
    requires n <= |ws| && forall i :: 0 <= i < |ws| ==> ws[i] > 0.0
    ensures Prefix(ws, n) >= 0.0 && (n > 0 ==> Prefix(ws, n) > 0.0)
  {
    if n > 0 {
      PrefixPositive(ws, n - 1);
    }
  }

  /** `getBlendedMove`: the tree-search move when the coin is below 0.7 and the search found one,
      otherwise a sample from the policy network's output. */
  function BlendedMove(moves: seq<AIMove>, probs: seq<real>, mcts: Option<AIMove>, coin: real,
                       u: real, exp: real -> real): (r: Option<AIMove>)
    requires |probs| > 0
    ensures coin < 0.7 && mcts.Some? ==> r == mcts
    ensures !(coin < 0.7 && mcts.Some?) ==> (r.None? <==> moves == []) && (r.Some? ==> r.value in moves)
  {
    if coin < 0.7 && mcts.Some? then mcts else SelectMoveFromPolicy(moves, probs, u, exp)
  }

  /** `getBestMove`: no move when there is no legal move; the heuristic before turn 4, the blend
      (with a 100-iteration search) before turn 12, a 200-iteration search after. The outcomes of
      the calls the model cannot see are parameters: `probs` is the policy network's output on
      `EncodeGameState(s, aiColor)`; `mcts100` is the tree search's answer for the player to move
      with 100 iterations and `mcts200` its answer for `aiColor` with 200; `coin` is the
      `Math.random()` draw of the blend, `u` the draw of the policy sampler and `pick` the index
      the early-game heuristic draws. */
  function GetBestMove(s: GameState, aiColor: Color, probs: seq<real>, mcts100: Option<AIMove>,
                       mcts200: Option<AIMove>, coin: real, pick: nat, u: real, exp: real -> real)
    : (r: Option<AIMove>)
    requires NoEmptyStacks(s.board) && |probs| > 0
    requires GenerateLegalMoves(s, aiColor) != [] ==> pick < |GenerateLegalMoves(s, aiColor)|
    ensures GenerateLegalMoves(s, aiColor) == [] ==> r.None?
    ensures s.turnCount < 4 ==> (r.Some? <==> GenerateLegalMoves(s, aiColor) != [])
    ensures s.turnCount < 4 && r.Some? ==> IsLegal(s, aiColor, r.value)
    ensures GenerateLegalMoves(s, aiColor) != [] && 4 <= s.turnCount < 12 ==>
              r == BlendedMove(GenerateLegalMoves(s, aiColor), probs, mcts100, coin, u, exp)
    ensures GenerateLegalMoves(s, aiColor) != [] && 4 <= s.turnCount < 12 && coin < 0.7 && mcts100.Some? ==>
              r == mcts100
    ensures GenerateLegalMoves(s, aiColor) != [] && 4 <= s.turnCount < 12 && !(coin < 0.7 && mcts100.Some?) ==>
              r.Some? && IsLegal(s, aiColor, r.value)
    ensures GenerateLegalMoves(s, aiColor) != [] && s.turnCount >= 12 ==> r == mcts200
  {
    var legal := GenerateLegalMoves(s, aiColor);
    if legal == [] then None
    else if s.turnCount < 4 then
      var r := EarlyGameMove(s, legal, pick);
      GeneratedExactlyLegal(s, aiColor, r.value);
      r
    else if s.turnCount < 12 then
      var r := BlendedMove(legal, probs, mcts100, coin, u, exp);
      if !(coin < 0.7 && mcts100.Some?) then
        GeneratedExactlyLegal(s, aiColor, r.value);
        r
      else r
    else mcts200
  }
}
