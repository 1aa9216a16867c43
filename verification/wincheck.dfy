/** WinConditionChecker.checkWin and its copy in the tree search: a queen whose six neighbours
    are all occupied loses the game. */
module WinCheck {
  import opened Wrappers
  import opened Hex
  import opened Pieces
  import opened Boards

  datatype Outcome = Draw | BlackWins | WhiteWins

  /** The result strings of `checkWin` (`None` is the source's `null`: the game goes on). */
  function Message(o: Outcome): string {
    match o
    case Draw => "Draw! Both Queens surrounded!"
    case BlackWins => "Black wins! White Queen surrounded!"
    case WhiteWins => "White wins! Black Queen surrounded!"
  }

  /** The bottom piece of the stack at `c` is a queen of colour `color` and all six neighbours of
      `c` are occupied. A beetle on top of the queen does not hide her. */
  ghost predicate SurroundedQueenAt(b: Board, c: Coord, color: Color) {
    c in b && |b[c]| > 0 && b[c][0].kind == Queen && b[c][0].color == color
    && forall n :: Adjacent(c, n) ==> n in b
  }

  ghost predicate QueenSurrounded(b: Board, color: Color) {
    exists c :: SurroundedQueenAt(b, c, color)
  }

  /** The scan over the board's cells: which colours have a surrounded queen among `cells`.
      Stacks that are empty are skipped, as the tree search's copy does. */
  function ScanQueens(b: Board, cells: seq<Coord>): (flags: (bool, bool))
    ensures flags.0 <==> exists c :: c in cells && SurroundedQueenAt(b, c, White)
    ensures flags.1 <==> exists c :: c in cells && SurroundedQueenAt(b, c, Black)
  {
    if cells == [] then (false, false)
    else
      var rest := ScanQueens(b, cells[1..]);
      var c := cells[0];
      assert forall x :: x in cells <==> x == c || x in cells[1..];
      if c in b && |b[c]| > 0 && b[c][0].kind == Queen && OccupiedNeighborCount(b, c) == 6 then
        assert SurroundedQueenAt(b, c, b[c][0].color);
        if b[c][0].color == White then (true, rest.1) else (rest.0, true)
      else rest
  }

  /** `checkWin`: both queens surrounded is a draw, otherwise the owner of the surrounded queen
      loses. The source reads `get(0)` of every stack, so the board must have no empty stacks. */
  function CheckWin(b: Board): (o: Option<Outcome>)
    requires NoEmptyStacks(b)
    ensures o == Some(Draw) <==> QueenSurrounded(b, White) && QueenSurrounded(b, Black)
    ensures o == Some(BlackWins) <==> QueenSurrounded(b, White) && !QueenSurrounded(b, Black)
    ensures o == Some(WhiteWins) <==> QueenSurrounded(b, Black) && !QueenSurrounded(b, White)
    ensures o == None <==> !QueenSurrounded(b, White) && !QueenSurrounded(b, Black)
  {
    SearchOrderIrrelevant(b);
    Decide(ScanQueens(b, Enumerate(b.Keys)))
  }

  /** `MCTSEngine.checkWinCondition`: the same scan with empty stacks skipped. */
  function SearchWinCondition(b: Board): (o: Option<Outcome>)
    ensures o == None <==> !QueenSurrounded(b, White) && !QueenSurrounded(b, Black)
    ensures NoEmptyStacks(b) ==> o == CheckWin(b)
  {
    SearchOrderIrrelevant(b);
    Decide(ScanQueens(b, Enumerate(b.Keys)))
  }

  function Decide(flags: (bool, bool)): Option<Outcome> {
    if flags.0 && flags.1 then Some(Draw)
    else if flags.0 then Some(BlackWins)
    else if flags.1 then Some(WhiteWins)
    else None
  }

  /** Scanning the cells in any order visits every occupied cell. */
  lemma SearchOrderIrrelevant(b: Board)
    ensures forall color: Color :: QueenSurrounded(b, color) <==>
              exists c :: c in Enumerate(b.Keys) && SurroundedQueenAt(b, c, color)
  {
  }
}
