/** HiveBoard: a finite map from cells to stacks of pieces (last element = top). */
module Boards {
  import opened Wrappers
  import opened Hex
  import opened Pieces

  type Board = map<Coord, seq<Piece>>

  /** The board invariant: no cell maps to an empty stack. */
  predicate NoEmptyStacks(b: Board) {
    forall c :: c in b ==> |b[c]| > 0
  }

  /** `getStackAt` with an absent cell read as the empty stack. */
  function StackAt(b: Board, c: Coord): seq<Piece> {
    if c in b then b[c] else []
  }

  /** `isEmpty`: no occupied cell. */
  predicate IsEmpty(b: Board) {
    |b| == 0
  }

  /** `getTopPieceAt`: the last piece of the stack, or `None` (null) for an absent or empty stack. */
  function TopPieceAt(b: Board, c: Coord): (top: Option<Piece>)
    ensures top.Some? <==> c in b && |b[c]| > 0
    ensures top.Some? ==> top.value in b[c]
  {
    if c !in b || |b[c]| == 0 then None else Some(b[c][|b[c]| - 1])
  }

  /** `placePiece`: push the piece (with its position set) on the cell's stack, creating it if absent. */
  function PlacePiece(b: Board, p: Piece, c: Coord): (b': Board)
    ensures b'.Keys == b.Keys + {c}
    ensures b'[c] == StackAt(b, c) + [SetPosition(p, c)]
    ensures forall x :: x in b && x != c ==> b'[x] == b[x]
  {
    b[c := StackAt(b, c) + [SetPosition(p, c)]]
  }

  /** `movePiece`: pop the top of `from` (dropping the key if the stack empties) and push it on `to`.
      Java throws when `from` holds no stack (`None`). */
  function MovePiece(b: Board, from: Coord, to: Coord): (r: Option<Board>)
    ensures r.None? <==> from !in b || |b[from]| == 0
  {
    if from !in b || |b[from]| == 0 then None
    else
      var stack := b[from];
      var piece := stack[|stack| - 1];
      var rest := stack[..|stack| - 1];
      var lifted := if rest == [] then b - {from} else b[from := rest];
      Some(PlacePiece(lifted, piece, to))
  }

  /** Sum of the stack heights over a set of cells. */
  ghost function StackTotal(b: Board, cells: set<Coord>): nat
    requires cells <= b.Keys
    decreases cells
  {
    if cells == {} then 0
    else
      var c :| c in cells;
      |b[c]| + StackTotal(b, cells - {c})
  }

  /** Number of pieces on the board (not cells). */
  ghost function PieceCount(b: Board): nat {
    StackTotal(b, b.Keys)
  }

  lemma {:induction false} StackTotalPick(b: Board, cells: set<Coord>, c: Coord)
    requires cells <= b.Keys && c in cells
    ensures StackTotal(b, cells) == |b[c]| + StackTotal(b, cells - {c})
    decreases cells
  {
    var d :| d in cells && StackTotal(b, cells) == |b[d]| + StackTotal(b, cells - {d});
    if d != c {
      StackTotalPick(b, cells - {d}, c);
      StackTotalPick(b, cells - {c}, d);
      assert cells - {d} - {c} == cells - {c} - {d};
    }
  }

  /** Stack heights agree on `cells`, so the totals agree. */
  lemma {:induction false} StackTotalFrame(b1: Board, b2: Board, cells: set<Coord>)
    requires cells <= b1.Keys && cells <= b2.Keys
    requires forall c :: c in cells ==> |b1[c]| == |b2[c]|
    ensures StackTotal(b1, cells) == StackTotal(b2, cells)
    decreases cells
  {
    if cells != {} {
      var c :| c in cells;
      StackTotalPick(b1, cells, c);
      StackTotalPick(b2, cells, c);
      StackTotalFrame(b1, b2, cells - {c});
    }
  }

  /** Setting one cell's stack changes the piece count by the height difference. */
  lemma UpdateCount(b: Board, c: Coord, s: seq<Piece>)
    ensures PieceCount(b[c := s]) == PieceCount(b) - |StackAt(b, c)| + |s|
  {
    var b' := b[c := s];
    StackTotalPick(b', b'.Keys, c);
    StackTotalFrame(b, b', b.Keys - {c});
    if c in b {
      StackTotalPick(b, b.Keys, c);
      assert b'.Keys - {c} == b.Keys - {c};
    } else {
      assert b'.Keys - {c} == b.Keys;
      assert b.Keys - {c} == b.Keys;
    }
  }

  /** Removing a cell lowers the piece count by its stack height. */
  lemma RemoveCount(b: Board, c: Coord)
    requires c in b
    ensures PieceCount(b - {c}) == PieceCount(b) - |b[c]|
  {
    StackTotalPick(b, b.Keys, c);
    StackTotalFrame(b, b - {c}, b.Keys - {c});
    assert (b - {c}).Keys == b.Keys - {c};
  }

  /** `placePiece` adds exactly one piece, keeps the invariant, and the placed piece is on top. */
  lemma PlacePieceFacts(b: Board, p: Piece, c: Coord)
    ensures PieceCount(PlacePiece(b, p, c)) == PieceCount(b) + 1
    ensures NoEmptyStacks(b) ==> NoEmptyStacks(PlacePiece(b, p, c))
    ensures TopPieceAt(PlacePiece(b, p, c), c) == Some(SetPosition(p, c))
  {
    UpdateCount(b, c, StackAt(b, c) + [SetPosition(p, c)]);
  }

  /** `movePiece` conserves the piece count and the invariant; the old top of `from` is the new top
      of `to`; cells other than `from` and `to` are untouched. */
  lemma MovePieceFacts(b: Board, from: Coord, to: Coord)
    requires from in b && |b[from]| > 0
    ensures var r := MovePiece(b, from, to).value;
      && PieceCount(r) == PieceCount(b)
      && (NoEmptyStacks(b) ==> NoEmptyStacks(r))
      && TopPieceAt(r, to) == Some(SetPosition(TopPieceAt(b, from).value, to))
      && (forall x :: x != from && x != to ==> (x in r <==> x in b) && (x in b ==> r[x] == b[x]))
      && (from != to ==> StackAt(r, from) == b[from][..|b[from]| - 1])
  {
    var stack := b[from];
    var piece := stack[|stack| - 1];
    var rest := stack[..|stack| - 1];
    var lifted := if rest == [] then b - {from} else b[from := rest];
    if rest == [] {
      RemoveCount(b, from);
    } else {
      UpdateCount(b, from, rest);
    }
    assert PieceCount(lifted) == PieceCount(b) - 1;
    PlacePieceFacts(lifted, piece, to);
  }

  /** With no empty stacks there are at least as many pieces as occupied cells. */
  lemma {:induction false} CellsAtMostPieces(b: Board, cells: set<Coord>)
    requires NoEmptyStacks(b) && cells <= b.Keys
    ensures |cells| <= StackTotal(b, cells)
    decreases cells
  {
    if cells != {} {
      var c :| c in cells;
      StackTotalPick(b, cells, c);
      CellsAtMostPieces(b, cells - {c});
    }
  }

  /** `size` counts cells, not pieces: a stacked cell makes it strictly smaller than the piece count. */
  lemma SizeCountsCells(b: Board, c: Coord)
    requires NoEmptyStacks(b) && c in b && |b[c]| >= 2
    ensures |b| < PieceCount(b)
  {
    StackTotalPick(b, b.Keys, c);
    CellsAtMostPieces(b, b.Keys - {c});
    assert |b.Keys - {c}| == |b| - 1;
  }

  /** The `hasAdjacentPiece` loop: some cell of `ns` other than `exclude` is occupied. */
  function AnyOccupied(b: Board, ns: seq<Coord>, exclude: Option<Coord>): (found: bool)
    ensures found <==> exists n :: n in ns && n in b && exclude != Some(n)
  {
    if ns == [] then false
    else if exclude != Some(ns[0]) && ns[0] in b then true
    else AnyOccupied(b, ns[1..], exclude)
  }

  /** `hasAdjacentPiece`: some neighbour of `c` is occupied. */
  function HasAdjacentPiece(b: Board, c: Coord): (found: bool)
    ensures found <==> exists n :: Adjacent(c, n) && n in b
  {
    AnyOccupied(b, Neighbors(c), None)
  }

  /** `hasAdjacentPieceExcluding`: some neighbour of `c` other than `exclude` is occupied. */
  function HasAdjacentPieceExcluding(b: Board, c: Coord, exclude: Coord): (found: bool)
    ensures found <==> exists n :: Adjacent(c, n) && n in b && n != exclude
  {
    AnyOccupied(b, Neighbors(c), Some(exclude))
  }

  /** How many cells of `ns` are occupied (the neighbour-counting loops). */
  function OccupiedCount(b: Board, ns: seq<Coord>): (k: nat)
    ensures k <= |ns|
    ensures k == |ns| <==> forall n :: n in ns ==> n in b
  {
    if ns == [] then 0
    else (if ns[0] in b then 1 else 0) + OccupiedCount(b, ns[1..])
  }

  /** Number of occupied neighbours of `c`; six means every neighbour is occupied. */
  function OccupiedNeighborCount(b: Board, c: Coord): (k: nat)
    ensures k <= 6
    ensures k == 6 <==> forall n :: Adjacent(c, n) ==> n in b
  {
    OccupiedCount(b, Neighbors(c))
  }
}
