/** Axial hexagonal coordinates (HexCoord): equality, adjacency and a fixed iteration order. */
module Hex {

  /** A cell of the axial grid; datatype equality is component-wise, as in `HexCoord.equals`. */
  datatype Coord = Coord(q: int, r: int)

  /** The six axial unit offsets, in the order `getNeighbors` lists them. */
  const Directions: seq<Coord> :=
    [Coord(1, 0), Coord(-1, 0), Coord(0, 1), Coord(0, -1), Coord(1, -1), Coord(-1, 1)]

  function Add(a: Coord, d: Coord): Coord {
    Coord(a.q + d.q, a.r + d.r)
  }

  /** `HexCoord.getNeighbors`: the six cells around `c`. */
  function Neighbors(c: Coord): (ns: seq<Coord>)
    ensures |ns| == 6
  {
    [Coord(c.q + 1, c.r), Coord(c.q - 1, c.r), Coord(c.q, c.r + 1),
     Coord(c.q, c.r - 1), Coord(c.q + 1, c.r - 1), Coord(c.q - 1, c.r + 1)]
  }

  /** `b` is one of the six neighbours of `a`. */
  predicate Adjacent(a: Coord, b: Coord) {
    b in Neighbors(a)
  }

  /** An adjacency test that does not go through the neighbour list: the offset is a unit axial direction. */
  predicate UnitOffset(a: Coord, b: Coord) {
    var dq, dr := b.q - a.q, b.r - a.r;
    (dq == 1 && dr == 0) || (dq == -1 && dr == 0) || (dq == 0 && dr == 1) ||
    (dq == 0 && dr == -1) || (dq == 1 && dr == -1) || (dq == -1 && dr == 1)
  }

  lemma EqualsComponentwise(a: Coord, b: Coord)
    ensures a == b <==> a.q == b.q && a.r == b.r
  {
  }

  /** Every listed neighbour is the cell shifted by the direction of the same index. */
  lemma NeighborsAreDirections(c: Coord)
    ensures forall i :: 0 <= i < 6 ==> Neighbors(c)[i] == Add(c, Directions[i])
  {
  }

  lemma AdjacentIffUnitOffset(a: Coord, b: Coord)
    ensures Adjacent(a, b) <==> UnitOffset(a, b)
  {
  }

  /** The six neighbours are pairwise distinct and none is the cell itself. */
  lemma NeighborsDistinct(c: Coord)
    ensures forall i, j :: 0 <= i < j < 6 ==> Neighbors(c)[i] != Neighbors(c)[j]
    ensures c !in Neighbors(c)
  {
  }

  /** Adjacency is symmetric. */
  lemma AdjacentSymmetric(a: Coord, b: Coord)
    ensures Adjacent(a, b) <==> Adjacent(b, a)
  {
    AdjacentIffUnitOffset(a, b);
    AdjacentIffUnitOffset(b, a);
  }

  /** `commonNeighbors` in MovementValidator: `a`'s neighbour list after `retainAll` of `b`'s
      neighbours, so in `a`'s order. */
  function CommonNeighbors(a: Coord, b: Coord): (cs: seq<Coord>)
    ensures forall x :: x in cs <==> Adjacent(a, x) && Adjacent(b, x)
    ensures |cs| <= 6
  {
    var ns, keep := Neighbors(a), Neighbors(b);
    KeepIf(ns[0], keep) + KeepIf(ns[1], keep) + KeepIf(ns[2], keep) +
    KeepIf(ns[3], keep) + KeepIf(ns[4], keep) + KeepIf(ns[5], keep)
  }

  function KeepIf(x: Coord, keep: seq<Coord>): seq<Coord> {
    if x in keep then [x] else []
  }

  /** Two adjacent cells have exactly two common neighbours (the "gate" cells), and they differ. */
  lemma AdjacentCellsShareTwoNeighbors(a: Coord, b: Coord)
    requires Adjacent(a, b)
    ensures |CommonNeighbors(a, b)| == 2
    ensures CommonNeighbors(a, b)[0] != CommonNeighbors(a, b)[1]
    ensures a !in CommonNeighbors(a, b) && b !in CommonNeighbors(a, b)
  {
    Gates(a, b);
  }

  lemma Gates(a: Coord, b: Coord)
    requires Adjacent(a, b)
    ensures GateFacts(a, b)
  {
    var i :| 0 <= i < 6 && Neighbors(a)[i] == b;
    var q, r := a.q, a.r;
    if i == 0 {
      assert b == Coord(q + 1, r);
      GatesEast(a);
    } else if i == 1 {
      assert b == Coord(q - 1, r);
      GatesWest(a);
    } else if i == 2 {
      assert b == Coord(q, r + 1);
      GatesSouth(a);
    } else if i == 3 {
      assert b == Coord(q, r - 1);
      GatesNorth(a);
    } else if i == 4 {
      assert b == Coord(q + 1, r - 1);
      GatesNorthEast(a);
    } else {
      assert b == Coord(q - 1, r + 1);
      GatesSouthWest(a);
    }
  }

  /** The three facts `AdjacentCellsShareTwoNeighbors` states, for one pair of cells. */
  predicate GateFacts(a: Coord, b: Coord) {
    && |CommonNeighbors(a, b)| == 2
    && CommonNeighbors(a, b)[0] != CommonNeighbors(a, b)[1]
    && a !in CommonNeighbors(a, b) && b !in CommonNeighbors(a, b)
  }

  lemma GatesEast(a: Coord)
    ensures var q, r := a.q, a.r; GateFacts(a, Coord(q + 1, r))
  {
    var q, r := a.q, a.r;
    var ns, keep := Neighbors(a), Neighbors(Coord(q + 1, r));
    assert KeepIf(ns[0], keep) == [];
    assert KeepIf(ns[1], keep) == [];
    assert KeepIf(ns[2], keep) == [ns[2]];
    assert KeepIf(ns[3], keep) == [];
    assert KeepIf(ns[4], keep) == [ns[4]];
    assert KeepIf(ns[5], keep) == [];
    assert CommonNeighbors(a, Coord(q + 1, r))[0] != CommonNeighbors(a, Coord(q + 1, r))[1];
  }

  lemma GatesWest(a: Coord)
    ensures var q, r := a.q, a.r; GateFacts(a, Coord(q - 1, r))
  {
    var q, r := a.q, a.r;
    var ns, keep := Neighbors(a), Neighbors(Coord(q - 1, r));
    assert KeepIf(ns[0], keep) == [];
    assert KeepIf(ns[1], keep) == [];
    assert KeepIf(ns[2], keep) == [];
    assert KeepIf(ns[3], keep) == [ns[3]];
    assert KeepIf(ns[4], keep) == [];
    assert KeepIf(ns[5], keep) == [ns[5]];
    assert CommonNeighbors(a, Coord(q - 1, r))[0] != CommonNeighbors(a, Coord(q - 1, r))[1];
  }

  lemma GatesSouth(a: Coord)
    ensures var q, r := a.q, a.r; GateFacts(a, Coord(q, r + 1))
  {
    var q, r := a.q, a.r;
    var ns, keep := Neighbors(a), Neighbors(Coord(q, r + 1));
    assert KeepIf(ns[0], keep) == [ns[0]];
    assert KeepIf(ns[1], keep) == [];
    assert KeepIf(ns[2], keep) == [];
    assert KeepIf(ns[3], keep) == [];
    assert KeepIf(ns[4], keep) == [];
    assert KeepIf(ns[5], keep) == [ns[5]];
    assert CommonNeighbors(a, Coord(q, r + 1))[0] != CommonNeighbors(a, Coord(q, r + 1))[1];
  }

  lemma GatesNorth(a: Coord)
    ensures var q, r := a.q, a.r; GateFacts(a, Coord(q, r - 1))
  {
    var q, r := a.q, a.r;
    var ns, keep := Neighbors(a), Neighbors(Coord(q, r - 1));
    assert KeepIf(ns[0], keep) == [];
    assert KeepIf(ns[1], keep) == [ns[1]];
    assert KeepIf(ns[2], keep) == [];
    assert KeepIf(ns[3], keep) == [];
    assert KeepIf(ns[4], keep) == [ns[4]];
    assert KeepIf(ns[5], keep) == [];
    assert CommonNeighbors(a, Coord(q, r - 1))[0] != CommonNeighbors(a, Coord(q, r - 1))[1];
  }

  lemma GatesNorthEast(a: Coord)
    ensures var q, r := a.q, a.r; GateFacts(a, Coord(q + 1, r - 1))
  {
    var q, r := a.q, a.r;
    var ns, keep := Neighbors(a), Neighbors(Coord(q + 1, r - 1));
    assert KeepIf(ns[0], keep) == [ns[0]];
    assert KeepIf(ns[1], keep) == [];
    assert KeepIf(ns[2], keep) == [];
    assert KeepIf(ns[3], keep) == [ns[3]];
    assert KeepIf(ns[4], keep) == [];
    assert KeepIf(ns[5], keep) == [];
    assert CommonNeighbors(a, Coord(q + 1, r - 1))[0] != CommonNeighbors(a, Coord(q + 1, r - 1))[1];
  }

  lemma GatesSouthWest(a: Coord)
    ensures var q, r := a.q, a.r; GateFacts(a, Coord(q - 1, r + 1))
  {
    var q, r := a.q, a.r;
    var ns, keep := Neighbors(a), Neighbors(Coord(q - 1, r + 1));
    assert KeepIf(ns[0], keep) == [];
    assert KeepIf(ns[1], keep) == [ns[1]];
    assert KeepIf(ns[2], keep) == [ns[2]];
    assert KeepIf(ns[3], keep) == [];
    assert KeepIf(ns[4], keep) == [];
    assert KeepIf(ns[5], keep) == [];
    assert CommonNeighbors(a, Coord(q - 1, r + 1))[0] != CommonNeighbors(a, Coord(q - 1, r + 1))[1];
  }

  /** Lexicographic order on (q, r); stands in for the unspecified HashMap iteration order. */
  predicate LexLe(a: Coord, b: Coord) {
    a.q < b.q || (a.q == b.q && a.r <= b.r)
  }

  predicate IsLeast(m: Coord, s: set<Coord>) {
    m in s && forall x :: x in s ==> LexLe(m, x)
  }

  lemma {:induction false} LeastExists(s: set<Coord>)
    requires s != {}
    ensures exists m :: IsLeast(m, s)
    decreases s
  {
    var x :| x in s;
    if s - {x} == {} {
      assert s == {x};
      assert IsLeast(x, s);
    } else {
      LeastExists(s - {x});
      var m :| IsLeast(m, s - {x});
      if LexLe(m, x) {
        assert IsLeast(m, s);
      } else {
        assert LexLe(x, m);
        forall y | y in s
          ensures LexLe(x, y)
        {
          if y != x {
            assert LexLe(m, y);
          }
        }
        assert IsLeast(x, s);
      }
    }
  }

  /** The lexicographically least cell of a non-empty set. */
  function Least(s: set<Coord>): (m: Coord)
    requires s != {}
    ensures IsLeast(m, s)
  {
    LeastExists(s);
    var m :| IsLeast(m, s);
    m
  }

  /** The iteration order over a set of cells: ascending lexicographic order. */
  function Enumerate(s: set<Coord>): (xs: seq<Coord>)
    ensures |xs| == |s|
    ensures forall x :: x in xs <==> x in s
    ensures forall i, j :: 0 <= i < j < |xs| ==> xs[i] != xs[j]
    ensures s != {} ==> xs[0] == Least(s)
    decreases s
  {
    if s == {} then []
    else
      var m := Least(s);
      [m] + Enumerate(s - {m})
  }
}
