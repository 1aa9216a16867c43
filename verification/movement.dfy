/** MovementValidator: the one-hive rule and the two sliding tests. */
module Movement {
  import opened Wrappers
  import opened Hex
  import opened Boards
  import opened Connectivity

  /** `breaksHive`: lifting the single piece at `from` disconnects the rest. A stacked piece never
      breaks the hive, and `to` plays no part. Java reads the stack at `from`, so it must be there. */
  function BreaksHive(b: Board, from: Coord, to: Coord): (breaks: bool)
    requires from in b
    ensures |b[from]| > 1 ==> !breaks
    ensures |b[from]| <= 1 ==> (breaks <==> !Connected(b - {from}))
  {
    if |b[from]| > 1 then false else !IsHiveConnected(b - {from})
  }

  /** `canSlideToBasic`: refuses a destination holding exactly one piece; otherwise needs an
      occupied common neighbour of `from` and `to` and an occupied neighbour of `to`. */
  function CanSlideToBasic(b: Board, from: Coord, to: Coord): (ok: bool)
    ensures ok <==> !(to in b && |b[to]| == 1)
                    && (exists g :: Adjacent(from, g) && Adjacent(to, g) && g in b)
                    && (exists n :: Adjacent(to, n) && n in b)
  {
    if to in b && |b[to]| == 1 then false
    else AnyOccupied(b, CommonNeighbors(from, to), None) && HasAdjacentPiece(b, to)
  }

  /** The blocking cells of a slide from `from` to `to`: occupied cells adjacent to both, the
      travelling piece's own starting cell `start` not counted. */
  function GateSet(b: Board, start: Coord, from: Coord, to: Coord): set<Coord> {
    set g | g in Neighbors(from) && Adjacent(to, g) && g in b && g != start
  }

  /** The counting loop of `canSlideTo` over a list of candidate gates. */
  function CountBlocked(b: Board, cs: seq<Coord>, start: Coord): (k: nat)
    ensures k <= |cs|
  {
    if cs == [] then 0
    else (if cs[0] in b && cs[0] != start then 1 else 0) + CountBlocked(b, cs[1..], start)
  }

  /** `canSlideTo`: a step of a walking piece that started at `start` (and is lifted off it). The
      destination must be free and not `start`, exactly one gate must be blocked, and the
      destination must touch some piece other than the one at `start`. */
  function CanSlideTo(b: Board, start: Coord, from: Coord, to: Coord): (ok: bool)
    ensures ok <==> to != start && to !in b && |GateSet(b, start, from, to)| == 1
                    && (exists n :: Adjacent(to, n) && n in b && n != start)
  {
    if to == start then false
    else if to in b then false
    else
      var blocked := CountBlocked(b, CommonNeighbors(from, to), start);
      BlockedIsGateCount(b, start, from, to);
      blocked > 0 && blocked < 2 && HasAdjacentPieceExcluding(b, to, start)
  }

  lemma {:induction false} CountBlockedAppend(b: Board, xs: seq<Coord>, ys: seq<Coord>, start: Coord)
    ensures CountBlocked(b, xs + ys, start) == CountBlocked(b, xs, start) + CountBlocked(b, ys, start)
  {
    if xs != [] {
      assert (xs + ys)[1..] == xs[1..] + ys;
      CountBlockedAppend(b, xs[1..], ys, start);
    } else {
      assert xs + ys == ys;
    }
  }

  /** 1 when `x` is a blocking gate for a step onto `to`, else 0. */
  function Hit(b: Board, x: Coord, to: Coord, start: Coord): nat {
    if Adjacent(to, x) && x in b && x != start then 1 else 0
  }

  /** Count of the cells of `ns` that are adjacent to `to`, occupied and not `start`. */
  function CountFiltered(b: Board, ns: seq<Coord>, to: Coord, start: Coord): nat {
    if ns == [] then 0 else Hit(b, ns[0], to, start) + CountFiltered(b, ns[1..], to, start)
  }

  lemma {:induction false} FilteredCard(b: Board, ns: seq<Coord>, to: Coord, start: Coord)
    requires forall i, j :: 0 <= i < j < |ns| ==> ns[i] != ns[j]
    ensures CountFiltered(b, ns, to, start)
            == |set g | g in ns && Adjacent(to, g) && g in b && g != start|
  {
    var s := set g | g in ns && Adjacent(to, g) && g in b && g != start;
    if ns != [] {
      var tl := ns[1..];
      var t := set g | g in tl && Adjacent(to, g) && g in b && g != start;
      FilteredCard(b, tl, to, start);
      assert ns[0] !in tl by {
        forall j | 0 <= j < |tl| ensures tl[j] != ns[0] {
          assert tl[j] == ns[j + 1];
        }
      }
      if Adjacent(to, ns[0]) && ns[0] in b && ns[0] != start {
        assert s == t + {ns[0]};
      } else {
        assert s == t;
      }
    } else {
      assert s == {};
    }
  }

  lemma CountFilteredSix(b: Board, ns: seq<Coord>, to: Coord, start: Coord)
    requires |ns| == 6
    ensures CountFiltered(b, ns, to, start)
            == Hit(b, ns[0], to, start) + Hit(b, ns[1], to, start) + Hit(b, ns[2], to, start)
             + Hit(b, ns[3], to, start) + Hit(b, ns[4], to, start) + Hit(b, ns[5], to, start)
  {
    forall k | 0 <= k < 6
      ensures CountFiltered(b, ns[k..], to, start)
              == Hit(b, ns[k], to, start) + CountFiltered(b, ns[k + 1..], to, start)
    {
      assert ns[k..][1..] == ns[k + 1..];
    }
    assert ns[6..] == [];
    assert ns[0..] == ns;
  }

  lemma KeepIfHit(b: Board, x: Coord, to: Coord, start: Coord)
    ensures CountBlocked(b, KeepIf(x, Neighbors(to)), start) == Hit(b, x, to, start)
  {
  }

  /** The Java count over the retained common-neighbour list is the number of gates. */
  lemma BlockedIsGateCount(b: Board, start: Coord, from: Coord, to: Coord)
    ensures CountBlocked(b, CommonNeighbors(from, to), start) == |GateSet(b, start, from, to)|
  {
    var ns := Neighbors(from);
    var keep := Neighbors(to);
    var p0, p1, p2 := KeepIf(ns[0], keep), KeepIf(ns[1], keep), KeepIf(ns[2], keep);
    var p3, p4, p5 := KeepIf(ns[3], keep), KeepIf(ns[4], keep), KeepIf(ns[5], keep);
    assert CommonNeighbors(from, to) == p0 + p1 + p2 + p3 + p4 + p5;
    CountBlockedAppend(b, p0 + p1 + p2 + p3 + p4, p5, start);
    CountBlockedAppend(b, p0 + p1 + p2 + p3, p4, start);
    CountBlockedAppend(b, p0 + p1 + p2, p3, start);
    CountBlockedAppend(b, p0 + p1, p2, start);
    CountBlockedAppend(b, p0, p1, start);
    KeepIfHit(b, ns[0], to, start);
    KeepIfHit(b, ns[1], to, start);
    KeepIfHit(b, ns[2], to, start);
    KeepIfHit(b, ns[3], to, start);
    KeepIfHit(b, ns[4], to, start);
    KeepIfHit(b, ns[5], to, start);
    CountFilteredSix(b, ns, to, start);
    NeighborsDistinct(from);
    FilteredCard(b, ns, to, start);
  }
}
