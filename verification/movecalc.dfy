/** MoveCalculator: the destinations of a piece already on the board, one routine per kind. */
module MoveCalc {
  import opened Wrappers
  import opened Hex
  import opened Pieces
  import opened Boards
  import opened Connectivity
  import opened Movement

  predicate Distinct(xs: seq<Coord>) {
    forall i, j :: 0 <= i < j < |xs| ==> xs[i] != xs[j]
  }

  // ---------------------------------------------------------------- queen and beetle

  /** The neighbour filter shared by the queen and the beetle loops: keep a cell when it can be
      reached by a basic slide, or (only when `climb` holds) when it is occupied. */
  function SlideFilter(b: Board, from: Coord, ns: seq<Coord>, climb: bool): (ms: seq<Coord>)
    ensures forall c :: c in ms <==> c in ns && ((climb && c in b) || CanSlideToBasic(b, from, c))
    ensures Distinct(ns) ==> Distinct(ms)
  {
    if ns == [] then []
    else
      var rest := SlideFilter(b, from, ns[1..], climb);
      if (climb && ns[0] in b) || CanSlideToBasic(b, from, ns[0]) then
        [ns[0]] + rest
      else rest
  }

  /** `getQueenMoves`: the neighbours reachable by a basic slide, in neighbour order. */
  function QueenMoves(b: Board, from: Coord): (ms: seq<Coord>)
    ensures forall c :: c in ms <==> Adjacent(from, c) && CanSlideToBasic(b, from, c)
    ensures Distinct(ms) && |ms| <= 6
  {
    NeighborsDistinct(from);
    var ms := SlideFilter(b, from, Neighbors(from), false);
    DistinctBound(ms, Neighbors(from));
    ms
  }

  /** `getBeetleMoves`: every occupied neighbour (climbing) and every neighbour reachable by a
      basic slide. */
  function BeetleMoves(b: Board, from: Coord): (ms: seq<Coord>)
    ensures forall c :: c in ms <==> Adjacent(from, c) && (c in b || CanSlideToBasic(b, from, c))
    ensures Distinct(ms) && |ms| <= 6
  {
    NeighborsDistinct(from);
    var ms := SlideFilter(b, from, Neighbors(from), true);
    DistinctBound(ms, Neighbors(from));
    ms
  }

  /** A distinct list drawn from `ns` is no longer than `ns`. */
  lemma DistinctBound(ms: seq<Coord>, ns: seq<Coord>)
    requires Distinct(ms) && forall c :: c in ms ==> c in ns
    ensures |ms| <= |ns|
  {
    var s, t := SetOf(ms), SetOf(ns);
    assert t == s + (t - s);
    DistinctCard(ms);
    SeqSetCard(ns);
  }

  /** The cells listed in `xs`. */
  function SetOf(xs: seq<Coord>): (s: set<Coord>)
    ensures forall c :: c in s <==> c in xs
  {
    set c | c in xs
  }

  lemma {:induction false} DistinctCard(ms: seq<Coord>)
    requires Distinct(ms)
    ensures |SetOf(ms)| == |ms|
  {
    if ms != [] {
      var tl := ms[1..];
      assert Distinct(tl) by {
        forall i, j | 0 <= i < j < |tl| ensures tl[i] != tl[j] {
          assert tl[i] == ms[i + 1] && tl[j] == ms[j + 1];
        }
      }
      DistinctCard(tl);
      assert ms[0] !in tl by {
        forall j | 0 <= j < |tl| ensures tl[j] != ms[0] {
          assert tl[j] == ms[j + 1];
        }
      }
      assert SetOf(ms) == SetOf(tl) + {ms[0]} by {
        assert ms == [ms[0]] + tl;
      }
    } else {
      assert SetOf(ms) == {};
    }
  }

  lemma {:induction false} SeqSetCard(ns: seq<Coord>)
    ensures |SetOf(ns)| <= |ns|
  {
    if ns != [] {
      var tl := ns[1..];
      SeqSetCard(tl);
      assert SetOf(ns) == SetOf(tl) + {ns[0]} by {
        assert ns == [ns[0]] + tl;
      }
    } else {
      assert SetOf(ns) == {};
    }
  }

  // ---------------------------------------------------------------- grasshopper

  /** The cell `k` steps from `c` in direction `d`. */
  function Scale(c: Coord, d: Coord, k: int): Coord {
    Coord(c.q + k * d.q, c.r + k * d.r)
  }

  /** Position of a cell along direction `d`; a step in direction `d` increases it. */
  function Proj(c: Coord, d: Coord): int {
    c.q * d.q + c.r * d.r
  }

  /** Occupied cells not behind `c` along direction `d`. */
  function Ahead(b: Board, c: Coord, d: Coord): set<Coord> {
    set k | k in b.Keys && Proj(k, d) >= Proj(c, d)
  }

  lemma StepAdvances(c: Coord, d: Coord)
    requires d != Coord(0, 0)
    ensures Proj(Add(c, d), d) > Proj(c, d)
  {
    assert Proj(Add(c, d), d) == Proj(c, d) + d.q * d.q + d.r * d.r;
    assert d.q * d.q > 0 || d.r * d.r > 0;
  }

  lemma ScaleZero(c: Coord, d: Coord)
    ensures Scale(c, d, 0) == c
  {
  }

  lemma ScaleShift(c: Coord, d: Coord, k: int)
    ensures Scale(Add(c, d), d, k) == Scale(c, d, k + 1)
  {
    assert (k + 1) * d.q == k * d.q + d.q;
    assert (k + 1) * d.r == k * d.r + d.r;
  }

  /** The inner `while` of `getGrasshopperMoves`: from `c`, step in direction `d` while the cell is
      occupied. Returns the landing cell and the number of steps taken: the landing cell is free
      and every cell passed over is occupied. */
  function Jump(b: Board, c: Coord, d: Coord): (res: (Coord, nat))
    requires d != Coord(0, 0)
    ensures res.0 == Scale(c, d, res.1) && res.0 !in b
    ensures forall j :: 0 <= j < res.1 ==> Scale(c, d, j) in b
    decreases |Ahead(b, c, d)|
  {
    if c !in b then
      ScaleZero(c, d);
      (c, 0)
    else
      var next := Add(c, d);
      AheadShrinks(b, c, d);
      var rest := Jump(b, next, d);
      JumpPrefix(b, c, d, rest.1);
      (rest.0, rest.1 + 1)
  }

  lemma AheadShrinks(b: Board, c: Coord, d: Coord)
    requires d != Coord(0, 0) && c in b
    ensures |Ahead(b, Add(c, d), d)| < |Ahead(b, c, d)|
  {
    var big, small := Ahead(b, c, d), Ahead(b, Add(c, d), d);
    StepAdvances(c, d);
    assert small <= big;
    assert c in big && c !in small;
    assert big == small + (big - small);
    assert |big - small| >= 1;
  }

  /** Prepending the occupied cell `c` to a run of occupied cells starting at `c + d`. */
  lemma JumpPrefix(b: Board, c: Coord, d: Coord, k: nat)
    requires c in b
    requires forall j :: 0 <= j < k ==> Scale(Add(c, d), d, j) in b
    ensures Scale(Add(c, d), d, k) == Scale(c, d, k + 1)
    ensures forall j :: 0 <= j < k + 1 ==> Scale(c, d, j) in b
  {
    ScaleShift(c, d, k);
    assert Scale(c, d, 0) == c;
    forall j | 1 <= j < k + 1 ensures Scale(c, d, j) in b {
      ScaleShift(c, d, j - 1);
    }
  }

  /** The outer loop of `getGrasshopperMoves` over directions `i..5`: where the first cell in a
      direction is occupied, jump along it. */
  function GrassFrom(b: Board, from: Coord, i: nat): (ms: seq<Coord>)
    requires i <= 6
    ensures |ms| == OccupiedCount(b, Neighbors(from)[i..])
    ensures forall e :: e in ms <==> exists k :: i <= k < 6 && IsLanding(b, from, k, e)
    decreases 6 - i
  {
    NeighborsAreDirections(from);
    if i == 6 then []
    else
      var d := Directions[i];
      var first := Add(from, d);
      var rest := GrassFrom(b, from, i + 1);
      assert Neighbors(from)[i..][1..] == Neighbors(from)[i + 1..];
      if first in b then
        assert IsLanding(b, from, i, Jump(b, first, d).0);
        [Jump(b, first, d).0] + rest
      else rest
  }

  /** `e` is where a jump along direction `i` lands when the first cell that way is occupied. */
  predicate IsLanding(b: Board, from: Coord, i: nat, e: Coord)
    requires i < 6
  {
    Add(from, Directions[i]) in b && e == Jump(b, Add(from, Directions[i]), Directions[i]).0
  }

  /** `getGrasshopperMoves`: one landing cell per occupied neighbour. */
  function GrasshopperMoves(b: Board, from: Coord): (ms: seq<Coord>)
    ensures |ms| == OccupiedNeighborCount(b, from)
    ensures forall e :: e in ms ==> e !in b
  {
    assert Neighbors(from)[0..] == Neighbors(from);
    GrassFrom(b, from, 0)
  }

  /** A straight jump: `e` lies `k >= 2` steps from `from` along direction `i`, every cell strictly
      between is occupied, and `e` is free. */
  ghost predicate StraightJump(b: Board, from: Coord, i: nat, k: int, e: Coord)
    requires i < 6
  {
    k >= 2 && e == Scale(from, Directions[i], k) && e !in b
    && forall j :: 1 <= j < k ==> Scale(from, Directions[i], j) in b
  }

  /** The grasshopper's destinations are exactly the straight jumps over at least one piece. */
  lemma GrasshopperJumpsStraight(b: Board, from: Coord, e: Coord)
    ensures e in GrasshopperMoves(b, from) <==>
            exists i, k :: 0 <= i < 6 && StraightJump(b, from, i, k, e)
  {
    assert Neighbors(from)[0..] == Neighbors(from);
    if e in GrasshopperMoves(b, from) {
      var i :| 0 <= i < 6 && IsLanding(b, from, i, e);
      var d := Directions[i];
      var (landing, m) := Jump(b, Add(from, d), d);
      LandingIsJump(b, from, i, m);
      assert StraightJump(b, from, i, m + 1, e);
    }
    if exists i, k :: 0 <= i < 6 && StraightJump(b, from, i, k, e) {
      var i, k :| 0 <= i < 6 && StraightJump(b, from, i, k, e);
      JumpIsLanding(b, from, i, k, e);
      assert IsLanding(b, from, i, e);
    }
  }

  lemma LandingIsJump(b: Board, from: Coord, i: nat, m: nat)
    requires i < 6
    requires Add(from, Directions[i]) in b
    requires m == Jump(b, Add(from, Directions[i]), Directions[i]).1
    ensures Jump(b, Add(from, Directions[i]), Directions[i]).0 == Scale(from, Directions[i], m + 1)
    ensures forall j :: 1 <= j < m + 1 ==> Scale(from, Directions[i], j) in b
  {
    var d := Directions[i];
    ScaleShift(from, d, m);
    forall j | 1 <= j < m + 1 ensures Scale(from, d, j) in b {
      ScaleShift(from, d, j - 1);
    }
  }

  lemma JumpIsLanding(b: Board, from: Coord, i: nat, k: int, e: Coord)
    requires i < 6 && StraightJump(b, from, i, k, e)
    ensures IsLanding(b, from, i, e)
  {
    var d := Directions[i];
    assert Scale(from, d, 1) == Add(from, d);
    var m := Jump(b, Add(from, d), d).1;
    LandingIsJump(b, from, i, m);
    ScaleShift(from, d, k - 1);
    assert m + 1 == k;
  }

  // ---------------------------------------------------------------- ant

  /** One sliding step of a piece that started at `start`: onto a neighbour, by `canSlideTo`. */
  predicate Step(b: Board, start: Coord, c: Coord, n: Coord) {
    Adjacent(c, n) && CanSlideTo(b, start, c, n)
  }

  /** The cells next to some occupied cell; every slide ends inside it, so the searches terminate. */
  ghost function Zone(b: Board): set<Coord> {
    set k, i | k in b.Keys && 0 <= i < 6 :: Neighbors(k)[i]
  }

  lemma SlideStaysInZone(b: Board, start: Coord, c: Coord, n: Coord)
    requires CanSlideTo(b, start, c, n)
    ensures n in Zone(b)
  {
    var m :| Adjacent(n, m) && m in b && m != start;
    AdjacentSymmetric(n, m);
    var i :| 0 <= i < 6 && Neighbors(m)[i] == n;
  }

  /** The neighbour loop of `getAntMoves` for the polled cell `cur`: the cells of `ns` that are not
      yet visited and can be slid onto, each visited (and enqueued) once. */
  function AntScan(b: Board, start: Coord, cur: Coord, ns: seq<Coord>, visited: set<Coord>)
    : (added: seq<Coord>)
    ensures forall x :: x in added <==> x in ns && x !in visited && CanSlideTo(b, start, cur, x)
    ensures Distinct(added)
  {
    if ns == [] then []
    else if ns[0] !in visited && CanSlideTo(b, start, cur, ns[0]) then
      [ns[0]] + AntScan(b, start, cur, ns[1..], visited + {ns[0]})
    else
      AntScan(b, start, cur, ns[1..], visited)
  }

  /** The cells of `moves` are visited and distinct, and `start` is the only other visited cell. */
  ghost predicate AntBookkeeping(b: Board, start: Coord, visited: set<Coord>, moves: seq<Coord>) {
    && (forall x :: x in visited <==> x == start || x in moves)
    && Distinct(moves) && start !in moves
    && (forall x :: x in moves ==> x !in b)
  }

  lemma ZoneShrinks(b: Board, visited: set<Coord>, x: Coord, added: set<Coord>)
    requires x in Zone(b) && x !in visited && x in added
    ensures |Zone(b) - (visited + added)| < |Zone(b) - visited|
  {
    var big, small := Zone(b) - visited, Zone(b) - (visited + added);
    assert small <= big && x in big && x !in small;
    assert big == small + (big - small);
  }

  /** A scan that visits something shrinks the unvisited part of the zone. */
  lemma ScanProgress(b: Board, start: Coord, cur: Coord, visited: set<Coord>, added: seq<Coord>)
    requires added == AntScan(b, start, cur, Neighbors(cur), visited)
    ensures added == [] || |Zone(b) - (visited + SetOf(added))| < |Zone(b) - visited|
  {
    if added != [] {
      SlideStaysInZone(b, start, cur, added[0]);
      ZoneShrinks(b, visited, added[0], SetOf(added));
    }
  }

  /** The breadth-first loop of `getAntMoves`: poll the queue, visit and enqueue the slidable
      neighbours, and record each newly visited cell as a move, in discovery order. (The source's
      test that a new cell is not `from` always holds, `from` being visited from the outset.) */
  function AntSearch(b: Board, start: Coord, queue: seq<Coord>, visited: set<Coord>, moves: seq<Coord>)
    : (r: seq<Coord>)
    requires AntBookkeeping(b, start, visited, moves)
    ensures moves <= r
    ensures Distinct(r) && start !in r && forall x :: x in r ==> x !in b
    decreases |Zone(b) - visited|, |queue|
  {
    if queue == [] then moves
    else
      var cur := queue[0];
      var added := AntScan(b, start, cur, Neighbors(cur), visited);
      AddedKeepsBookkeeping(b, start, cur, visited, moves, added);
      ScanProgress(b, start, cur, visited, added);
      var r := AntSearch(b, start, queue[1..] + added, visited + SetOf(added), moves + added);
      assert moves <= moves + added;
      r
  }

  lemma AddedKeepsBookkeeping(b: Board, start: Coord, cur: Coord, visited: set<Coord>,
                              moves: seq<Coord>, added: seq<Coord>)
    requires AntBookkeeping(b, start, visited, moves)
    requires added == AntScan(b, start, cur, Neighbors(cur), visited)
    ensures AntBookkeeping(b, start, visited + SetOf(added), moves + added)
  {
    var ms := moves + added;
    forall i, j | 0 <= i < j < |ms| ensures ms[i] != ms[j] {
      if j >= |moves| && i < |moves| {
        assert ms[j] in added && ms[i] in moves;
      }
      if i >= |moves| {
        assert ms[i] == added[i - |moves|] && ms[j] == added[j - |moves|];
      }
    }
  }

  /** `getAntMoves`: every cell the ant reaches by a chain of slides, in breadth-first order. */
  function AntMoves(b: Board, from: Coord): (ms: seq<Coord>)
    ensures Distinct(ms) && from !in ms
    ensures forall x :: x in ms ==> x !in b
  {
    AntSearch(b, from, [from], {from}, [])
  }

  /** Each cell of `ms` is one slide away from `start` or from an earlier cell of `ms`. */
  ghost predicate ChainOk(b: Board, start: Coord, ms: seq<Coord>) {
    forall i :: 0 <= i < |ms| ==>
      Step(b, start, start, ms[i]) || exists j :: 0 <= j < i && Step(b, start, ms[j], ms[i])
  }

  /** A set that contains `start` and everything one slide away from its members. */
  ghost predicate StepClosed(b: Board, start: Coord, s: set<Coord>) {
    start in s && forall c, n :: c in s && Step(b, start, c, n) ==> n in s
  }

  /** `e` lies in every slide-closed set: it is reachable from `start` by a chain of slides. */
  ghost predicate SlideReachable(b: Board, start: Coord, e: Coord) {
    forall s :: StepClosed(b, start, s) ==> e in s
  }

  ghost predicate AntInv(b: Board, start: Coord, queue: seq<Coord>, visited: set<Coord>, moves: seq<Coord>) {
    && AntBookkeeping(b, start, visited, moves)
    && (forall x :: x in queue ==> x in visited)
    && ChainOk(b, start, moves)
    && (forall c, n :: c in visited && c !in queue && Step(b, start, c, n) ==> n in visited)
  }

  lemma AntStep(b: Board, start: Coord, queue: seq<Coord>, visited: set<Coord>, moves: seq<Coord>)
    requires AntInv(b, start, queue, visited, moves) && queue != []
    ensures var added := AntScan(b, start, queue[0], Neighbors(queue[0]), visited);
            AntInv(b, start, queue[1..] + added, visited + SetOf(added), moves + added)
  {
    var cur := queue[0];
    var added := AntScan(b, start, cur, Neighbors(cur), visited);
    AddedKeepsBookkeeping(b, start, cur, visited, moves, added);
    AntStepChain(b, start, cur, visited, moves, added);
    AntStepClosed(b, start, queue, visited, added);
  }

  /** The cells the scan adds are one slide from `cur`, which is `start` or an earlier move. */
  lemma AntStepChain(b: Board, start: Coord, cur: Coord, visited: set<Coord>, moves: seq<Coord>,
                     added: seq<Coord>)
    requires ChainOk(b, start, moves) && (cur == start || cur in moves)
    requires added == AntScan(b, start, cur, Neighbors(cur), visited)
    ensures ChainOk(b, start, moves + added)
  {
    var m' := moves + added;
    assert forall j :: 0 <= j < |moves| ==> m'[j] == moves[j];
    forall i | 0 <= i < |m'|
      ensures Step(b, start, start, m'[i]) || exists j :: 0 <= j < i && Step(b, start, m'[j], m'[i])
    {
      if i < |moves| {
        assert m'[i] == moves[i];
        if !Step(b, start, start, moves[i]) {
          var j :| 0 <= j < i && Step(b, start, moves[j], moves[i]);
          assert m'[j] == moves[j];
        }
      } else {
        var x := m'[i];
        assert x in added by {
          assert x == added[i - |moves|];
        }
        assert Step(b, start, cur, x);
        if cur != start {
          var j :| 0 <= j < |moves| && moves[j] == cur;
          assert m'[j] == cur;
        }
      }
    }
  }

  /** Once `cur` leaves the queue, every cell one slide from it is visited. */
  lemma AntStepClosed(b: Board, start: Coord, queue: seq<Coord>, visited: set<Coord>, added: seq<Coord>)
    requires queue != [] && queue[0] in visited
    requires forall c, n :: c in visited && c !in queue && Step(b, start, c, n) ==> n in visited
    requires added == AntScan(b, start, queue[0], Neighbors(queue[0]), visited)
    ensures var q', v' := queue[1..] + added, visited + SetOf(added);
            forall c, n :: c in v' && c !in q' && Step(b, start, c, n) ==> n in v'
  {
    var cur := queue[0];
    var q', v' := queue[1..] + added, visited + SetOf(added);
    forall c, n | c in v' && c !in q' && Step(b, start, c, n)
      ensures n in v'
    {
      if c == cur {
        assert n in Neighbors(cur);
      } else {
        assert c !in added;
        assert c in visited;
        assert c !in queue;
      }
    }
  }

  lemma {:induction false} AntSearchSound(b: Board, start: Coord, queue: seq<Coord>,
                                          visited: set<Coord>, moves: seq<Coord>)
    requires AntInv(b, start, queue, visited, moves)
    ensures var r := AntSearch(b, start, queue, visited, moves);
            ChainOk(b, start, r) && StepClosed(b, start, {start} + SetOf(r))
    decreases |Zone(b) - visited|, |queue|
  {
    if queue == [] {
      var s := {start} + SetOf(moves);
      forall c, n | c in s && Step(b, start, c, n) ensures n in s {
        assert c in visited;
      }
    } else {
      var cur := queue[0];
      var added := AntScan(b, start, cur, Neighbors(cur), visited);
      AntStep(b, start, queue, visited, moves);
      ScanProgress(b, start, cur, visited, added);
      AntSearchSound(b, start, queue[1..] + added, visited + SetOf(added), moves + added);
    }
  }

  /** A slide chain stays inside every slide-closed set. */
  lemma {:induction false} ChainInClosed(b: Board, start: Coord, ms: seq<Coord>, s: set<Coord>, i: nat)
    requires ChainOk(b, start, ms) && StepClosed(b, start, s) && i < |ms|
    ensures ms[i] in s
    decreases i
  {
    if !Step(b, start, start, ms[i]) {
      var j :| 0 <= j < i && Step(b, start, ms[j], ms[i]);
      ChainInClosed(b, start, ms, s, j);
    }
  }

  lemma AntInvInitial(b: Board, from: Coord)
    ensures AntInv(b, from, [from], {from}, [])
    ensures AntMoves(b, from) == AntSearch(b, from, [from], {from}, [])
  {
  }

  lemma AntMovesReachable(b: Board, from: Coord, e: Coord)
    requires e in AntMoves(b, from)
    ensures SlideReachable(b, from, e)
  {
    var r := AntMoves(b, from);
    AntInvInitial(b, from);
    AntSearchSound(b, from, [from], {from}, []);
    var i :| 0 <= i < |r| && r[i] == e;
    forall s | StepClosed(b, from, s) ensures e in s {
      ChainInClosed(b, from, r, s, i);
    }
  }

  lemma AntMovesComplete(b: Board, from: Coord, e: Coord)
    requires e != from && SlideReachable(b, from, e)
    ensures e in AntMoves(b, from)
  {
    var r := AntMoves(b, from);
    AntInvInitial(b, from);
    AntSearchSound(b, from, [from], {from}, []);
    assert e in {from} + SetOf(r);
  }

  /** The ant's destinations are exactly the cells other than its own that a chain of slides
      reaches. */
  lemma AntMovesExact(b: Board, from: Coord, e: Coord)
    ensures e in AntMoves(b, from) <==> e != from && SlideReachable(b, from, e)
  {
    if e in AntMoves(b, from) {
      AntMovesReachable(b, from, e);
    }
    if e != from && SlideReachable(b, from, e) {
      AntMovesComplete(b, from, e);
    }
  }

  // ---------------------------------------------------------------- spider

  /** A slide test for one walking piece: `canSlideTo` with the piece's starting cell fixed. The
      spider's search is written over such a test; its proofs need nothing about the test itself. */
  type SlideTest = (Coord, Coord) -> bool

  function Slides(b: Board, start: Coord): SlideTest {
    (c: Coord, n: Coord) => CanSlideTo(b, start, c, n)
  }

  /** `spiderDFS` at `depth`: at depth 3 the current cell is a destination (unless it is `start`);
      below that, mark it visited and recurse into every unvisited neighbour that can be slid
      onto, each branch with its own copy of the visited set. Destinations may repeat when two
      walks end on the same cell. */
  function SpiderDfs(slide: SlideTest, start: Coord, cur: Coord, visited: set<Coord>, depth: nat)
    : seq<Coord>
    requires depth <= 3
    decreases 3 - depth, 7
  {
    if depth == 3 then (if cur != start then [cur] else [])
    else SpiderBranches(slide, start, cur, visited + {cur}, depth, Neighbors(cur))
  }

  /** The neighbour loop of `spiderDFS`, over the neighbours still to try. */
  function SpiderBranches(slide: SlideTest, start: Coord, cur: Coord, visited: set<Coord>, depth: nat,
                          ns: seq<Coord>): seq<Coord>
    requires depth < 3 && |ns| <= 6
    decreases 3 - depth, |ns|
  {
    if ns == [] then []
    else
      var here := if ns[0] !in visited && slide(cur, ns[0])
                  then SpiderDfs(slide, start, ns[0], visited, depth + 1) else [];
      here + SpiderBranches(slide, start, cur, visited, depth, ns[1..])
  }

  /** `getSpiderMoves`: the ends of the three-slide walks from `from`. */
  function SpiderMoves(b: Board, from: Coord): (ms: seq<Coord>)
    ensures forall e :: e in ms ==> e != from && e !in b
  {
    var ms := SpiderDfs(Slides(b, from), from, from, {}, 0);
    forall e | e in ms ensures e != from && e !in b {
      var p := SpiderWalkExists(Slides(b, from), from, from, {}, 0, e);
      assert Slides(b, from)(p[2], p[3]);
      assert CanSlideTo(b, from, p[2], p[3]);
    }
    ms
  }

  /** A walk of slides from `p[0]` that never revisits a cell and avoids `avoid` after its first cell. */
  ghost predicate Walk(slide: SlideTest, p: seq<Coord>, avoid: set<Coord>) {
    && |p| >= 1
    && (forall i :: 0 <= i < |p| - 1 ==> Adjacent(p[i], p[i + 1]) && slide(p[i], p[i + 1]))
    && (forall i :: 1 <= i < |p| ==> p[i] !in avoid)
    && Distinct(p)
  }

  /** The walks of a piece that started at `start`, with the board's slides. */
  ghost predicate SpiderWalk(b: Board, start: Coord, p: seq<Coord>, avoid: set<Coord>) {
    && |p| >= 1
    && (forall i :: 0 <= i < |p| - 1 ==> Step(b, start, p[i], p[i + 1]))
    && (forall i :: 1 <= i < |p| ==> p[i] !in avoid)
    && Distinct(p)
  }

  lemma SpiderWalkIsWalk(b: Board, start: Coord, p: seq<Coord>, avoid: set<Coord>)
    ensures SpiderWalk(b, start, p, avoid) <==> Walk(Slides(b, start), p, avoid)
  {
    var slide := Slides(b, start);
    forall i | 0 <= i < |p| - 1
      ensures Step(b, start, p[i], p[i + 1]) <==> Adjacent(p[i], p[i + 1]) && slide(p[i], p[i + 1])
    {
    }
  }

  /** A cell is found by the neighbour loop exactly when some neighbour still to try can be
      slid to and the search from it finds the cell. */
  lemma BranchesMember(slide: SlideTest, start: Coord, cur: Coord, visited: set<Coord>,
                       depth: nat, ns: seq<Coord>, e: Coord)
    requires depth < 3 && |ns| <= 6
    ensures e in SpiderBranches(slide, start, cur, visited, depth, ns) <==>
            exists k :: 0 <= k < |ns| && ns[k] !in visited && slide(cur, ns[k])
                        && e in SpiderDfs(slide, start, ns[k], visited, depth + 1)
  {
    if e in SpiderBranches(slide, start, cur, visited, depth, ns) {
      var k := BranchOf(slide, start, cur, visited, depth, ns, e);
    }
    if exists k :: 0 <= k < |ns| && ns[k] !in visited && slide(cur, ns[k])
                   && e in SpiderDfs(slide, start, ns[k], visited, depth + 1) {
      var k :| 0 <= k < |ns| && ns[k] !in visited && slide(cur, ns[k])
               && e in SpiderDfs(slide, start, ns[k], visited, depth + 1);
      BranchFinds(slide, start, cur, visited, depth, ns, k, e);
    }
  }

  /** The neighbour whose branch found `e`. */
  lemma {:induction false} BranchOf(slide: SlideTest, start: Coord, cur: Coord, visited: set<Coord>,
                                    depth: nat, ns: seq<Coord>, e: Coord)
    returns (k: nat)
    requires depth < 3 && |ns| <= 6
    requires e in SpiderBranches(slide, start, cur, visited, depth, ns)
    ensures k < |ns| && ns[k] !in visited && slide(cur, ns[k])
    ensures e in SpiderDfs(slide, start, ns[k], visited, depth + 1)
    decreases |ns|
  {
    var here := if ns[0] !in visited && slide(cur, ns[0])
                then SpiderDfs(slide, start, ns[0], visited, depth + 1) else [];
    if e in here {
      k := 0;
    } else {
      var j := BranchOf(slide, start, cur, visited, depth, ns[1..], e);
      k := j + 1;
      assert ns[k] == ns[1..][j];
    }
  }

  /** A branch that finds `e` makes the loop find it. */
  lemma {:induction false} BranchFinds(slide: SlideTest, start: Coord, cur: Coord, visited: set<Coord>,
                                       depth: nat, ns: seq<Coord>, k: nat, e: Coord)
    requires depth < 3 && |ns| <= 6
    requires k < |ns| && ns[k] !in visited && slide(cur, ns[k])
    requires e in SpiderDfs(slide, start, ns[k], visited, depth + 1)
    ensures e in SpiderBranches(slide, start, cur, visited, depth, ns)
    decreases |ns|
  {
    if k > 0 {
      assert ns[1..][k - 1] == ns[k];
      BranchFinds(slide, start, cur, visited, depth, ns[1..], k - 1, e);
    }
  }

  /** Soundness: every result of the search is the end of a distinct walk of `3 - depth` slides. */
  lemma {:induction false} SpiderWalkExists(slide: SlideTest, start: Coord, cur: Coord,
                                            visited: set<Coord>, depth: nat, e: Coord)
    returns (p: seq<Coord>)
    requires depth <= 3 && e in SpiderDfs(slide, start, cur, visited, depth)
    ensures e != start
    ensures Walk(slide, p, visited) && |p| == 4 - depth && p[0] == cur && p[|p| - 1] == e
    decreases 3 - depth
  {
    if depth == 3 {
      p := [cur];
    } else {
      var n := SpiderStepDown(slide, start, cur, visited, depth, e);
      var q := SpiderWalkExists(slide, start, n, visited + {cur}, depth + 1, e);
      ExtendWalk(slide, cur, q, visited);
      p := [cur] + q;
      assert p[|p| - 1] == q[|q| - 1];
    }
  }

  /** A result below depth 3 comes from some branch of the neighbour loop. */
  lemma SpiderStepDown(slide: SlideTest, start: Coord, cur: Coord, visited: set<Coord>, depth: nat,
                       e: Coord)
    returns (n: Coord)
    requires depth < 3 && e in SpiderDfs(slide, start, cur, visited, depth)
    ensures n !in visited + {cur} && Adjacent(cur, n) && slide(cur, n)
    ensures e in SpiderDfs(slide, start, n, visited + {cur}, depth + 1)
  {
    var v := visited + {cur};
    var k := BranchOf(slide, start, cur, v, depth, Neighbors(cur), e);
    n := Neighbors(cur)[k];
  }

  /** Prepending `cur` to a walk that avoids `visited + {cur}` and starts one slide from `cur`. */
  lemma ExtendWalk(slide: SlideTest, cur: Coord, q: seq<Coord>, visited: set<Coord>)
    requires Walk(slide, q, visited + {cur})
    requires q[0] !in visited + {cur} && Adjacent(cur, q[0]) && slide(cur, q[0])
    ensures Walk(slide, [cur] + q, visited)
  {
    var p := [cur] + q;
    forall i | 0 <= i < |p| - 1 ensures Adjacent(p[i], p[i + 1]) && slide(p[i], p[i + 1]) {
      if i > 0 {
        assert p[i] == q[i - 1] && p[i + 1] == q[i];
      }
    }
    forall i, j | 0 <= i < j < |p| ensures p[i] != p[j] {
      assert p[j] == q[j - 1];
      if i > 0 {
        assert p[i] == q[i - 1];
      }
    }
  }

  /** Completeness: the end of every such walk is found. */
  lemma {:induction false} SpiderWalkFound(slide: SlideTest, start: Coord, p: seq<Coord>,
                                           visited: set<Coord>, depth: nat)
    requires depth <= 3 && |p| == 4 - depth
    requires Walk(slide, p, visited) && p[0] !in visited && p[|p| - 1] != start
    ensures p[|p| - 1] in SpiderDfs(slide, start, p[0], visited, depth)
    decreases 3 - depth
  {
    if depth < 3 {
      var cur := p[0];
      var v := visited + {cur};
      var q := p[1..];
      assert Adjacent(p[0], p[1]) && slide(p[0], p[1]);
      var k :| 0 <= k < 6 && Neighbors(cur)[k] == q[0];
      ShrinkWalk(slide, p, visited);
      SpiderWalkFound(slide, start, q, v, depth + 1);
      assert q[|q| - 1] == p[|p| - 1];
      BranchFinds(slide, start, cur, v, depth, Neighbors(cur), k, p[|p| - 1]);
    }
  }

  lemma ShrinkWalk(slide: SlideTest, p: seq<Coord>, visited: set<Coord>)
    requires Walk(slide, p, visited) && |p| >= 2
    ensures Walk(slide, p[1..], visited + {p[0]}) && p[1] !in visited + {p[0]}
  {
    var q := p[1..];
    forall i | 0 <= i < |q| - 1 ensures Adjacent(q[i], q[i + 1]) && slide(q[i], q[i + 1]) {
      assert q[i] == p[i + 1] && q[i + 1] == p[i + 2];
    }
    forall i | 1 <= i < |q| ensures q[i] !in visited + {p[0]} {
      assert q[i] == p[i + 1];
    }
    forall i, j | 0 <= i < j < |q| ensures q[i] != q[j] {
      assert q[i] == p[i + 1] && q[j] == p[j + 1];
    }
  }

  /** The spider's destinations are exactly the ends of three-slide walks from `from` that never
      revisit a cell. */
  lemma SpiderMovesExact(b: Board, from: Coord, e: Coord)
    ensures e in SpiderMoves(b, from) <==>
            exists p :: SpiderWalk(b, from, p, {}) && |p| == 4 && p[0] == from && p[3] == e
  {
    if e in SpiderMoves(b, from) {
      var p := SpiderWalkExists(Slides(b, from), from, from, {}, 0, e);
      SpiderWalkIsWalk(b, from, p, {});
    }
    if exists p :: SpiderWalk(b, from, p, {}) && |p| == 4 && p[0] == from && p[3] == e {
      var p :| SpiderWalk(b, from, p, {}) && |p| == 4 && p[0] == from && p[3] == e;
      assert p[3] != p[0];
      SpiderWalkIsWalk(b, from, p, {});
      SpiderWalkFound(Slides(b, from), from, p, {}, 0);
    }
  }

  // ---------------------------------------------------------------- dispatch

  /** The switch of `getValidMoves`: the candidate destinations for the piece's kind. */
  function PieceMoves(b: Board, kind: PieceType, from: Coord): seq<Coord> {
    match kind
    case Queen => QueenMoves(b, from)
    case Ant => AntMoves(b, from)
    case Spider => SpiderMoves(b, from)
    case Grasshopper => GrasshopperMoves(b, from)
    case Beetle => BeetleMoves(b, from)
  }

  /** The `removeIf` of `getValidMoves`: drop every candidate whose move breaks the hive. */
  function RemoveBreaking(b: Board, from: Coord, ms: seq<Coord>): (kept: seq<Coord>)
    requires from in b
    ensures forall c :: c in kept <==> c in ms && !BreaksHive(b, from, c)
  {
    if ms == [] then []
    else if BreaksHive(b, from, ms[0]) then RemoveBreaking(b, from, ms[1..])
    else [ms[0]] + RemoveBreaking(b, from, ms[1..])
  }

  /** `breaksHive` ignores the destination, so the filter keeps every candidate or none. */
  lemma {:induction false} AllOrNothing(b: Board, from: Coord, ms: seq<Coord>)
    requires from in b
    ensures RemoveBreaking(b, from, ms) == (if ms != [] && BreaksHive(b, from, ms[0]) then [] else ms)
  {
    if ms != [] {
      AllOrNothing(b, from, ms[1..]);
      assert ms[1..] != [] ==> BreaksHive(b, from, ms[1..][0]) == BreaksHive(b, from, ms[0]);
      if !BreaksHive(b, from, ms[0]) {
        assert ms == [ms[0]] + ms[1..];
      }
    }
  }

  /** `getValidMoves`. The one-hive filter only runs when there are candidates; it then reads the
      stack at `from`, and the source fails (`None`) when there is none. Because the filter does
      not depend on the destination, a piece whose lifting disconnects the hive has no moves at
      all and otherwise keeps every candidate. */
  function GetValidMoves(b: Board, piece: Piece, from: Coord): (r: Option<seq<Coord>>)
    ensures r.None? <==> from !in b && PieceMoves(b, piece.kind, from) != []
    ensures r.Some? ==> r.value == [] || r.value == PieceMoves(b, piece.kind, from)
    ensures from in b ==>
              (r == Some(PieceMoves(b, piece.kind, from)) <==>
                 PieceMoves(b, piece.kind, from) == [] || |b[from]| > 1 || Connected(b - {from}))
  {
    var ms := PieceMoves(b, piece.kind, from);
    if ms == [] then Some([])
    else if from !in b then None
    else
      AllOrNothing(b, from, ms);
      Some(RemoveBreaking(b, from, ms))
  }
}
