/** `HiveBoard.isHiveConnected`: breadth-first search over occupied neighbours. */
module Connectivity {
  import opened Hex
  import opened Boards

  /** A set of occupied cells that contains every occupied neighbour of its members. */
  ghost predicate Closed(b: Board, s: set<Coord>) {
    s <= b.Keys && forall c, n :: c in s && n in b && Adjacent(c, n) ==> n in s
  }

  /** The occupied cells form one piece: the only non-empty closed set is the whole board. */
  ghost predicate Connected(b: Board) {
    forall s: set<Coord> :: Closed(b, s) && s != {} ==> s == b.Keys
  }

  /** The inner loop of the search: visit the occupied, not yet visited cells of `ns`, in order. */
  function Enqueue(b: Board, ns: seq<Coord>, visited: set<Coord>, queue: seq<Coord>)
    : (res: (set<Coord>, seq<Coord>))
    requires visited <= b.Keys
    ensures forall x :: x in res.0 <==> x in visited || (x in ns && x in b)
    ensures |res.1| == |queue| + |res.0| - |visited|
    ensures queue <= res.1
    ensures forall x :: x in res.1 ==> x in queue || x in res.0
    ensures forall x :: x in res.0 && x !in visited ==> x in res.1
  {
    if ns == [] then (visited, queue)
    else if ns[0] in b && ns[0] !in visited then
      var res := Enqueue(b, ns[1..], visited + {ns[0]}, queue + [ns[0]]);
      assert queue <= queue + [ns[0]];
      assert res.1[|queue|] == (queue + [ns[0]])[|queue|] == ns[0];
      res
    else
      Enqueue(b, ns[1..], visited, queue)
  }

  /** The outer loop: poll a cell and enqueue its occupied neighbours until the queue is empty. */
  function Search(b: Board, queue: seq<Coord>, visited: set<Coord>): (reached: set<Coord>)
    requires visited <= b.Keys
    requires forall x :: x in queue ==> x in visited
    ensures visited <= reached <= b.Keys
    decreases |b.Keys - visited|, |queue|
  {
    if queue == [] then visited
    else
      var res := Enqueue(b, Neighbors(queue[0]), visited, queue[1..]);
      assert res.0 <= b.Keys;
      if res.0 != visited then
        assert b.Keys - res.0 < b.Keys - visited;
        Search(b, res.1, res.0)
      else
        Search(b, res.1, res.0)
  }

  /** Everything reached by the search from `start`. */
  function ReachedFrom(b: Board, start: Coord): (reached: set<Coord>)
    requires start in b
    ensures start in reached && reached <= b.Keys
  {
    Search(b, [start], {start})
  }

  /** `isHiveConnected`: true on an empty board; otherwise the search from the first cell in
      iteration order reaches as many cells as the board has. */
  function IsHiveConnected(b: Board): (connected: bool)
    ensures IsEmpty(b) ==> connected
    ensures connected <==> Connected(b)
  {
    if |b| == 0 then
      EmptyConnected(b);
      true
    else
      var start := Least(b.Keys);
      ReachedAllIffConnected(b, start);
      CountReached(b, start);
      |ReachedFrom(b, start)| == |b|
  }

  lemma EmptyConnected(b: Board)
    requires |b| == 0
    ensures Connected(b)
  {
    forall s: set<Coord> | Closed(b, s)
      ensures s == {}
    {
    }
  }

  /** Comparing sizes, as the source does, is comparing sets. */
  lemma CountReached(b: Board, start: Coord)
    requires start in b
    ensures |ReachedFrom(b, start)| == |b| <==> ReachedFrom(b, start) == b.Keys
  {
    var reached := ReachedFrom(b, start);
    if reached != b.Keys {
      var rest := b.Keys - reached;
      assert b.Keys == reached + rest && reached * rest == {};
      assert |b.Keys| == |reached| + |rest|;
      assert rest != {};
    }
  }

  /** Search invariant: every visited cell that has left the queue has all its occupied neighbours visited. */
  ghost predicate SearchInv(b: Board, queue: seq<Coord>, visited: set<Coord>) {
    && visited <= b.Keys
    && (forall x :: x in queue ==> x in visited)
    && (forall c, n :: c in visited && c !in queue && n in b && Adjacent(c, n) ==> n in visited)
  }

  lemma {:induction false} SearchClosed(b: Board, queue: seq<Coord>, visited: set<Coord>)
    requires SearchInv(b, queue, visited)
    ensures Closed(b, Search(b, queue, visited))
    decreases |b.Keys - visited|, |queue|
  {
    if queue != [] {
      var cur := queue[0];
      var res := Enqueue(b, Neighbors(cur), visited, queue[1..]);
      forall c, n | c in res.0 && c !in res.1 && n in b && Adjacent(c, n)
        ensures n in res.0
      {
        if c == cur {
          assert n in Neighbors(cur);
        } else {
          assert c in visited;
          assert c !in queue[1..];
          assert c !in queue by {
            assert queue == [cur] + queue[1..];
          }
        }
      }
      assert SearchInv(b, res.1, res.0);
      if res.0 != visited {
        assert b.Keys - res.0 < b.Keys - visited;
      }
      SearchClosed(b, res.1, res.0);
    }
  }

  lemma {:induction false} SearchLeast(b: Board, queue: seq<Coord>, visited: set<Coord>, s: set<Coord>)
    requires visited <= b.Keys && (forall x :: x in queue ==> x in visited)
    requires Closed(b, s) && visited <= s
    ensures Search(b, queue, visited) <= s
    decreases |b.Keys - visited|, |queue|
  {
    if queue != [] {
      var cur := queue[0];
      var res := Enqueue(b, Neighbors(cur), visited, queue[1..]);
      forall n | n in Neighbors(cur) && n in b
        ensures n in s
      {
        assert Adjacent(cur, n);
      }
      if res.0 != visited {
        assert b.Keys - res.0 < b.Keys - visited;
      }
      SearchLeast(b, res.1, res.0, s);
    }
  }

  /** By symmetry of adjacency, the occupied cells outside a closed set form a closed set too. */
  lemma ComplementClosed(b: Board, s: set<Coord>)
    requires Closed(b, s)
    ensures Closed(b, b.Keys - s)
  {
    forall c, n | c in b.Keys - s && n in b && Adjacent(c, n)
      ensures n in b.Keys - s
    {
      AdjacentSymmetric(c, n);
    }
  }

  /** The search from any occupied start reaches the whole board exactly when the board is
      connected; so the answer does not depend on which cell the search starts from. */
  lemma ReachedAllIffConnected(b: Board, start: Coord)
    requires start in b
    ensures ReachedFrom(b, start) == b.Keys <==> Connected(b)
  {
    var reached := ReachedFrom(b, start);
    assert SearchInv(b, [start], {start});
    SearchClosed(b, [start], {start});
    if reached == b.Keys {
      forall s: set<Coord> | Closed(b, s) && s != {}
        ensures s == b.Keys
      {
        if start in s {
          SearchLeast(b, [start], {start}, s);
        } else {
          ComplementClosed(b, s);
          SearchLeast(b, [start], {start}, b.Keys - s);
          assert false;
        }
      }
    }
  }

  /** Corollary: two searches from different occupied cells agree on whether they reach everything. */
  lemma StartIndependent(b: Board, s1: Coord, s2: Coord)
    requires s1 in b && s2 in b
    ensures ReachedFrom(b, s1) == b.Keys <==> ReachedFrom(b, s2) == b.Keys
  {
    ReachedAllIffConnected(b, s1);
    ReachedAllIffConnected(b, s2);
  }
}
