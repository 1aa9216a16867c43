/** MCTSEngine: the search tree, one iteration of selection, expansion, evaluation and
    backpropagation, and the iteration loop with its cap and coarse timeout. The UCT score, the
    value network and the policy network's priors are parameters; the wall clock is an oracle. */
module Mcts {
  import opened Wrappers
  import opened Pieces
  import opened Boards
  import opened GameStates
  import opened WinCheck
  import opened AIMoves
  import opened HiveAI
  import opened Ranking

  const MaxIterations: nat := 100
  const MaxChildren: nat := 50
  const MaxDepth: nat := 100

  /** A tree node. The root has no move; the parent link of the source is the recursion itself. */
  datatype Node = Node(move: Option<AIMove>, visits: nat, total: real, prior: real, children: seq<Node>)

  /** What the search consults but does not compute: the UCT score of a child given its parent's
      visit count, the value network's first output, and the policy network's output (`None`
      when the network is absent or throws). */
  datatype Oracle = Oracle(score: (nat, Node) -> real, value: GameState -> real,
                           priors: GameState -> Option<seq<real>>)

  /** The value network ends in a sigmoid, so its output lies in [0, 1]. */
  ghost predicate ValueBounded(o: Oracle) {
    forall s :: 0.0 <= o.value(s) <= 1.0
  }

  // ---------------------------------------------------------------- tree statistics

  function SumVisits(cs: seq<Node>): nat {
    if cs == [] then 0 else SumVisits(cs[..|cs| - 1]) + cs[|cs| - 1].visits
  }

  /** Every node's children share at most its own visits, and its accumulated value lies between
      0 and its visit count. */
  predicate WellCounted(n: Node)
    decreases n
  {
    && SumVisits(n.children) <= n.visits
    && 0.0 <= n.total <= n.visits as real
    && forall i :: 0 <= i < |n.children| ==> WellCounted(n.children[i])
  }

  function MovesOf(cs: seq<Node>): (ms: seq<Option<AIMove>>)
    ensures |ms| == |cs| && forall i :: 0 <= i < |cs| ==> ms[i] == cs[i].move
  {
    seq(|cs|, i requires 0 <= i < |cs| => cs[i].move)
  }

  lemma {:induction false} SumVisitsAppend(xs: seq<Node>, ys: seq<Node>)
    ensures SumVisits(xs + ys) == SumVisits(xs) + SumVisits(ys)
    decreases |ys|
  {
    if ys == [] {
      assert xs + ys == xs;
    } else {
      var zs := ys[..|ys| - 1];
      assert (xs + ys)[..|xs + ys| - 1] == xs + zs;
      SumVisitsAppend(xs, zs);
    }
  }

  /** Replacing one child by one with a single extra visit adds exactly one to the sum. */
  lemma SumVisitsBump(cs: seq<Node>, i: nat, c: Node)
    requires i < |cs| && c.visits == cs[i].visits + 1
    ensures SumVisits(cs[i := c]) == SumVisits(cs) + 1
  {
    var pre := cs[..i];
    var post := cs[i + 1..];
    assert cs == pre + [cs[i]] + post;
    assert cs[i := c] == pre + [c] + post;
    SumVisitsAppend(pre + [cs[i]], post);
    SumVisitsAppend(pre, [cs[i]]);
    SumVisitsAppend(pre + [c], post);
    SumVisitsAppend(pre, [c]);
    assert SumVisits([c]) == c.visits by { assert [c][..0] == []; }
    assert SumVisits([cs[i]]) == cs[i].visits by { assert [cs[i]][..0] == []; }
  }

  lemma {:induction false} SumVisitsFresh(cs: seq<Node>)
    requires forall i :: 0 <= i < |cs| ==> cs[i].visits == 0
    ensures SumVisits(cs) == 0
    decreases |cs|
  {
    if cs != [] {
      SumVisitsFresh(cs[..|cs| - 1]);
    }
  }

  // ---------------------------------------------------------------- choosing a child

  /** `selectChild`: no child for a leaf, otherwise the first child of highest score. */
  function SelectChild(n: Node, score: (nat, Node) -> real): (r: Option<nat>)
    ensures r.None? <==> n.children == []
    ensures r.Some? ==> r.value < |n.children|
    ensures r.Some? ==> forall j :: 0 <= j < |n.children| ==>
              score(n.visits, n.children[j]) <= score(n.visits, n.children[r.value])
    ensures r.Some? ==> forall j :: 0 <= j < r.value ==>
              score(n.visits, n.children[j]) < score(n.visits, n.children[r.value])
  {
    if n.children == [] then None
    else
      var scores := seq(|n.children|, j requires 0 <= j < |n.children| => score(n.visits, n.children[j]));
      assert forall j :: 0 <= j < |n.children| ==> scores[j] == score(n.visits, n.children[j]);
      Some(ArgMax(scores))
  }

  /** `getBestMove`: the move of the first root child with the most visits, none for a leaf. */
  function BestMove(root: Node): (r: Option<AIMove>)
    ensures root.children == [] ==> r.None?
    ensures root.children != [] ==>
              exists k :: && 0 <= k < |root.children| && r == root.children[k].move
                          && (forall j :: 0 <= j < |root.children| ==> root.children[j].visits <= root.children[k].visits)
                          && (forall j :: 0 <= j < k ==> root.children[j].visits < root.children[k].visits)
  {
    if root.children == [] then None
    else
      var cs := root.children;
      var counts := seq(|cs|, j requires 0 <= j < |cs| => cs[j].visits as real);
      var k := ArgMax(counts);
      assert forall j :: 0 <= j < |cs| ==> counts[j] == cs[j].visits as real;
      cs[k].move
  }

  // ---------------------------------------------------------------- expansion and evaluation

  /** `expand`: one fresh child per move, in order, at most 50; each prior is the network's
      output at that index when there is one, otherwise uniform over the kept moves. */
  function Expand(moves: seq<AIMove>, priors: Option<seq<real>>): (cs: seq<Node>)
    ensures |cs| == Min(|moves|, MaxChildren)
    ensures forall i :: 0 <= i < |cs| ==>
              && cs[i].visits == 0 && cs[i].total == 0.0 && cs[i].children == []
              && cs[i].prior == (if priors.Some? && i < |priors.value| then priors.value[i]
                                 else 1.0 / (|cs| as real))
    ensures MovesOf(cs) == seq(|cs|, i requires 0 <= i < |cs| => Some(moves[i]))
  {
    var kept := moves[..Min(|moves|, MaxChildren)];
    seq(|kept|, i requires 0 <= i < |kept| =>
      Node(Some(kept[i]), 0, 0.0,
           if priors.Some? && i < |priors.value| then priors.value[i] else 1.0 / (|kept| as real), []))
  }

  function SumPriors(cs: seq<Node>): real {
    if cs == [] then 0.0 else SumPriors(cs[..|cs| - 1]) + cs[|cs| - 1].prior
  }

  lemma {:induction false} SumPriorsConstant(cs: seq<Node>, p: real)
    requires forall i :: 0 <= i < |cs| ==> cs[i].prior == p
    ensures SumPriors(cs) == (|cs| as real) * p
    decreases |cs|
  {
    if cs != [] {
      SumPriorsConstant(cs[..|cs| - 1], p);
    }
  }

  /** Without a policy network the priors of an expansion form a uniform distribution. */
  lemma UniformPriorsSumToOne(moves: seq<AIMove>)
    requires moves != []
    ensures SumPriors(Expand(moves, None)) == 1.0
  {
    var cs := Expand(moves, None);
    var n := |cs| as real;
    SumPriorsConstant(cs, 1.0 / n);
    assert n * (1.0 / n) == 1.0;
  }

  /** Whether the search treats the position as finished. */
  predicate Terminal(s: GameState) {
    SearchWinCondition(s.board).Some?
  }

  /** `evaluate`: 0.5 for a draw, 1 or 0 for a win or loss of `aiColor`, else the value network. */
  function Evaluate(s: GameState, aiColor: Color, value: GameState -> real): (v: real)
    requires NoEmptyStacks(s.board)
    ensures 0.0 <= value(s) <= 1.0 ==> 0.0 <= v <= 1.0
    ensures !Terminal(s) ==> v == value(s)
  {
    match SearchWinCondition(s.board)
    case Some(Draw) => 0.5
    case Some(WhiteWins) => if aiColor == White then 1.0 else 0.0
    case Some(BlackWins) => if aiColor == Black then 1.0 else 0.0
    case None => value(s)
  }

  /** A finished position is scored by whose queen is surrounded: a half when both are, 1 when
      only the opponent's is, 0 when only the own one is. */
  lemma EvaluateFinished(s: GameState, aiColor: Color, value: GameState -> real)
    requires NoEmptyStacks(s.board) && Terminal(s)
    ensures var v := Evaluate(s, aiColor, value);
            && (v == 0.5 <==> QueenSurrounded(s.board, White) && QueenSurrounded(s.board, Black))
            && (v == 1.0 <==> QueenSurrounded(s.board, Opponent(aiColor)) && !QueenSurrounded(s.board, aiColor))
            && (v == 0.0 <==> QueenSurrounded(s.board, aiColor) && !QueenSurrounded(s.board, Opponent(aiColor)))
  {
    var o := SearchWinCondition(s.board);
    assert o == CheckWin(s.board);
    ScoreOfOutcome(o, QueenSurrounded(s.board, White), QueenSurrounded(s.board, Black), aiColor,
                   Evaluate(s, aiColor, value));
  }

  /** The case analysis behind `EvaluateFinished`, on the two queens' flags alone. */
  lemma ScoreOfOutcome(o: Option<Outcome>, white: bool, black: bool, aiColor: Color, v: real)
    requires o.Some?
    requires o == Some(Draw) <==> white && black
    requires o == Some(BlackWins) <==> white && !black
    requires o == Some(WhiteWins) <==> black && !white
    requires v == match o.value
                  case Draw => 0.5
                  case WhiteWins => if aiColor == White then 1.0 else 0.0
                  case BlackWins => if aiColor == Black then 1.0 else 0.0
    ensures v == 0.5 <==> white && black
    ensures v == 1.0 <==> (if aiColor == White then black && !white else white && !black)
    ensures v == 0.0 <==> (if aiColor == White then white && !black else black && !white)
  {
  }

  /** `heuristicEval`'s final clamp into [0, 1]. */
  function Clamp(score: real): (v: real)
    ensures 0.0 <= v <= 1.0
    ensures 0.0 <= score <= 1.0 ==> v == score
    ensures score < 0.0 ==> v == 0.0
    ensures score > 1.0 ==> v == 1.0
  {
    if score < 0.0 then 0.0 else if score > 1.0 then 1.0 else score
  }

  /** Applying a tree move to the working position. Tree moves are the legal moves generated for
      the position they are applied to, so `execute` does not fail on them; where it would, the
      source throws from `movePiece` on an empty cell, and the model keeps the position. */
  function Apply(s: GameState, m: AIMove): (t: GameState)
    requires NoEmptyStacks(s.board)
    ensures NoEmptyStacks(t.board)
    ensures Execute(s, m).Some? ==> t == Execute(s, m).value
    ensures Execute(s, m).None? ==> t == s
  {
    match Execute(s, m)
    case None => s
    case Some(t) =>
      ExecuteKeepsStacks(s, m);
      t
  }

  // ---------------------------------------------------------------- one iteration

  /** One iteration below node `n`, reached in position `s` at depth `depth`. Returns the updated
      node and the value backpropagated into it; the parent receives one minus that value. */
  function Visit(n: Node, s: GameState, depth: nat, aiColor: Color, o: Oracle): (r: (Node, real))
    requires NoEmptyStacks(s.board) && ValueBounded(o)
    ensures 0.0 <= r.1 <= 1.0
    ensures r.0.move == n.move && r.0.prior == n.prior
    ensures r.0.visits == n.visits + 1 && r.0.total == n.total + r.1
    ensures WellCounted(n) ==> WellCounted(r.0)
    ensures n.children != [] && !Terminal(s) && depth < MaxDepth ==>
              MovesOf(r.0.children) == MovesOf(n.children)
    decreases n
  {
    if n.children != [] && !Terminal(s) && depth < MaxDepth then
      var i := SelectChild(n, o.score).value;
      var c := n.children[i];
      var sub :=
        if c.move.None? then Settle(c, s, aiColor, o)
        else Visit(c, Apply(s, c.move.value), depth + 1, aiColor, o);
      var v := 1.0 - sub.1;
      CreditChild(n, i, sub.0, v);
      (n.(visits := n.visits + 1, total := n.total + v, children := n.children[i := sub.0]), v)
    else
      Settle(n, s, aiColor, o)
  }

  /** The bookkeeping of one level of backpropagation: a child that gained one visit, and a value
      in [0, 1] for the parent, keep a well-counted parent well counted. */
  lemma CreditChild(n: Node, i: nat, c: Node, v: real)
    requires i < |n.children| && c.visits == n.children[i].visits + 1 && 0.0 <= v <= 1.0
    ensures WellCounted(n) && WellCounted(c) ==>
              WellCounted(n.(visits := n.visits + 1, total := n.total + v, children := n.children[i := c]))
  {
    SumVisitsBump(n.children, i, c);
    if WellCounted(n) && WellCounted(c) {
      var cs := n.children[i := c];
      assert forall j :: 0 <= j < |n.children| ==> WellCounted(n.children[j]);
      assert forall j :: 0 <= j < |cs| ==> WellCounted(cs[j]);
    }
  }

  /** The end of the descent: expand a visited, non-terminal node and step into its first child,
      then evaluate and backpropagate one level. */
  function Settle(n: Node, s: GameState, aiColor: Color, o: Oracle): (r: (Node, real))
    requires NoEmptyStacks(s.board) && ValueBounded(o)
    ensures 0.0 <= r.1 <= 1.0
    ensures r.0.move == n.move && r.0.prior == n.prior
    ensures r.0.visits == n.visits + 1 && r.0.total == n.total + r.1
    ensures WellCounted(n) ==> WellCounted(r.0)
    ensures Terminal(s) || n.visits == 0 ==> r.0.children == n.children
    ensures !Terminal(s) && n.visits > 0 ==>
              MovesOf(r.0.children) == MovesOf(n.children + Expand(GenerateLegalMoves(s, s.current), o.priors(s)))
  {
    if !Terminal(s) && n.visits > 0 then ExpandAndBackup(n, s, aiColor, o)
    else
      var v := Evaluate(s, aiColor, o.value);
      (n.(visits := n.visits + 1, total := n.total + v), v)
  }

  /** The expanding branch of `Settle`: add the children, evaluate the position at the first
      child (or at the node itself when it has none) and back the value up. */
  function ExpandAndBackup(n: Node, s: GameState, aiColor: Color, o: Oracle): (r: (Node, real))
    requires NoEmptyStacks(s.board) && ValueBounded(o)
    ensures 0.0 <= r.1 <= 1.0
    ensures r.0.move == n.move && r.0.prior == n.prior
    ensures r.0.visits == n.visits + 1 && r.0.total == n.total + r.1
    ensures WellCounted(n) && n.visits > 0 ==> WellCounted(r.0)
    ensures MovesOf(r.0.children) == MovesOf(n.children + Expand(GenerateLegalMoves(s, s.current), o.priors(s)))
  {
    var added := Expand(GenerateLegalMoves(s, s.current), o.priors(s));
    var t := if n.children + added == [] then s else ChildState(s, (n.children + added)[0]);
    Backup(n, added, Evaluate(t, aiColor, o.value))
  }

  /** Fresh children: no visits, no value, no children of their own. */
  predicate AllFresh(cs: seq<Node>) {
    forall j :: 0 <= j < |cs| ==> cs[j].visits == 0 && cs[j].total == 0.0 && cs[j].children == []
  }

  lemma ExpandedAreFresh(cs: seq<Node>)
    requires AllFresh(cs)
    ensures forall j :: 0 <= j < |cs| ==> WellCounted(cs[j])
    ensures SumVisits(cs) == 0
  {
    SumVisitsFresh(cs);
  }

  /** The position at a child: the parent's position after the child's move. */
  function ChildState(s: GameState, c: Node): (t: GameState)
    requires NoEmptyStacks(s.board)
    ensures NoEmptyStacks(t.board)
  {
    if c.move.None? then s else Apply(s, c.move.value)
  }

  /** Backpropagation after expansion: two levels when there is a first child to step into,
      one otherwise. */
  function Backup(n: Node, added: seq<Node>, w: real): (r: (Node, real))
    requires AllFresh(added) && 0.0 <= w <= 1.0
    ensures 0.0 <= r.1 <= 1.0
    ensures r.0.move == n.move && r.0.prior == n.prior
    ensures r.0.visits == n.visits + 1 && r.0.total == n.total + r.1
    ensures WellCounted(n) && n.visits > 0 ==> WellCounted(r.0)
    ensures MovesOf(r.0.children) == MovesOf(n.children + added)
  {
    if n.children + added == [] then (n.(visits := n.visits + 1, total := n.total + w), w)
    else CreditFirst(n, added, w)
  }

  /** The two levels of backpropagation after stepping into the first child: the child gains a
      visit and the value `w`, the node a visit and the value `1 - w`. */
  function CreditFirst(n: Node, added: seq<Node>, w: real): (r: (Node, real))
    requires AllFresh(added) && n.children + added != [] && 0.0 <= w <= 1.0
    ensures r.1 == 1.0 - w
    ensures r.0.move == n.move && r.0.prior == n.prior
    ensures r.0.visits == n.visits + 1 && r.0.total == n.total + r.1
    ensures WellCounted(n) && n.visits > 0 ==> WellCounted(r.0)
    ensures MovesOf(r.0.children) == MovesOf(n.children + added)
  {
    var cs := n.children + added;
    var c' := cs[0].(visits := cs[0].visits + 1, total := cs[0].total + w);
    AppendedCounts(n, added, w, c', cs[0 := c']);
    CreditKeepsMoves(cs, 0, c');
    (n.(visits := n.visits + 1, total := n.total + (1.0 - w), children := cs[0 := c']), 1.0 - w)
  }

  /** Crediting a child keeps the list of moves. */
  lemma CreditKeepsMoves(cs: seq<Node>, i: nat, c: Node)
    requires i < |cs| && c.move == cs[i].move
    ensures MovesOf(cs[i := c]) == MovesOf(cs)
  {
    var a, b := MovesOf(cs[i := c]), MovesOf(cs);
    assert forall j :: 0 <= j < |cs| ==> a[j] == b[j];
  }

  /** The bookkeeping of `CreditFirst`: appending fresh children adds no visits, and crediting
      the first child adds one. */
  lemma AppendedCounts(n: Node, added: seq<Node>, w: real, c': Node, cs': seq<Node>)
    requires AllFresh(added) && n.children + added != [] && 0.0 <= w <= 1.0
    requires c' == (n.children + added)[0].(visits := (n.children + added)[0].visits + 1,
                                            total := (n.children + added)[0].total + w)
    requires cs' == (n.children + added)[0 := c']
    ensures SumVisits(cs') == SumVisits(n.children) + 1
    ensures WellCounted(n) ==> forall j :: 0 <= j < |cs'| ==> WellCounted(cs'[j])
  {
    var cs := n.children + added;
    ExpandedAreFresh(added);
    SumVisitsAppend(n.children, added);
    SumVisitsBump(cs, 0, c');
    if WellCounted(n) {
      AppendedWellCounted(n.children, added, c', cs');
    }
  }

  /** Well-counted children, fresh ones appended, and the first credited with a visit and a
      value in [0, 1]: every child is still well counted. */
  lemma AppendedWellCounted(children: seq<Node>, added: seq<Node>, c': Node, cs': seq<Node>)
    requires children + added != [] && cs' == (children + added)[0 := c']
    requires forall j :: 0 <= j < |children| ==> WellCounted(children[j])
    requires forall j :: 0 <= j < |added| ==> WellCounted(added[j])
    requires c'.children == (children + added)[0].children
    requires c'.visits == (children + added)[0].visits + 1
    requires (children + added)[0].total <= c'.total <= (children + added)[0].total + 1.0
    ensures forall j :: 0 <= j < |cs'| ==> WellCounted(cs'[j])
  {
    var cs := children + added;
    forall j | 0 <= j < |cs'| ensures WellCounted(cs'[j]) {
      if j == 0 {
        assert WellCounted(cs[0]);
      } else if j >= |children| {
        assert cs'[j] == added[j - |children|];
      } else {
        assert cs'[j] == children[j];
      }
    }
  }

  // ---------------------------------------------------------------- the search loop

  /** A fresh root for the position. */
  function Root(): (n: Node)
    ensures WellCounted(n) && n.visits == 0 && n.children == []
  {
    Node(None, 0, 0.0, 1.0, [])
  }

  /** The tree after `k` iterations from the position `s`. */
  function Grow(s: GameState, aiColor: Color, o: Oracle, k: nat): (n: Node)
    requires NoEmptyStacks(s.board) && ValueBounded(o)
    ensures n.visits == k && WellCounted(n)
  {
    if k == 0 then Root() else Visit(Grow(s, aiColor, o, k - 1), s, 0, aiColor, o).0
  }

  /** After `k` iterations the root's children share at most `k` visits, and every node's
      accumulated value lies between 0 and its own visit count. */
  lemma RootShare(s: GameState, aiColor: Color, o: Oracle, k: nat)
    requires NoEmptyStacks(s.board) && ValueBounded(o)
    ensures SumVisits(Grow(s, aiColor, o, k).children) <= k
    ensures 0.0 <= Grow(s, aiColor, o, k).total <= k as real
  {
    ShareOf(Grow(s, aiColor, o, k));
  }

  lemma ShareOf(n: Node)
    requires WellCounted(n)
    ensures SumVisits(n.children) <= n.visits && 0.0 <= n.total <= n.visits as real
  {
  }

  /** The clock is read before every tenth iteration. */
  predicate ClockChecked(j: nat) {
    j % 10 == 0
  }

  /** No clock reading before iteration `n` reported a timeout. */
  predicate ClockQuiet(timedOut: nat -> bool, n: nat) {
    forall j: nat :: j < n && ClockChecked(j) ==> !timedOut(j)
  }

  lemma ClockQuietStep(timedOut: nat -> bool, n: nat)
    requires ClockQuiet(timedOut, n) && !(ClockChecked(n) && timedOut(n))
    ensures ClockQuiet(timedOut, n + 1)
  {
  }

  /** The number of iterations the source allows: `min(iterations, 100)`, none when negative. */
  function IterationCap(iterations: int): (cap: nat)
    ensures cap <= MaxIterations && cap <= (if iterations < 0 then 0 else iterations)
    ensures 0 <= iterations <= MaxIterations ==> cap == iterations
  {
    var m := Min(iterations, MaxIterations);
    if m < 0 then 0 else m
  }

  /** `search`: run iterations until the cap, checking the clock every tenth iteration; the clock
      is the oracle `timedOut`, asked with the number of completed iterations. */
  method Search(s: GameState, aiColor: Color, iterations: int, timedOut: nat -> bool, o: Oracle)
    returns (best: Option<AIMove>, ran: nat)
    requires NoEmptyStacks(s.board) && ValueBounded(o)
    ensures ran <= IterationCap(iterations)
    ensures ran == IterationCap(iterations) || (ClockChecked(ran) && timedOut(ran))
    ensures ClockQuiet(timedOut, ran)
    ensures best == BestMove(Grow(s, aiColor, o, ran))
    ensures iterations <= 1 ==> best.None?
  {
    var cap := IterationCap(iterations);
    var root := Root();
    ran := 0;
    while ran < cap
      invariant ran <= cap
      invariant root == Grow(s, aiColor, o, ran)
      invariant ClockQuiet(timedOut, ran)
    {
      if ClockChecked(ran) && timedOut(ran) {
        break;
      }
      ClockQuietStep(timedOut, ran);
      root := Visit(root, s, 0, aiColor, o).0;
      ran := ran + 1;
    }
    best := BestMove(root);
    SmallBudget(s, aiColor, o, iterations, ran);
  }

  lemma SmallBudget(s: GameState, aiColor: Color, o: Oracle, iterations: int, ran: nat)
    requires NoEmptyStacks(s.board) && ValueBounded(o) && ran <= IterationCap(iterations)
    ensures iterations <= 1 ==> BestMove(Grow(s, aiColor, o, ran)).None?
  {
    if iterations <= 1 {
      OneIterationFindsNothing(s, aiColor, o, ran);
    }
  }

  /** A single iteration only evaluates the root, so a budget of at most one iteration never
      yields a move, whatever the position. */
  lemma OneIterationFindsNothing(s: GameState, aiColor: Color, o: Oracle, k: nat)
    requires NoEmptyStacks(s.board) && ValueBounded(o) && k <= 1
    ensures BestMove(Grow(s, aiColor, o, k)).None?
  {
    if k == 1 {
      assert Grow(s, aiColor, o, 0) == Root();
    }
  }

  /** With exactly one legal move in a position that is not finished, two or more iterations
      return that move. */
  lemma SingleMoveFound(s: GameState, aiColor: Color, o: Oracle, m: AIMove, k: nat)
    requires NoEmptyStacks(s.board) && ValueBounded(o)
    requires GenerateLegalMoves(s, s.current) == [m] && !Terminal(s) && k >= 2
    ensures BestMove(Grow(s, aiColor, o, k)) == Some(m)
  {
    SecondIterationExpands(s, aiColor, o, m);
    RootMovesKept(s, aiColor, o, m, k);
    OnlyChildIsBest(Grow(s, aiColor, o, k));
  }

  /** The root's moves after the second iteration are its moves for good. */
  lemma RootMovesKept(s: GameState, aiColor: Color, o: Oracle, m: AIMove, k: nat)
    requires NoEmptyStacks(s.board) && ValueBounded(o)
    requires MovesOf(Grow(s, aiColor, o, 2).children) == [Some(m)] && !Terminal(s) && k >= 2
    ensures MovesOf(Grow(s, aiColor, o, k).children) == [Some(m)]
  {
    var j := 2;
    while j < k
      invariant 2 <= j <= k
      invariant MovesOf(Grow(s, aiColor, o, j).children) == [Some(m)]
    {
      LaterIterationsKeepRootMoves(s, aiColor, o, j);
      j := j + 1;
    }
  }

  /** Once the root has children in an unfinished position, further iterations descend and
      never change the root's list of moves. */
  lemma LaterIterationsKeepRootMoves(s: GameState, aiColor: Color, o: Oracle, k: nat)
    requires NoEmptyStacks(s.board) && ValueBounded(o)
    requires MovesOf(Grow(s, aiColor, o, k).children) != [] && !Terminal(s)
    ensures MovesOf(Grow(s, aiColor, o, k + 1).children) == MovesOf(Grow(s, aiColor, o, k).children)
  {
    assert Grow(s, aiColor, o, k + 1) == Visit(Grow(s, aiColor, o, k), s, 0, aiColor, o).0;
  }

  lemma OnlyChildIsBest(root: Node)
    requires |MovesOf(root.children)| == 1
    ensures BestMove(root) == root.children[0].move
  {
  }

  /** The second iteration expands the root, which the first one only evaluated. */
  lemma SecondIterationExpands(s: GameState, aiColor: Color, o: Oracle, m: AIMove)
    requires NoEmptyStacks(s.board) && ValueBounded(o)
    requires GenerateLegalMoves(s, s.current) == [m] && !Terminal(s)
    ensures MovesOf(Grow(s, aiColor, o, 2).children) == [Some(m)]
  {
    var t1 := Grow(s, aiColor, o, 1);
    OneIterationFindsNothing(s, aiColor, o, 1);
    assert t1.children == [] && t1.visits == 1;
    var added := Expand([m], o.priors(s));
    assert MovesOf(added) == [Some(m)];
    assert t1.children + added == added;
    assert Grow(s, aiColor, o, 2) == Visit(t1, s, 0, aiColor, o).0;
  }
}
