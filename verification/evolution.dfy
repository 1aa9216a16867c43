/** EvolutionaryTrainer: a population of agents scored in a random tournament, ranked by
    normalised fitness, and replaced by elite clones plus mutated crossover children. Every
    random draw is a parameter: the opponent indices, the game results (each game's moves come
    from the agents' own `getBestMove`, which is not rerun here), the tournament picks and the
    network draws of every child. */
module Evolution {
  import opened Wrappers
  import opened Pieces
  import opened Boards
  import opened GameStates
  import opened WinCheck
  import opened AIMoves
  import Network
  import opened Agents
  import opened GameResults
  import opened Ranking

  const MutationRate: real := 0.1
  const MutationStrength: real := 0.05
  const EliteCount: nat := 5
  const TournamentSize: nat := 5
  const MaxMoves: nat := 100

  // ---------------------------------------------------------------- the population

  /** `initializePopulation`: agents 0 .. size - 1, each with two freshly initialised networks.
      Initialisation always seeds its generator with 42, so `seeded` is one fixed stream and
      the whole population starts from one and the same network. */
  function InitialPopulation(size: nat, seeded: Network.Pos -> real, sqrt: real -> real): (p: seq<Agent>)
    ensures |p| == size
    ensures forall k :: 0 <= k < size ==> p[k].id == k && Unscored(p[k]) && Shaped(p[k])
    ensures forall j, k :: 0 <= j < size && 0 <= k < size ==> p[j].policy == p[k].policy == p[k].value
  {
    var n := Network.Initial(seeded, sqrt);
    seq(size, k => NewAgent(n, n, k))
  }

  // ---------------------------------------------------------------- scoring one game

  predicate Won(r: GameResult, wasWhite: bool) {
    (wasWhite && r == WhiteWin) || (!wasWhite && r == BlackWin)
  }

  /** Fitness is the points collected: one per win, a half per draw. */
  predicate Consistent(a: Agent) {
    a.fitness == a.wins as real + 0.5 * a.draws as real
  }

  function Wins(a: Agent): nat { a.wins }
  function Losses(a: Agent): nat { a.losses }
  function Draws(a: Agent): nat { a.draws }

  /** `updateFitness`: a draw is worth half a point, a win a point, anything else (a loss) none;
      exactly one counter moves. */
  function UpdateFitness(a: Agent, r: GameResult, wasWhite: bool): (a': Agent)
    ensures SameGenome(a', a)
    ensures a'.wins + a'.losses + a'.draws == a.wins + a.losses + a.draws + 1
    ensures a'.draws == a.draws + 1 <==> r == Drawn
    ensures a'.wins == a.wins + 1 <==> r != Drawn && Won(r, wasWhite)
    ensures forall c :: CounterOf(a', c) == CounterOf(a, c) + (if CreditFor(r, wasWhite) == c then 1 else 0)
    ensures Consistent(a) ==> Consistent(a')
  {
    if r == Drawn then a.(fitness := a.fitness + 0.5, draws := a.draws + 1)
    else if Won(r, wasWhite) then a.(fitness := a.fitness + 1.0, wins := a.wins + 1)
    else a.(losses := a.losses + 1)
  }

  /** A counter summed over the population. */
  function Tally(pop: seq<Agent>, f: Agent -> nat): nat {
    if pop == [] then 0 else Tally(pop[..|pop| - 1], f) + f(pop[|pop| - 1])
  }

  lemma {:induction false} TallyUpdate(pop: seq<Agent>, k: nat, a: Agent, f: Agent -> nat)
    requires k < |pop|
    ensures Tally(pop[k := a], f) + f(pop[k]) == Tally(pop, f) + f(a)
    decreases |pop|
  {
    var last := |pop| - 1;
    if k < last {
      assert pop[k := a][..last] == pop[..last][k := a];
      TallyUpdate(pop[..last], k, a, f);
    } else {
      assert pop[k := a][..last] == pop[..last];
    }
  }

  lemma {:induction false} TallyPositive(pop: seq<Agent>, f: Agent -> nat)
    requires Tally(pop, f) > 0
    ensures exists k :: 0 <= k < |pop| && f(pop[k]) > 0
    decreases |pop|
  {
    if f(pop[|pop| - 1]) == 0 {
      TallyPositive(pop[..|pop| - 1], f);
      var k :| 0 <= k < |pop| - 1 && f(pop[..|pop| - 1][k]) > 0;
      assert pop[..|pop| - 1][k] == pop[k];
    }
  }

  predicate AllConsistent(pop: seq<Agent>) {
    forall k :: 0 <= k < |pop| ==> Consistent(pop[k])
  }

  function Played(pop: seq<Agent>): nat {
    Tally(pop, Wins) + Tally(pop, Losses) + Tally(pop, Draws)
  }

  /** The counter a game moves for one side. */
  datatype Credit = WinCredit | LossCredit | DrawCredit

  /** What a result earns the side that played white (`wasWhite`) or black. */
  function CreditFor(r: GameResult, wasWhite: bool): Credit {
    if r == Drawn then DrawCredit else if Won(r, wasWhite) then WinCredit else LossCredit
  }

  function CounterOf(a: Agent, c: Credit): nat {
    match c
    case WinCredit => a.wins
    case LossCredit => a.losses
    case DrawCredit => a.draws
  }

  /** How many credits `c` agent `k` earns from one game of `a` (white) against `o` (black). */
  function GameCount(a: nat, o: nat, r: GameResult, k: nat, c: Credit): nat {
    (if k == a && CreditFor(r, true) == c then 1 else 0) + (if k == o && CreditFor(r, false) == c then 1 else 0)
  }

  /** The two updates after one tournament game: the agent at `a` played white, the one at `o`
      black; when they are the same agent it is updated twice. Each side gains the one counter
      its side's result earns, so a game that ends adds one win and one loss, or two draws. */
  function ScoreGame(pop: seq<Agent>, a: nat, o: nat, r: GameResult): (pop': seq<Agent>)
    requires a < |pop| && o < |pop|
    ensures |pop'| == |pop|
    ensures forall k :: 0 <= k < |pop| ==> SameGenome(pop'[k], pop[k])
    ensures forall k :: 0 <= k < |pop| && k != a && k != o ==> pop'[k] == pop[k]
    ensures forall k, c :: 0 <= k < |pop| ==> CounterOf(pop'[k], c) == CounterOf(pop[k], c) + GameCount(a, o, r, k, c)
    ensures a != o && r == WhiteWin ==> pop'[a].wins == pop[a].wins + 1 && pop'[o].losses == pop[o].losses + 1
    ensures a != o && r == BlackWin ==> pop'[a].losses == pop[a].losses + 1 && pop'[o].wins == pop[o].wins + 1
    ensures a != o && r == Drawn ==> pop'[a].draws == pop[a].draws + 1 && pop'[o].draws == pop[o].draws + 1
    ensures AllConsistent(pop) ==> AllConsistent(pop')
    ensures Played(pop') == Played(pop) + 2
    ensures r != Ongoing ==> Tally(pop', Wins) + Tally(pop, Losses) == Tally(pop, Wins) + Tally(pop', Losses)
  {
    var p1 := pop[a := UpdateFitness(pop[a], r, true)];
    var p2 := p1[o := UpdateFitness(p1[o], r, false)];
    TallyUpdate(pop, a, p1[a], Wins);
    TallyUpdate(pop, a, p1[a], Losses);
    TallyUpdate(pop, a, p1[a], Draws);
    TallyUpdate(p1, o, p2[o], Wins);
    TallyUpdate(p1, o, p2[o], Losses);
    TallyUpdate(p1, o, p2[o], Draws);
    GameCredits(pop, a, o, r, p1, p2);
    p2
  }

  /** Per agent, the two updates of `ScoreGame` add exactly the credits `GameCount` counts. */
  lemma GameCredits(pop: seq<Agent>, a: nat, o: nat, r: GameResult, p1: seq<Agent>, p2: seq<Agent>)
    requires a < |pop| && o < |pop|
    requires p1 == pop[a := UpdateFitness(pop[a], r, true)]
    requires p2 == p1[o := UpdateFitness(p1[o], r, false)]
    ensures forall k, c :: 0 <= k < |pop| ==> CounterOf(p2[k], c) == CounterOf(pop[k], c) + GameCount(a, o, r, k, c)
    ensures a != o && r == WhiteWin ==> p2[a].wins == pop[a].wins + 1 && p2[o].losses == pop[o].losses + 1
    ensures a != o && r == BlackWin ==> p2[a].losses == pop[a].losses + 1 && p2[o].wins == pop[o].wins + 1
    ensures a != o && r == Drawn ==> p2[a].draws == pop[a].draws + 1 && p2[o].draws == pop[o].draws + 1
  {
    forall k, c | 0 <= k < |pop|
      ensures CounterOf(p2[k], c) == CounterOf(pop[k], c) + GameCount(a, o, r, k, c)
    {
      if k != o {
        assert p2[k] == p1[k];
      }
      if k != a {
        assert p1[k] == pop[k];
      }
    }
  }

  // ---------------------------------------------------------------- the tournament

  /** The reset at the start of `evaluateFitness`. */
  function Reset(pop: seq<Agent>): (r: seq<Agent>)
    ensures |r| == |pop|
    ensures forall k :: 0 <= k < |pop| ==> SameGenome(r[k], pop[k]) && Unscored(r[k])
  {
    seq(|pop|, k requires 0 <= k < |pop| => pop[k].(fitness := 0.0, wins := 0, losses := 0, draws := 0))
  }

  /** The opponent of agent `a` when the draw is `d`: the agent itself is replaced by the next
      one round the population, unless it is alone. */
  function Opponent(a: nat, d: nat, size: nat): (o: nat)
    requires a < size && d < size
    ensures o < size
    ensures size > 1 ==> o != a
    ensures o != d ==> d == a && size > 1
  {
    if d == a && size > 1 then (a + 1) % size else d
  }

  /** Draws for a tournament with `games` games per agent over `size` agents. */
  predicate TournamentDraws(size: nat, games: nat, opponents: seq<seq<nat>>, results: seq<seq<GameResult>>) {
    && |opponents| == size && |results| == size
    && (forall a :: 0 <= a < size ==> |opponents[a]| == games && |results[a]| == games)
    && (forall a, i :: 0 <= a < size && 0 <= i < games ==> opponents[a][i] < size)
    && (forall a, i :: 0 <= a < size && 0 <= i < games ==> results[a][i] != Ongoing)
  }

  /** The tournament loop of `evaluateFitness`: every agent plays `games` games as white against
      a drawn opponent. Game `i` of agent `a` has opponent draw `opponents[a][i]` and result
      `results[a][i]` (the source's `playGame` never reports a game as ongoing). */
  method Tournament(pop: seq<Agent>, games: nat, opponents: seq<seq<nat>>, results: seq<seq<GameResult>>)
    returns (out: seq<Agent>)
    requires TournamentDraws(|pop|, games, opponents, results)
    requires forall k :: 0 <= k < |pop| ==> Unscored(pop[k])
    ensures |out| == |pop|
    ensures forall k :: 0 <= k < |pop| ==> SameGenome(out[k], pop[k])
    ensures AllConsistent(out)
    ensures Played(out) == 2 * (|pop| * games)
    ensures Tally(out, Wins) == Tally(out, Losses)
    ensures forall k, c :: 0 <= k < |pop| ==> CounterOf(out[k], c) == TournamentCount(opponents, results, |pop|, k, c)
  {
    out := pop;
    ZeroTallies(pop);
    var a := 0;
    while a < |pop|
      invariant 0 <= a <= |pop| && |out| == |pop|
      invariant forall k :: 0 <= k < |pop| ==> SameGenome(out[k], pop[k])
      invariant AllConsistent(out)
      invariant Played(out) == 2 * (a * games) && Tally(out, Wins) == Tally(out, Losses)
      invariant forall k, c :: 0 <= k < |pop| ==>
                  CounterOf(out[k], c) == TournamentCount(opponents[..a], results[..a], |pop|, k, c)
    {
      var before := out;
      out := Round(out, a, opponents[a], results[a]);
      assert (a + 1) * games == a * games + games;
      assert opponents[..a + 1][..a] == opponents[..a] && results[..a + 1][..a] == results[..a];
      forall k, c | 0 <= k < |pop|
        ensures CounterOf(out[k], c) == TournamentCount(opponents[..a + 1], results[..a + 1], |pop|, k, c)
      {
        assert opponents[..a + 1][a] == opponents[a] && results[..a + 1][a] == results[a];
      }
      a := a + 1;
    }
    assert opponents[..|pop|] == opponents && results[..|pop|] == results;
  }

  /** How many credits `c` agent `k` earns over the games agent `a` plays as white against the
      drawn opponents, counted game by game. */
  function RoundCount(a: nat, opponents: seq<nat>, results: seq<GameResult>, size: nat, k: nat, c: Credit): nat
    requires a < size && |results| == |opponents|
    requires forall i :: 0 <= i < |opponents| ==> opponents[i] < size
    decreases |opponents|
  {
    if opponents == [] then 0
    else
      var n := |opponents| - 1;
      RoundCount(a, opponents[..n], results[..n], size, k, c) + GameCount(a, Opponent(a, opponents[n], size), results[n], k, c)
  }

  /** How many credits `c` agent `k` earns over the rounds of the first `|opponents|` agents. */
  function TournamentCount(opponents: seq<seq<nat>>, results: seq<seq<GameResult>>, size: nat, k: nat, c: Credit): nat
    requires |opponents| == |results| <= size
    requires forall a :: 0 <= a < |opponents| ==> |results[a]| == |opponents[a]|
    requires forall a, i :: 0 <= a < |opponents| && 0 <= i < |opponents[a]| ==> opponents[a][i] < size
    decreases |opponents|
  {
    if opponents == [] then 0
    else
      var n := |opponents| - 1;
      TournamentCount(opponents[..n], results[..n], size, k, c) + RoundCount(n, opponents[n], results[n], size, k, c)
  }

  /** The games of agent `a` in one tournament: it plays white against each drawn opponent in
      turn. Every game adds two to the games played, and a win for one side a loss for the other. */
  method Round(pop: seq<Agent>, a: nat, opponents: seq<nat>, results: seq<GameResult>)
    returns (out: seq<Agent>)
    requires a < |pop| && |results| == |opponents|
    requires forall i :: 0 <= i < |opponents| ==> opponents[i] < |pop| && results[i] != Ongoing
    ensures |out| == |pop|
    ensures forall k :: 0 <= k < |pop| ==> SameGenome(out[k], pop[k])
    ensures AllConsistent(pop) ==> AllConsistent(out)
    ensures Played(out) == Played(pop) + 2 * |opponents|
    ensures Tally(pop, Wins) == Tally(pop, Losses) ==> Tally(out, Wins) == Tally(out, Losses)
    ensures forall k, c :: 0 <= k < |pop| ==>
              CounterOf(out[k], c) == CounterOf(pop[k], c) + RoundCount(a, opponents, results, |pop|, k, c)
  {
    out := pop;
    var i := 0;
    while i < |opponents|
      invariant 0 <= i <= |opponents| && |out| == |pop|
      invariant forall k :: 0 <= k < |pop| ==> SameGenome(out[k], pop[k])
      invariant AllConsistent(pop) ==> AllConsistent(out)
      invariant Played(out) == Played(pop) + 2 * i
      invariant Tally(pop, Wins) == Tally(pop, Losses) ==> Tally(out, Wins) == Tally(out, Losses)
      invariant forall k, c :: 0 <= k < |pop| ==>
                  CounterOf(out[k], c) == CounterOf(pop[k], c) + RoundCount(a, opponents[..i], results[..i], |pop|, k, c)
    {
      var o := Opponent(a, opponents[i], |pop|);
      out := ScoreGame(out, a, o, results[i]);
      assert opponents[..i + 1][..i] == opponents[..i] && results[..i + 1][..i] == results[..i];
      assert opponents[..i + 1][i] == opponents[i] && results[..i + 1][i] == results[i];
      i := i + 1;
    }
    assert opponents[..i] == opponents && results[..i] == results;
  }

  lemma {:induction false} ZeroTallies(pop: seq<Agent>)
    requires forall k :: 0 <= k < |pop| ==> Unscored(pop[k])
    ensures Played(pop) == 0 && Tally(pop, Wins) == 0 && Tally(pop, Losses) == 0
    ensures AllConsistent(pop)
    decreases |pop|
  {
    if pop != [] {
      ZeroTallies(pop[..|pop| - 1]);
    }
  }

  // ---------------------------------------------------------------- normalisation

  function MaxFitness(pop: seq<Agent>): (m: real)
    requires pop != []
    ensures forall k :: 0 <= k < |pop| ==> pop[k].fitness <= m
    ensures exists k :: 0 <= k < |pop| && pop[k].fitness == m
  {
    if |pop| == 1 then pop[0].fitness
    else
      var m := MaxFitness(pop[..|pop| - 1]);
      assert forall k :: 0 <= k < |pop| - 1 ==> pop[..|pop| - 1][k] == pop[k];
      if pop[|pop| - 1].fitness > m then pop[|pop| - 1].fitness else m
  }

  /** The normalisation at the end of `evaluateFitness`: every fitness divided by the largest
      one when that is positive (the source's default of 1.0 for an empty population changes
      nothing, as there is nobody to divide). */
  function Normalize(pop: seq<Agent>): (r: seq<Agent>)
    requires forall k :: 0 <= k < |pop| ==> pop[k].fitness >= 0.0
    ensures |r| == |pop|
    ensures forall k :: 0 <= k < |pop| ==> r[k] == pop[k].(fitness := r[k].fitness)
    ensures forall k, c :: 0 <= k < |pop| ==> CounterOf(r[k], c) == CounterOf(pop[k], c)
    ensures forall k :: 0 <= k < |pop| ==> 0.0 <= r[k].fitness <= 1.0 || r[k] == pop[k]
    ensures (exists k :: 0 <= k < |pop| && pop[k].fitness > 0.0) ==>
              (forall k :: 0 <= k < |pop| ==> 0.0 <= r[k].fitness <= 1.0)
              && exists k :: 0 <= k < |pop| && r[k].fitness == 1.0
    ensures forall i, j :: 0 <= i < |pop| && 0 <= j < |pop| ==>
              (r[i].fitness <= r[j].fitness <==> pop[i].fitness <= pop[j].fitness)
  {
    if pop == [] then pop
    else
      var m := MaxFitness(pop);
      if m > 0.0 then
        var r := seq(|pop|, k requires 0 <= k < |pop| => pop[k].(fitness := pop[k].fitness / m));
        assert forall k :: 0 <= k < |pop| ==> r[k] == pop[k].(fitness := pop[k].fitness / m);
        ScaleBounds(pop, r, m);
        ScaleKeepsOrder(pop, r, m);
        r
      else
        assert forall k :: 0 <= k < |pop| ==> pop[k].fitness == 0.0;
        pop
  }

  lemma ScaleBounds(pop: seq<Agent>, r: seq<Agent>, m: real)
    requires pop != [] && m == MaxFitness(pop) && m > 0.0 && |r| == |pop|
    requires forall k :: 0 <= k < |pop| ==> pop[k].fitness >= 0.0
    requires forall k :: 0 <= k < |pop| ==> r[k].fitness == pop[k].fitness / m
    ensures forall k :: 0 <= k < |pop| ==> 0.0 <= r[k].fitness <= 1.0
    ensures exists k :: 0 <= k < |pop| && r[k].fitness == 1.0
  {
    forall k | 0 <= k < |pop|
      ensures 0.0 <= r[k].fitness <= 1.0
    {
      DivideBelow(pop[k].fitness, m);
    }
    var top :| 0 <= top < |pop| && pop[top].fitness == m;
    DivideSelf(m);
  }

  lemma ScaleKeepsOrder(pop: seq<Agent>, r: seq<Agent>, m: real)
    requires m > 0.0 && |r| == |pop|
    requires forall k :: 0 <= k < |pop| ==> r[k].fitness == pop[k].fitness / m
    ensures forall i, j :: 0 <= i < |pop| && 0 <= j < |pop| ==>
              (r[i].fitness <= r[j].fitness <==> pop[i].fitness <= pop[j].fitness)
  {
    forall i, j | 0 <= i < |pop| && 0 <= j < |pop|
      ensures r[i].fitness <= r[j].fitness <==> pop[i].fitness <= pop[j].fitness
    {
      DivideMonotone(pop[i].fitness, pop[j].fitness, m);
    }
  }

  lemma DivideSelf(m: real)
    requires m > 0.0
    ensures m / m == 1.0
  {
  }

  lemma DivideBelow(x: real, m: real)
    requires 0.0 <= x <= m && m > 0.0
    ensures 0.0 <= x / m <= 1.0
  {
  }

  lemma DivideMonotone(x: real, y: real, m: real)
    requires m > 0.0
    ensures x / m <= y / m <==> x <= y
  {
  }

  /** Points of an agent: wins plus half the draws. */
  function Points(a: Agent): real {
    a.wins as real + 0.5 * a.draws as real
  }

  /** `evaluateFitness`: reset, tournament, normalisation. Afterwards every fitness lies in
      [0, 1], the order of fitness is the order of points, and when at least one game was
      played the best agent has fitness exactly 1. */
  method EvaluateFitness(pop: seq<Agent>, games: nat, opponents: seq<seq<nat>>, results: seq<seq<GameResult>>)
    returns (out: seq<Agent>)
    requires TournamentDraws(|pop|, games, opponents, results)
    ensures |out| == |pop|
    ensures forall k :: 0 <= k < |pop| ==> SameGenome(out[k], pop[k])
    ensures Played(out) == 2 * (|pop| * games)
    ensures forall k :: 0 <= k < |pop| ==> 0.0 <= out[k].fitness <= 1.0
    ensures forall i, j :: 0 <= i < |pop| && 0 <= j < |pop| ==>
              (out[i].fitness <= out[j].fitness <==> Points(out[i]) <= Points(out[j]))
    ensures |pop| > 0 && games > 0 ==> exists k :: 0 <= k < |pop| && out[k].fitness == 1.0
    ensures forall k, c :: 0 <= k < |pop| ==> CounterOf(out[k], c) == TournamentCount(opponents, results, |pop|, k, c)
  {
    var reset := Reset(pop);
    var scored := Tournament(reset, games, opponents, results);
    if |pop| > 0 && games > 0 {
      SomeoneScored(scored, games);
    }
    out := Normalize(scored);
    TalliesIgnoreFitness(scored, out);
    NormalizedPoints(scored, out);
  }

  /** Fitness that equals points, normalised: the order of fitness is the order of points. */
  lemma NormalizedPoints(scored: seq<Agent>, out: seq<Agent>)
    requires forall k :: 0 <= k < |scored| ==> scored[k].fitness == Points(scored[k]) >= 0.0
    requires out == Normalize(scored)
    ensures forall i, j :: 0 <= i < |out| && 0 <= j < |out| ==>
              (out[i].fitness <= out[j].fitness <==> Points(out[i]) <= Points(out[j]))
  {
    forall k | 0 <= k < |out| ensures Points(out[k]) == scored[k].fitness {
      assert out[k] == scored[k].(fitness := out[k].fitness);
    }
  }

  /** After at least one game some agent has a positive fitness: every game hands out a win or
      two draws. */
  lemma SomeoneScored(pop: seq<Agent>, games: nat)
    requires |pop| > 0 && games > 0 && AllConsistent(pop)
    requires Played(pop) == 2 * (|pop| * games) && Tally(pop, Wins) == Tally(pop, Losses)
    ensures exists k :: 0 <= k < |pop| && pop[k].fitness > 0.0
  {
    assert |pop| * games > 0;
    if Tally(pop, Wins) > 0 {
      TallyPositive(pop, Wins);
    } else {
      TallyPositive(pop, Draws);
    }
  }

  /** Rescaling fitness leaves the counters alone. */
  lemma {:induction false} TalliesIgnoreFitness(pop: seq<Agent>, r: seq<Agent>)
    requires |r| == |pop|
    requires forall k :: 0 <= k < |pop| ==> r[k] == pop[k].(fitness := r[k].fitness)
    ensures Tally(r, Wins) == Tally(pop, Wins) && Tally(r, Losses) == Tally(pop, Losses)
    ensures Tally(r, Draws) == Tally(pop, Draws)
    decreases |pop|
  {
    if pop != [] {
      var n := |pop| - 1;
      TalliesIgnoreFitness(pop[..n], r[..n]);
      assert r[n].wins == pop[n].wins && r[n].losses == pop[n].losses && r[n].draws == pop[n].draws;
    }
  }

  // ---------------------------------------------------------------- ranking and breeding

  predicate Descending(s: seq<Agent>) {
    forall i, j :: 0 <= i < j < |s| ==> s[i].fitness >= s[j].fitness
  }

  /** The agents of fitness `f`, in their order in `s`. */
  function WithFitness(s: seq<Agent>, f: real): seq<Agent> {
    if s == [] then []
    else (if s[0].fitness == f then [s[0]] else []) + WithFitness(s[1..], f)
  }

  lemma WithFitnessCons(a: Agent, s: seq<Agent>, f: real)
    ensures WithFitness([a] + s, f) == (if a.fitness == f then [a] else []) + WithFitness(s, f)
  {
    assert ([a] + s)[1..] == s;
  }

  /** Insertion ahead of the first agent that is not fitter, so agents of equal fitness keep
      their order and the new agent goes ahead of them. */
  function Insert(a: Agent, s: seq<Agent>): (r: seq<Agent>)
    requires Descending(s)
    ensures Descending(r)
    ensures multiset(r) == multiset(s) + multiset{a}
    ensures forall i :: 0 <= i < |r| ==> r[i] == a || r[i] in s
    ensures forall f :: WithFitness(r, f) == (if a.fitness == f then [a] else []) + WithFitness(s, f)
  {
    if s == [] || a.fitness >= s[0].fitness then
      InsertFrontStable(a, s);
      [a] + s
    else
      var rest := Insert(a, s[1..]);
      PrependHead(a, s, rest);
      assert s == [s[0]] + s[1..];
      InsertBehindStable(a, s, rest);
      [s[0]] + rest
  }

  lemma InsertFrontStable(a: Agent, s: seq<Agent>)
    ensures forall f :: WithFitness([a] + s, f) == (if a.fitness == f then [a] else []) + WithFitness(s, f)
  {
    forall f ensures WithFitness([a] + s, f) == (if a.fitness == f then [a] else []) + WithFitness(s, f) {
      WithFitnessCons(a, s, f);
    }
  }

  /** An agent fitter than `a` stays ahead of it, so `a` is still first among its equals. */
  lemma InsertBehindStable(a: Agent, s: seq<Agent>, rest: seq<Agent>)
    requires s != [] && a.fitness < s[0].fitness
    requires forall f :: WithFitness(rest, f) == (if a.fitness == f then [a] else []) + WithFitness(s[1..], f)
    ensures forall f :: WithFitness([s[0]] + rest, f) == (if a.fitness == f then [a] else []) + WithFitness(s, f)
  {
    forall f ensures WithFitness([s[0]] + rest, f) == (if a.fitness == f then [a] else []) + WithFitness(s, f) {
      BehindOne(a, s, rest, f);
    }
  }

  lemma BehindOne(a: Agent, s: seq<Agent>, rest: seq<Agent>, f: real)
    requires s != [] && a.fitness < s[0].fitness
    requires WithFitness(rest, f) == (if a.fitness == f then [a] else []) + WithFitness(s[1..], f)
    ensures WithFitness([s[0]] + rest, f) == (if a.fitness == f then [a] else []) + WithFitness(s, f)
  {
    var head := if s[0].fitness == f then [s[0]] else [];
    var mine := if a.fitness == f then [a] else [];
    var w := WithFitness(s[1..], f);
    WithFitnessCons(s[0], rest, f);
    assert WithFitness(s, f) == head + w;
    if a.fitness == f {
      assert head == [];
      assert head + (mine + w) == mine + w == mine + (head + w);
    } else {
      assert mine == [];
      assert head + (mine + w) == head + w == mine + (head + w);
    }
  }

  /** The head of `s` goes back in front of the insertion into the rest of `s`. */
  lemma PrependHead(a: Agent, s: seq<Agent>, rest: seq<Agent>)
    requires Descending(s) && s != [] && a.fitness < s[0].fitness && Descending(rest)
    requires forall i :: 0 <= i < |rest| ==> rest[i] == a || rest[i] in s[1..]
    ensures Descending([s[0]] + rest)
    ensures forall i :: 0 <= i < |rest| + 1 ==> ([s[0]] + rest)[i] == a || ([s[0]] + rest)[i] in s
  {
    forall i | 0 <= i < |rest|
      ensures rest[i].fitness <= s[0].fitness && (rest[i] == a || rest[i] in s)
    {
      if rest[i] != a {
        var j :| 0 <= j < |s[1..]| && s[1..][j] == rest[i];
        assert s[j + 1] == rest[i];
      }
    }
  }

  /** `population.sort` by descending fitness, a stable sort: agents of equal fitness keep their
      order. */
  function SortByFitness(s: seq<Agent>): (r: seq<Agent>)
    ensures Descending(r)
    ensures multiset(r) == multiset(s)
    ensures forall f :: WithFitness(r, f) == WithFitness(s, f)
  {
    if s == [] then []
    else
      assert s == [s[0]] + s[1..];
      var r := Insert(s[0], SortByFitness(s[1..]));
      forall f ensures WithFitness(r, f) == WithFitness(s, f) {
        WithFitnessCons(s[0], s[1..], f);
      }
      r
  }

  /** `selectParent`: five agents drawn with replacement; the first of the fittest wins. */
  function SelectParent(pop: seq<Agent>, picks: seq<nat>): (p: Agent)
    requires |picks| == TournamentSize && forall k :: 0 <= k < |picks| ==> picks[k] < |pop|
    ensures exists k :: && 0 <= k < |picks| && p == pop[picks[k]]
                        && (forall j :: 0 <= j < |picks| ==> pop[picks[j]].fitness <= p.fitness)
                        && (forall j :: 0 <= j < k ==> pop[picks[j]].fitness < p.fitness)
  {
    var fs := seq(|picks|, j requires 0 <= j < |picks| => pop[picks[j]].fitness);
    var k := ArgMax(fs);
    assert forall j :: 0 <= j < |picks| ==> fs[j] == pop[picks[j]].fitness;
    pop[picks[k]]
  }

  /** `crossover`: both networks mixed element by element; the child has id -1 and no score. */
  function Crossover(p1: Agent, p2: Agent, policyHeads: Network.Pos -> bool, valueHeads: Network.Pos -> bool)
    : (c: Agent)
    requires Shaped(p1) && Shaped(p2)
    ensures Shaped(c) && c.id == -1 && Unscored(c)
    ensures c.policy == Network.Crossover(p1.policy, p2.policy, policyHeads)
    ensures c.value == Network.Crossover(p1.value, p2.value, valueHeads)
  {
    NewAgent(Network.Crossover(p1.policy, p2.policy, policyHeads),
             Network.Crossover(p1.value, p2.value, valueHeads), -1)
  }

  /** The draws one child consumes: two tournaments, two coin streams, one mutation. */
  datatype ChildDraws = ChildDraws(first: seq<nat>, second: seq<nat>, policyHeads: Network.Pos -> bool,
                                   valueHeads: Network.Pos -> bool, mutation: MutationDraws)

  predicate Drawable(d: ChildDraws, size: nat) {
    && |d.first| == TournamentSize && |d.second| == TournamentSize
    && (forall k :: 0 <= k < TournamentSize ==> d.first[k] < size && d.second[k] < size)
  }

  /** One child of the breeding loop: two parents, crossover, mutation at rate 0.1 and strength
      0.05. */
  function Breed(pop: seq<Agent>, d: ChildDraws): (c: Agent)
    requires Drawable(d, |pop|) && forall k :: 0 <= k < |pop| ==> Shaped(pop[k])
    ensures Shaped(c) && c.id == -1 && Unscored(c)
  {
    var p1 := SelectParent(pop, d.first);
    var p2 := SelectParent(pop, d.second);
    Mutate(Crossover(p1, p2, d.policyHeads, d.valueHeads), MutationRate, MutationStrength, d.mutation)
  }

  /** In a population where every agent carries the same networks, as the initial one does,
      crossover contributes nothing: a child is a mutation of those networks. */
  lemma BreedUniform(pop: seq<Agent>, d: ChildDraws, policy: Network.Net, value: Network.Net)
    requires Drawable(d, |pop|) && forall k :: 0 <= k < |pop| ==> Shaped(pop[k])
    requires forall k :: 0 <= k < |pop| ==> pop[k].policy == policy && pop[k].value == value
    ensures Breed(pop, d).policy
              == Network.Mutate(policy, MutationRate, MutationStrength, d.mutation.policyUniform, d.mutation.policyGauss)
    ensures Breed(pop, d).value
              == Network.Mutate(value, MutationRate, MutationStrength, d.mutation.valueUniform, d.mutation.valueGauss)
  {
    var x := Crossover(SelectParent(pop, d.first), SelectParent(pop, d.second), d.policyHeads, d.valueHeads);
    assert x.policy == policy && x.value == value by {
      UniformParents(pop, d, policy, value);
      assert Shaped(pop[d.first[0]]);
      Network.CrossoverSelf(policy, d.policyHeads);
      Network.CrossoverSelf(value, d.valueHeads);
    }
  }

  /** Both tournaments pick an agent, so in a uniform population both parents carry its networks. */
  lemma UniformParents(pop: seq<Agent>, d: ChildDraws, policy: Network.Net, value: Network.Net)
    requires Drawable(d, |pop|)
    requires forall k :: 0 <= k < |pop| ==> pop[k].policy == policy && pop[k].value == value
    ensures SelectParent(pop, d.first).policy == policy && SelectParent(pop, d.first).value == value
    ensures SelectParent(pop, d.second).policy == policy && SelectParent(pop, d.second).value == value
  {
  }

  function EliteSize(size: nat): nat {
    Min(EliteCount, size)
  }

  /** The elitism loop: clones of the first (at most) five agents. */
  function Elites(ranked: seq<Agent>): (es: seq<Agent>)
    requires forall k :: 0 <= k < |ranked| ==> Shaped(ranked[k])
    ensures |es| == EliteSize(|ranked|)
    ensures forall k :: 0 <= k < |es| ==> SameGenome(es[k], ranked[k]) && Unscored(es[k]) && Shaped(es[k])
  {
    var es := seq(EliteSize(|ranked|), k requires 0 <= k < EliteSize(|ranked|) => Clone(ranked[k]));
    assert forall k :: 0 <= k < |es| ==> es[k] == Clone(ranked[k]) && Shaped(es[k]);
    es
  }

  /** The breeding loop: one child per set of draws. */
  function Children(ranked: seq<Agent>, draws: seq<ChildDraws>): (cs: seq<Agent>)
    requires forall k :: 0 <= k < |ranked| ==> Shaped(ranked[k])
    requires forall k :: 0 <= k < |draws| ==> Drawable(draws[k], |ranked|)
    ensures |cs| == |draws|
    ensures forall k :: 0 <= k < |cs| ==> cs[k] == Breed(ranked, draws[k])
    ensures forall k :: 0 <= k < |cs| ==> cs[k].id == -1 && Unscored(cs[k]) && Shaped(cs[k])
  {
    seq(|draws|, k requires 0 <= k < |draws| => Breed(ranked, draws[k]))
  }

  /** The next generation of `evolve`, built from the ranked population: clones of the first
      five, then bred children until the population size is reached. */
  function NextGeneration(ranked: seq<Agent>, draws: seq<ChildDraws>): (next: seq<Agent>)
    requires forall k :: 0 <= k < |ranked| ==> Shaped(ranked[k])
    requires |draws| == |ranked| - EliteSize(|ranked|)
    requires forall k :: 0 <= k < |draws| ==> Drawable(draws[k], |ranked|)
    ensures |next| == |ranked|
    ensures forall k :: 0 <= k < |next| ==> Shaped(next[k]) && Unscored(next[k])
    ensures forall k :: 0 <= k < EliteSize(|ranked|) ==> SameGenome(next[k], ranked[k])
    ensures next[..EliteSize(|ranked|)] == Elites(ranked)
    ensures next[EliteSize(|ranked|)..] == Children(ranked, draws)
  {
    Elites(ranked) + Children(ranked, draws)
  }

  /** One generation of `evolve`: evaluate, rank, breed. `scored` is the population after the
      tournament, in its original order; the ranking is a stable permutation of it in descending
      fitness; the next generation is the elites of the ranking followed by the children bred
      from it. */
  method Generation(pop: seq<Agent>, games: nat, opponents: seq<seq<nat>>, results: seq<seq<GameResult>>,
                    draws: seq<ChildDraws>)
    returns (scored: seq<Agent>, ranked: seq<Agent>, next: seq<Agent>)
    requires forall k :: 0 <= k < |pop| ==> Shaped(pop[k])
    requires TournamentDraws(|pop|, games, opponents, results)
    requires |draws| == |pop| - EliteSize(|pop|)
    requires forall k :: 0 <= k < |draws| ==> Drawable(draws[k], |pop|)
    ensures |scored| == |pop| && forall k :: 0 <= k < |pop| ==> SameGenome(scored[k], pop[k])
    ensures forall k, c :: 0 <= k < |pop| ==> CounterOf(scored[k], c) == TournamentCount(opponents, results, |pop|, k, c)
    ensures multiset(ranked) == multiset(scored)
    ensures forall f :: WithFitness(ranked, f) == WithFitness(scored, f)
    ensures |ranked| == |pop| && |next| == |pop|
    ensures Descending(ranked)
    ensures forall k :: 0 <= k < |ranked| ==> 0.0 <= ranked[k].fitness <= 1.0
    ensures forall k :: 0 <= k < |ranked| ==> exists j :: 0 <= j < |pop| && SameGenome(ranked[k], pop[j])
    ensures forall k :: 0 <= k < |next| ==> Shaped(next[k]) && Unscored(next[k])
    ensures forall k :: 0 <= k < EliteSize(|pop|) ==> SameGenome(next[k], ranked[k])
    ensures forall k :: 0 <= k < |ranked| ==> Shaped(ranked[k])
    ensures next == NextGeneration(ranked, draws)
  {
    scored := EvaluateFitness(pop, games, opponents, results);
    ranked := SortByFitness(scored);
    assert |ranked| == |multiset(ranked)| == |multiset(scored)| == |scored|;
    forall k | 0 <= k < |ranked|
      ensures 0.0 <= ranked[k].fitness <= 1.0
      ensures exists j :: 0 <= j < |pop| && SameGenome(ranked[k], pop[j])
      ensures Shaped(ranked[k])
    {
      assert ranked[k] in multiset(scored);
      var j :| 0 <= j < |scored| && scored[j] == ranked[k];
    }
    next := NextGeneration(ranked, draws);
  }

  // ---------------------------------------------------------------- one tournament game

  /** What the side to move's `getBestMove` did: a move, no move, or an exception. */
  datatype Choice = Chose(m: AIMove) | NoMove | Threw

  /** Why a game ended. */
  datatype GameEnd = Surrounded | Stuck | Failed | Timeout

  datatype GameRecord = GameRecord(result: GameResult, final: GameState, plies: nat, end: GameEnd)

  /** The loop of `playGame` from turn `turn` on. `choose` answers for the side to move (white
      is the first agent, black the second) at the given turn. */
  function Play(s: GameState, turn: nat, choose: (GameState, nat) -> Choice): (g: GameRecord)
    requires NoEmptyStacks(s.board) && turn <= MaxMoves && CheckWin(s.board).None?
    ensures turn <= g.plies <= MaxMoves && NoEmptyStacks(g.final.board)
    ensures g.result != Ongoing
    ensures g.end == Surrounded <==> CheckWin(g.final.board).Some?
    ensures g.end == Surrounded ==> g.result == Announced(CheckWin(g.final.board).value)
    ensures g.end != Surrounded ==> g.result == Drawn
    ensures g.end == Timeout ==> g.plies == MaxMoves
    decreases MaxMoves - turn
  {
    if turn == MaxMoves then GameRecord(Drawn, s, turn, Timeout)
    else match choose(s, turn)
      case Threw => GameRecord(Drawn, s, turn, Failed)
      case NoMove => GameRecord(Drawn, s, turn, Stuck)
      case Chose(m) =>
        match Execute(s, m)
        case None => GameRecord(Drawn, s, turn, Failed)
        case Some(t) =>
          ExecuteKeepsStacks(s, m);
          match CheckWin(t.board)
          case Some(o) =>
            ReadingsInvertMessage(o);
            GameRecord(TournamentReading(Message(o)).value, t, turn + 1, Surrounded)
          case None => Play(NextPlayer(t), turn + 1, choose)
  }

  /** `playGame`: at most 100 moves from the opening position; a surrounded queen decides it,
      anything else (no move, an exception, the move limit) is a draw. */
  function PlayGame(choose: (GameState, nat) -> Choice): (g: GameRecord)
    ensures g.plies <= MaxMoves && g.result != Ongoing
    ensures g.result == WhiteWin <==>
              (g.end == Surrounded && QueenSurrounded(g.final.board, Black) && !QueenSurrounded(g.final.board, White))
    ensures g.result == BlackWin <==>
              (g.end == Surrounded && QueenSurrounded(g.final.board, White) && !QueenSurrounded(g.final.board, Black))
    ensures g.result == Drawn <==>
              (g.end != Surrounded || (QueenSurrounded(g.final.board, White) && QueenSurrounded(g.final.board, Black)))
  {
    var s := Initial();
    assert forall c :: c !in s.board;
    var g := Play(s, 0, choose);
    if g.end == Surrounded then
      CheckWinAnnounced(g.final.board);
      g
    else g
  }

  /** What an announced result says about the two queens. */
  lemma CheckWinAnnounced(b: Board)
    requires NoEmptyStacks(b) && CheckWin(b).Some?
    ensures var r := Announced(CheckWin(b).value);
            && (r == WhiteWin <==> QueenSurrounded(b, Black) && !QueenSurrounded(b, White))
            && (r == BlackWin <==> QueenSurrounded(b, White) && !QueenSurrounded(b, Black))
            && (r == Drawn <==> QueenSurrounded(b, White) && QueenSurrounded(b, Black))
  {
  }

  // ---------------------------------------------------------------- the generations

  /** The random draws of one generation. */
  datatype GenerationDraws = GenerationDraws(opponents: seq<seq<nat>>, results: seq<seq<GameResult>>,
                                             children: seq<ChildDraws>)

  predicate GenerationReady(size: nat, games: nat, d: GenerationDraws) {
    && TournamentDraws(size, games, d.opponents, d.results)
    && |d.children| == size - EliteSize(size)
    && forall k :: 0 <= k < |d.children| ==> Drawable(d.children[k], size)
  }

  /** `evolve`: the generation loop, then the save of the best agent (the saves themselves are
      left out). Both the statistics of every generation and the final save read the population's
      first agent, so an empty population throws, however many generations are asked for.
      Otherwise the population size never changes and every agent keeps well-shaped networks. */
  method Evolve(pop: seq<Agent>, games: nat, gens: seq<GenerationDraws>) returns (r: Result<seq<Agent>>)
    requires forall k :: 0 <= k < |pop| ==> Shaped(pop[k])
    requires forall g :: 0 <= g < |gens| ==> GenerationReady(|pop|, games, gens[g])
    ensures r.Err? <==> pop == []
    ensures r.Ok? ==> |r.value| == |pop|
    ensures r.Ok? ==> forall k :: 0 <= k < |r.value| ==> Shaped(r.value[k])
    ensures r.Ok? && |gens| > 0 ==> forall k :: 0 <= k < |r.value| ==> Unscored(r.value[k])
  {
    if pop == [] {
      return Err("IndexOutOfBoundsException");
    }
    var last := pop;
    var g := 0;
    while g < |gens|
      invariant 0 <= g <= |gens| && |last| == |pop|
      invariant forall k :: 0 <= k < |last| ==> Shaped(last[k])
      invariant g > 0 ==> forall k :: 0 <= k < |last| ==> Unscored(last[k])
    {
      var scored, ranked;
      scored, ranked, last := Generation(last, games, gens[g].opponents, gens[g].results, gens[g].children);
      g := g + 1;
    }
    r := Ok(last);
  }
}
