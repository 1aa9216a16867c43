/** SelfPlayTrainer, the games: one agent plays both sides, every ply becomes an experience,
    rewards are discounted back from the result, and experiences go into a bounded replay
    buffer. The agent's moves are a parameter. */
module SelfPlay {
  import opened Wrappers
  import opened Pieces
  import opened Boards
  import opened GameStates
  import opened WinCheck
  import opened AIMoves
  import opened HiveAI
  import opened GameResults
  import opened Ranking
  import opened Experiences

  const MaxBufferSize: nat := 10000
  const Discount: real := 0.99

  // ---------------------------------------------------------------- one self-play game

  /** `encodeGameState` from the mover's side: the board window's one-hot top pieces, then the
      game-phase scalars. */
  method Encode(s: GameState, mover: Color) returns (features: seq<real>)
    ensures |features| == FeatureCount
    ensures forall i :: 0 <= i < BoardFeatures ==> features[i] == BoardFeature(s.board, mover, i)
    ensures forall i :: BoardFeatures <= i < FeatureCount ==> features[i] == ScalarFeature(s, mover, i)
  {
    features := EncodeGameState(s, mover);
  }

  /** One ply of a self-play game: encode, execute, encode again from the mover's side, and read
      the win message, if any, into the experience's result. `None` when `execute` throws. */
  method Ply(s: GameState, m: AIMove) returns (r: Option<(Experience, GameState)>)
    requires NoEmptyStacks(s.board)
    ensures r.None? <==> Execute(s, m).None?
    ensures r.Some? ==> r.value.1 == Execute(s, m).value && NoEmptyStacks(r.value.1.board)
    ensures r.Some? ==> Encoded(r.value.0) && r.value.0.reward == 0.0 && r.value.0.move == m
    ensures r.Some? ==> Records(r.value.0, r.value.1.board)
  {
    var before := Encode(s, s.current);
    var next := Execute(s, m);
    if next.None? {
      return None;
    }
    ExecuteKeepsStacks(s, m);
    var t := next.value;
    var after := Encode(t, s.current);
    var win := CheckWin(t.board);
    var result := Ongoing;
    if win.Some? {
      ReadingsInvertMessage(win.value);
      result := SelfPlayReading(Message(win.value));
    }
    r := Some((Experience(before, m, after, 0.0, result), t));
  }

  /** `playSelfPlayGame`: up to 100 plies from the initial position; `choose` is the agent's
      `getBestMove` for the side to move at the given turn. An exception in `execute` is not
      caught and ends the training (`Err`). Only the last experience may carry a result, the one
      the win message announces; `final` is the position after the last move. */
  method PlaySelfPlayGame(choose: (GameState, nat) -> Option<AIMove>)
    returns (r: Result<seq<Experience>>, final: GameState)
    ensures NoEmptyStacks(final.board)
    ensures r.Ok? ==> GameHistory(r.value, final.board)
  {
    var s := Initial();
    assert forall c :: c !in s.board;
    r, final := PlayFrom(s, 0, [], choose);
  }

  /** The loop of `playSelfPlayGame` from turn `turn`, with the experiences so far. */
  method PlayFrom(s: GameState, turn: nat, history: seq<Experience>, choose: (GameState, nat) -> Option<AIMove>)
    returns (r: Result<seq<Experience>>, final: GameState)
    requires NoEmptyStacks(s.board) && turn <= MaxMoves && |history| == turn
    requires GameHistory(history, s.board) && AllOngoing(history)
    ensures NoEmptyStacks(final.board)
    ensures r.Ok? ==> GameHistory(r.value, final.board)
    decreases MaxMoves - turn
  {
    if turn == MaxMoves {
      return Ok(history), s;
    }
    var move := choose(s, turn);
    if move.None? {
      return Ok(history), s;
    }
    var ply := Ply(s, move.value);
    if ply.None? {
      return Err("exception in execute"), s;
    }
    var e := ply.value.0;
    var t := ply.value.1;
    ExtendHistory(history, s.board, e, t.board);
    if e.result != Ongoing {
      return Ok(history + [e]), t;
    }
    var next := NextPlayer(t);
    assert next.board == t.board;
    r, final := PlayFrom(next, turn + 1, history + [e], choose);
  }

  // ---------------------------------------------------------------- rewards

  function Pow(x: real, n: nat): real {
    if n == 0 then 1.0 else x * Pow(x, n - 1)
  }

  lemma {:induction false} PowBounds(n: nat)
    ensures 0.0 < Pow(Discount, n) <= 1.0
  {
    if n > 0 {
      PowBounds(n - 1);
    }
  }

  /** Ply `i` was made by the winner: white moves on even plies, black on odd ones. */
  predicate WinnerPly(result: GameResult, i: nat) {
    (result == WhiteWin && i % 2 == 0) || (result == BlackWin && i % 2 == 1)
  }

  /** The reward of ply `i` of `n`: a half for every ply of a draw; otherwise the winner's plies
      get 0.99 to the power of their distance from the end and the other plies the complement.
      A game cut off at the move limit (still ongoing) has no winner, so every ply gets the
      complement. */
  function RewardAt(result: GameResult, n: nat, i: nat): real
    requires i < n
  {
    if result == Drawn then 0.5
    else if WinnerPly(result, i) then Pow(Discount, n - 1 - i)
    else 1.0 - Pow(Discount, n - 1 - i)
  }

  /** `assignRewards`: the backward loop with a running discount. */
  method AssignRewards(history: seq<Experience>, result: GameResult) returns (out: seq<Experience>)
    ensures |out| == |history|
    ensures forall i :: 0 <= i < |history| ==> out[i] == history[i].(reward := RewardAt(result, |history|, i))
  {
    var start := if result == Drawn then 0.5 else 1.0;
    var finalReward := start;
    out := history;
    var i := |history|;
    while i > 0
      invariant 0 <= i <= |history| && |out| == |history|
      invariant finalReward == start * Pow(Discount, |history| - i)
      invariant forall k :: i <= k < |history| ==> out[k] == history[k].(reward := RewardAt(result, |history|, k))
      invariant forall k :: 0 <= k < i ==> out[k] == history[k]
    {
      i := i - 1;
      var isWinner := (result == WhiteWin && i % 2 == 0) || (result == BlackWin && i % 2 == 1);
      var reward := if result == Drawn then 0.5 else if isWinner then finalReward else 1.0 - finalReward;
      out := out[i := out[i].(reward := reward)];
      finalReward := finalReward * Discount;
    }
  }

  /** Every reward lies in [0, 1]; in a decided game the last ply gets 1 if the winner made it
      and 0 otherwise, and a winner's ply never gets less than the other side's ply made at the
      same distance from the end. */
  lemma RewardFacts(result: GameResult, n: nat, i: nat)
    requires i < n
    ensures 0.0 <= RewardAt(result, n, i) <= 1.0
    ensures result != Drawn && i == n - 1 ==> RewardAt(result, n, i) == (if WinnerPly(result, i) then 1.0 else 0.0)
  {
    PowBounds(n - 1 - i);
  }

  /** Higher powers of the discount are smaller. */
  lemma {:induction false} PowAntitone(a: nat, b: nat)
    requires a <= b
    ensures Pow(Discount, b) <= Pow(Discount, a)
    decreases b - a
  {
    if a < b {
      PowAntitone(a, b - 1);
      PowBounds(b - 1);
    }
  }

  /** In a decided game the winner's rewards grow towards the last ply and the other side's
      shrink. */
  lemma RewardsTrend(result: GameResult, n: nat, i: nat, j: nat)
    requires i <= j < n && result != Drawn
    ensures WinnerPly(result, i) && WinnerPly(result, j) ==> RewardAt(result, n, i) <= RewardAt(result, n, j)
    ensures !WinnerPly(result, i) && !WinnerPly(result, j) ==> RewardAt(result, n, j) <= RewardAt(result, n, i)
  {
    PowAntitone(n - 1 - j, n - 1 - i);
  }

  /** A game cut off at the move limit keeps the result `ONGOING`, which is neither a draw nor a
      win: every ply is rewarded as a loser's, and the last one gets 0. */
  lemma OngoingRewardedAsLoss(n: nat, i: nat)
    requires i < n
    ensures RewardAt(Ongoing, n, i) == 1.0 - Pow(Discount, n - 1 - i)
    ensures RewardAt(Ongoing, n, n - 1) == 0.0
  {
  }

  // ---------------------------------------------------------------- the replay buffer

  /** `replayBuffer.addAll` followed by the trim to the newest 10000. */
  function AddToBuffer(buffer: seq<Experience>, history: seq<Experience>): (b: seq<Experience>)
    ensures |b| == Min(|buffer| + |history|, MaxBufferSize)
    ensures b == (buffer + history)[|buffer| + |history| - |b|..]
  {
    var all := buffer + history;
    if |all| > MaxBufferSize then all[|all| - MaxBufferSize..] else all
  }

  /** The newest experiences survive: the game just played is at the end of the buffer, all of
      it when it is not longer than the buffer. */
  lemma AddKeepsNewest(buffer: seq<Experience>, history: seq<Experience>)
    requires |history| <= MaxBufferSize
    ensures var b := AddToBuffer(buffer, history);
            |b| >= |history| && b[|b| - |history|..] == history
  {
    var b := AddToBuffer(buffer, history);
    var all := buffer + history;
    assert all[|all| - |history|..] == history;
    assert b[|b| - |history|..] == all[|all| - |history|..];
  }
}
