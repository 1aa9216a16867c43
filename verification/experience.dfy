/** GameExperience, and what a self-play game leaves behind in its list of experiences. */
module Experiences {
  import opened Boards
  import opened WinCheck
  import opened AIMoves
  import opened HiveAI
  import opened GameResults

  /** A self-play game stops after this many plies. */
  const MaxMoves: nat := 100

  /** `GameExperience`: encodings before and after the move, from the mover's point of view. */
  datatype Experience = Experience(before: seq<real>, move: AIMove, after: seq<real>, reward: real,
                                   result: GameResult)

  predicate Encoded(e: Experience) {
    |e.before| == FeatureCount && |e.after| == FeatureCount
  }

  /** Every experience of a history as the game leaves it: both encodings full, no reward yet. */
  predicate Unrewarded(h: seq<Experience>) {
    forall i :: 0 <= i < |h| ==> Encoded(h[i]) && h[i].reward == 0.0
  }

  lemma AppendUnrewarded(h: seq<Experience>, e: Experience)
    requires Unrewarded(h) && Encoded(e) && e.reward == 0.0
    ensures Unrewarded(h + [e])
  {
    assert forall i :: 0 <= i < |h| ==> (h + [e])[i] == h[i];
  }

  /** The experience records what the board announces: `ONGOING` when no queen is surrounded,
      otherwise the result of the win message. */
  predicate Records(e: Experience, b: Board) {
    && NoEmptyStacks(b)
    && (e.result == Ongoing <==> CheckWin(b).None?)
    && (CheckWin(b).Some? ==> e.result == Announced(CheckWin(b).value))
  }

  predicate AllOngoing(h: seq<Experience>) {
    forall i :: 0 <= i < |h| ==> h[i].result == Ongoing
  }

  /** What a self-play game leaves: at most 100 experiences, none rewarded yet, all but the last
      still `ONGOING`, and the last one records what the final board announces. */
  predicate GameHistory(h: seq<Experience>, b: Board) {
    && |h| <= MaxMoves
    && Unrewarded(h)
    && (forall i :: 0 <= i < |h| - 1 ==> h[i].result == Ongoing)
    && (h != [] ==> Records(h[|h| - 1], b))
  }

  /** One more ply keeps a history of a game in progress a history of the game. */
  lemma ExtendHistory(h: seq<Experience>, b: Board, e: Experience, b': Board)
    requires GameHistory(h, b) && AllOngoing(h) && |h| < MaxMoves
    requires Encoded(e) && e.reward == 0.0 && Records(e, b')
    ensures GameHistory(h + [e], b')
    ensures e.result == Ongoing ==> AllOngoing(h + [e])
  {
    AppendUnrewarded(h, e);
    assert forall i :: 0 <= i < |h| ==> (h + [e])[i] == h[i];
  }
}
