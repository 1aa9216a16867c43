/** GameResult and the trainers' reading of the win message: both trainers carry a copy of
    `checkWinCondition` (the same scan as `WinConditionChecker.checkWin`, bottom piece of every
    stack) and turn its message back into a result by looking for key words in it. */
module GameResults {
  import opened Wrappers
  import opened WinCheck

  datatype GameResult = WhiteWin | BlackWin | Drawn | Ongoing

  /** `t` occurs in `s` from position `i` on. */
  predicate OccursAt(s: string, t: string, i: nat) {
    i + |t| <= |s| && s[i..i + |t|] == t
  }

  /** `String.contains`: `t` occurs somewhere in `s`. */
  predicate Contains(s: string, t: string) {
    exists i: nat | i <= |s| :: OccursAt(s, t, i)
  }

  /** Whatever contains `t` contains every piece of `t`. */
  lemma ContainsPart(s: string, t: string, a: nat, b: nat)
    requires a <= b <= |t|
    ensures Contains(s, t) ==> Contains(s, t[a..b])
  {
    if Contains(s, t) {
      var i: nat :| i <= |s| && OccursAt(s, t, i);
      var w := s[i..i + |t|];
      forall j | 0 <= j < b - a
        ensures s[i + a..i + b][j] == t[a..b][j]
      {
        assert s[i + a..i + b][j] == w[a + j];
      }
      assert OccursAt(s, t[a..b], i + a);
    }
  }

  /** The result a message announces. */
  function Announced(o: Outcome): GameResult {
    match o
    case Draw => Drawn
    case BlackWins => BlackWin
    case WhiteWins => WhiteWin
  }

  /** The evolutionary trainer's reading: "Draw", then "White wins", then "Black wins"; a message
      with none of them does not end the game. */
  function TournamentReading(msg: string): (r: Option<GameResult>)
    ensures r.Some? ==> r.value != Ongoing
    ensures r.None? <==> !Contains(msg, "Draw") && !Contains(msg, "White wins") && !Contains(msg, "Black wins")
  {
    if Contains(msg, "Draw") then Some(Drawn)
    else if Contains(msg, "White wins") then Some(WhiteWin)
    else if Contains(msg, "Black wins") then Some(BlackWin)
    else None
  }

  /** The self-play trainer's reading: "Draw", then "White wins", and black otherwise. */
  function SelfPlayReading(msg: string): (r: GameResult)
    ensures r != Ongoing
    ensures r == BlackWin <==> !Contains(msg, "Draw") && !Contains(msg, "White wins")
  {
    if Contains(msg, "Draw") then Drawn
    else if Contains(msg, "White wins") then WhiteWin
    else BlackWin
  }

  /** The win messages of either colour have no capital D, so they never read as a draw. */
  lemma {:induction false} NoDrawWithWinner(o: Outcome)
    requires o != Draw
    ensures !Contains(Message(o), "Draw")
  {
    var m := Message(o);
    ContainsPart(m, "Draw", 0, 1);
    assert "Draw"[0..1] == "D";
    forall i: nat
      ensures !OccursAt(m, "D", i)
    {
      if i + 1 <= |m| {
        assert m[i] != 'D';
        assert m[i..i + 1][0] == m[i];
      }
    }
  }

  /** "Black wins! White Queen surrounded!" has no "e w", so it does not read as a white win. */
  lemma {:induction false} BlackWinIsNotWhiteWin()
    ensures !Contains(Message(BlackWins), "White wins")
  {
    var m := Message(BlackWins);
    ContainsPart(m, "White wins", 4, 7);
    assert "White wins"[4..7] == "e w";
    forall i: nat
      ensures !OccursAt(m, "e w", i)
    {
      if i + 3 <= |m| {
        assert !(m[i] == 'e' && m[i + 1] == ' ' && m[i + 2] == 'w');
        assert m[i..i + 3][0] == m[i] && m[i..i + 3][1] == m[i + 1] && m[i..i + 3][2] == m[i + 2];
      }
    }
  }

  /** Neither reading mistakes one of the three win messages for another: each message is read
      back as the outcome that produced it. */
  lemma ReadingsInvertMessage(o: Outcome)
    ensures TournamentReading(Message(o)) == Some(Announced(o))
    ensures SelfPlayReading(Message(o)) == Announced(o)
  {
    var m := Message(o);
    match o
    case Draw =>
      assert OccursAt(m, "Draw", 0);
    case BlackWins =>
      NoDrawWithWinner(o);
      BlackWinIsNotWhiteWin();
      assert OccursAt(m, "Black wins", 0);
    case WhiteWins =>
      NoDrawWithWinner(o);
      assert OccursAt(m, "White wins", 0);
  }
}
