/** The checks of `test()` in Pig.java on three players. */
module PigExamples {
  import opened Pig

  /** players[0] is followed by players[1], players[2] by players[0]; with
      totals 10, 15 and 20 somebody has reached 20. */
  method Test() returns (afterFirst: bool, afterLast: bool, winner: bool)
    ensures afterFirst && afterLast && winner
  {
    var a := new Player();
    var b := new Player();
    var c := new Player();
    a.name, b.name, c.name := "A", "B", "C";
    var players := new Player[3] [a, b, c];
    assert players[..] == [a, b, c];

    var next := GetNextPlayer(players, players[0]);
    afterFirst := next == players[1];
    next := GetNextPlayer(players, players[2]);
    afterLast := next == players[0];

    players[0].totalPts, players[1].totalPts, players[2].totalPts := 10, 15, 20;
    assert players[..] == [a, b, c];
    winner := IsWinner(players, 20);
    assert players[..][2].totalPts >= 20;
  }

  /** Two turns of a game to 20: with 10 banked and 6 in the round, a roll
      of four wins with 20; a roll of one there loses the six. */
  lemma Turns()
    ensures Rule(Score(10, 6), Roll(4), 20) == (Score(20, 10), Won)
    ensures Rule(Score(10, 6), Roll(1), 20) == (Score(10, 0), Passed)
    ensures Rule(Score(10, 6), Bank, 20) == (Score(16, 0), Passed)
  {
  }
}
