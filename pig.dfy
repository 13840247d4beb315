/*
  The Pig dice game (Pig.java).

  Players take turns.  On a turn the current player either rolls the die,
  adding the pips to the points of the round (a one loses them and ends
  the turn), or banks the round into the total and passes the turn.  The
  first player whose total reaches the winning points wins.

  The console, the die and the random choice of the starting player are
  left out: the commands, the rolls and the first player are inputs.
*/
module Pig {

  class Player {
    var name: string
    var totalPts: int   // points of all banked rounds
    var roundPts: int   // points of the round being played

    /** A new player has no points; its name is set afterwards. */
    constructor ()
      ensures name == "" && totalPts == 0 && roundPts == 0
    {
      name, totalPts, roundPts := "", 0, 0;
    }
  }

  // ---------------------------------------------------------------------
  // Whose turn it is
  // ---------------------------------------------------------------------

  /** The first position of `x` in `s`. */
  function IndexOf(s: seq<Player>, x: Player): (i: nat)
    requires x in s
    ensures i < |s| && s[i] == x && forall j :: 0 <= j < i ==> s[j] != x
  {
    if s[0] == x then 0 else 1 + IndexOf(s[1..], x)
  }

  /** The position after `i`, going round. */
  function NextIndex(i: nat, n: nat): (j: nat)
    requires i < n
    ensures j < n && (j == 0 <==> i == n - 1) && (i < n - 1 ==> j == i + 1)
  {
    (i + 1) % n
  }

  /** The player after `current`, who must be one of `players`. */
  method GetNextPlayer(players: array<Player>, current: Player) returns (next: Player)
    requires current in players[..]
    ensures next == players[NextIndex(IndexOf(players[..], current), players.Length)]
  {
    ghost var k := IndexOf(players[..], current);
    var i := 0;
    while players[i] != current
      invariant 0 <= i <= k
      decreases k - i
    {
      i := i + 1;
    }
    if i + 1 < players.Length {
      next := players[i + 1];
    } else {
      next := players[0];
    }
  }

  /** `i` passed on `k` times. */
  function Pass(i: nat, k: nat, n: nat): (j: nat)
    requires i < n
    ensures j < n
  {
    if k == 0 then i else NextIndex(Pass(i, k - 1, n), n)
  }

  /** Passing the turn `k` times moves `k` places round the table: every
      player gets a turn, and after `n` turns it is the first one's again. */
  lemma {:induction false} PassRound(i: nat, k: nat, n: nat)
    requires i < n
    ensures Pass(i, k, n) == (i + k) % n
  {
    if k > 0 {
      PassRound(i, k - 1, n);
      ModStep(i + k - 1, n);
    }
  }

  lemma ModStep(a: nat, n: nat)
    requires 0 < n
    ensures (a % n + 1) % n == (a + 1) % n
  {
    var q, r := a / n, a % n;
    if r + 1 < n {
      ModUnique(a + 1, n, q, r + 1);
      ModUnique(r + 1, n, 0, r + 1);
    } else {
      ModUnique(a + 1, n, q + 1, 0);
      ModUnique(r + 1, n, 1, 0);
    }
  }

  lemma ModUnique(a: int, n: int, q: int, r: int)
    requires 0 <= r < n && a == q * n + r
    ensures a % n == r
  {
    var d, r' := a / n - q, a % n;
    assert d * n == r - r';
    if d > 0 {
      MulAtLeast(d, n);
    } else if d < 0 {
      MulAtLeast(-d, n);
    }
  }

  lemma MulAtLeast(d: int, n: int)
    requires d >= 1 && n > 0
    ensures d * n >= n
  {
    assert d * n == n + (d - 1) * n;
  }

  /** Some player has reached the winning points. */
  predicate HasWinner(players: seq<Player>, winPts: int)
    reads players
  {
    exists i :: 0 <= i < |players| && players[i].totalPts >= winPts
  }

  method IsWinner(players: array<Player>, winPts: int) returns (b: bool)
    ensures b == HasWinner(players[..], winPts)
  {
    var i := 0;
    while i < players.Length
      invariant 0 <= i <= players.Length
      invariant forall j :: 0 <= j < i ==> players[j].totalPts < winPts
    {
      if players[i].totalPts >= winPts {
        assert players[..][i] == players[i];
        return true;
      }
      i := i + 1;
    }
    b := false;
  }

  // ---------------------------------------------------------------------
  // One turn
  // ---------------------------------------------------------------------

  /** What the player typed: "r" rolls, "n" banks and passes, "q" quits;
      anything else is ignored. */
  datatype Command = Roll(pips: int) | Bank | Quit | Ignore

  /** The command of `choice`; the die is rolled only for "r". */
  function Parse(choice: string, roll: int): (c: Command)
    ensures c.Roll? <==> choice == "r"
    ensures c.Roll? ==> c.pips == roll
    ensures c == Bank <==> choice == "n"
    ensures c == Quit <==> choice == "q"
  {
    if choice == "r" then Roll(roll)
    else if choice == "n" then Bank
    else if choice == "q" then Quit
    else Ignore
  }

  /** A player's points. */
  datatype Score = Score(total: int, round: int)

  /** The same player goes on, the turn passes, the player won, or the game
      was aborted. */
  datatype Outcome = Stay | Passed | Won | Aborted

  /** The loop body of the game on the current player's points. */
  function Rule(s: Score, c: Command, winPts: int): (r: (Score, Outcome))
    ensures r.1 == Won ==> r.0.total >= winPts
    ensures r.1 == Aborted <==> c == Quit
    ensures r.1 == Aborted || c == Ignore ==> r.0 == s
    ensures r.1 == Passed ==> r.0.round == 0
  {
    match c
    case Roll(pips) =>
      var round := s.round + pips;
      if pips == 1 then (Score(s.total, 0), Passed)
      else if s.total + round >= winPts then (Score(s.total + round, round), Won)
      else (Score(s.total, round), Stay)
    case Bank =>
      var total := s.total + s.round;
      if total >= winPts then (Score(total, 0), Won) else (Score(total, 0), Passed)
    case Quit => (s, Aborted)
    case Ignore => (s, Stay)
  }

  /** The points of a player while the game goes on: none negative, and
      the total with the round still below the winning points. */
  predicate Playing(s: Score, winPts: int) {
    0 <= s.total && 0 <= s.round && s.total + s.round < winPts
  }

  /** A roll of one loses the round and passes the turn. */
  lemma RollOne(s: Score, winPts: int)
    ensures Rule(s, Roll(1), winPts) == (Score(s.total, 0), Passed)
  {
  }

  /** A roll of two to six is added to the round; the player wins, banking
      the round, exactly when total and round reach the winning points. */
  lemma RollMore(s: Score, pips: int, winPts: int)
    requires 2 <= pips <= 6
    ensures Rule(s, Roll(pips), winPts).0.round == s.round + pips
    ensures Rule(s, Roll(pips), winPts).1 == Won <==> s.total + s.round + pips >= winPts
    ensures Rule(s, Roll(pips), winPts).1 == Won ==> Rule(s, Roll(pips), winPts).0 == Score(s.total + s.round + pips, s.round + pips)
    ensures Rule(s, Roll(pips), winPts).1 != Won ==> Rule(s, Roll(pips), winPts) == (Score(s.total, s.round + pips), Stay)
  {
  }

  /** Banking moves the round into the total; the player wins exactly when
      the new total reaches the winning points. */
  lemma BankRound(s: Score, winPts: int)
    ensures Rule(s, Bank, winPts).0 == Score(s.total + s.round, 0)
    ensures Rule(s, Bank, winPts).1 == Won <==> s.total + s.round >= winPts
    ensures Rule(s, Bank, winPts).1 != Won ==> Rule(s, Bank, winPts).1 == Passed
  {
  }

  /** From a score in play, with a roll of the die, a turn leaves the
      player in play, or passes with nothing in the round, or wins; no
      total ever drops. */
  lemma RuleKeepsPlaying(s: Score, c: Command, winPts: int)
    requires Playing(s, winPts) && (c.Roll? ==> 1 <= c.pips <= 6)
    ensures var (t, o) := Rule(s, c, winPts);
      t.total >= s.total &&
      (o == Stay ==> Playing(t, winPts)) &&
      (o == Passed ==> Playing(t, winPts) && t.round == 0) &&
      (o == Won ==> t.total >= winPts)
  {
  }

  /** One pass of the game loop: only the current player's points change,
      as `Rule` says, and the turn passes to the next player when it says so. */
  method Turn(players: array<Player>, current: Player, choice: string, roll: int, winPts: int)
    returns (next: Player, outcome: Outcome)
    requires current in players[..]
    modifies current
    ensures (Score(current.totalPts, current.roundPts), outcome) ==
      Rule(Score(old(current.totalPts), old(current.roundPts)), Parse(choice, roll), winPts)
    ensures current.name == old(current.name)
    ensures next == if outcome == Passed then players[NextIndex(IndexOf(players[..], current), players.Length)] else current
  {
    next, outcome := current, Stay;
    if choice == "r" {
      current.roundPts := current.roundPts + roll;
      if roll == 1 {
        current.roundPts := 0;
        next := GetNextPlayer(players, current);
        outcome := Passed;
      } else if current.totalPts + current.roundPts >= winPts {
        current.totalPts := current.totalPts + current.roundPts;
        outcome := Won;
      }
    } else if choice == "n" {
      current.totalPts := current.totalPts + current.roundPts;
      current.roundPts := 0;
      if current.totalPts >= winPts {
        outcome := Won;
      } else {
        next := GetNextPlayer(players, current);
        outcome := Passed;
      }
    } else if choice == "q" {
      outcome := Aborted;
    }
  }

  // ---------------------------------------------------------------------
  // The game
  // ---------------------------------------------------------------------

  /** The state of the game between turns: `current` is one of the players,
      every player is in play, and only `current` holds round points. */
  predicate InPlay(players: seq<Player>, current: Player, winPts: int)
    reads players
  {
    current in players &&
    forall p :: p in players ==>
      Playing(Score(p.totalPts, p.roundPts), winPts) && (p != current ==> p.roundPts == 0)
  }

  /** In a game just started nobody has points, so it is in play when some
      points are needed to win. */
  lemma Start(players: seq<Player>, first: Player, winPts: int)
    requires first in players && winPts > 0
    requires forall p :: p in players ==> p.totalPts == 0 && p.roundPts == 0
    ensures InPlay(players, first, winPts)
  {
  }

  /** No player object occurs twice, as in the array `getPlayers` builds
      from fresh objects. */
  predicate Distinct(players: seq<Player>) {
    forall i, j :: 0 <= i < j < |players| ==> players[i] != players[j]
  }

  lemma IndexOfDistinct(players: seq<Player>, k: nat)
    requires Distinct(players) && k < |players|
    ensures IndexOf(players, players[k]) == k
  {
  }

  /** The points of every player, in seating order. */
  function Scores(players: seq<Player>): (r: seq<Score>)
    reads players
    ensures |r| == |players|
    ensures forall i :: 0 <= i < |players| ==> r[i] == Score(players[i].totalPts, players[i].roundPts)
  {
    if players == [] then []
    else Scores(players[..|players| - 1]) + [Score(players[|players| - 1].totalPts, players[|players| - 1].roundPts)]
  }

  /** The state of a game on values: every player's points, whose turn it
      is, and Stay while the game goes on, otherwise Won or Aborted. */
  datatype GameState = GameState(scores: seq<Score>, turn: nat, outcome: Outcome)

  /** Reference definition of the game loop: each command is played by
      `Rule` on the current player's points; the turn moves on to the next
      seat on a pass, and the game ends on a win or a quit. */
  function Play(scores: seq<Score>, turn: nat, choices: seq<string>, rolls: seq<int>, winPts: int): (r: GameState)
    requires turn < |scores| && |rolls| == |choices|
    ensures |r.scores| == |scores| && r.turn < |scores|
    ensures r.outcome == Stay || r.outcome == Won || r.outcome == Aborted
    decreases |choices|
  {
    if choices == [] then GameState(scores, turn, Stay)
    else
      var (s, o) := Rule(scores[turn], Parse(choices[0], rolls[0]), winPts);
      var after := scores[turn := s];
      if o == Won || o == Aborted then GameState(after, turn, o)
      else Play(after, if o == Passed then NextIndex(turn, |scores|) else turn, choices[1..], rolls[1..], winPts)
  }

  /** The values `InPlay` describes: every player in play, and only the
      player whose turn it is holds round points. */
  predicate ScoresInPlay(scores: seq<Score>, turn: nat, winPts: int) {
    turn < |scores| &&
    forall j :: 0 <= j < |scores| ==> Playing(scores[j], winPts) && (j != turn ==> scores[j].round == 0)
  }

  /** A game played from positions in play ends with a winner alone at the
      winning points, or still in play (aborted or out of commands). */
  lemma {:induction false} PlayOutcome(scores: seq<Score>, turn: nat, choices: seq<string>, rolls: seq<int>, winPts: int)
    requires ScoresInPlay(scores, turn, winPts) && |rolls| == |choices|
    requires forall i :: 0 <= i < |rolls| ==> 1 <= rolls[i] <= 6
    ensures var r := Play(scores, turn, choices, rolls, winPts);
      (r.outcome == Won ==> (r.scores[r.turn].total >= winPts &&
        forall j :: 0 <= j < |scores| && j != r.turn ==> r.scores[j].total < winPts)) &&
      (r.outcome != Won ==> ScoresInPlay(r.scores, r.turn, winPts))
    decreases |choices|
  {
    if choices != [] {
      var c := Parse(choices[0], rolls[0]);
      RuleKeepsPlaying(scores[turn], c, winPts);
      var (s, o) := Rule(scores[turn], c, winPts);
      var after := scores[turn := s];
      if o == Stay || o == Passed {
        var next := if o == Passed then NextIndex(turn, |scores|) else turn;
        assert ScoresInPlay(after, next, winPts);
        PlayOutcome(after, next, choices[1..], rolls[1..], winPts);
      }
    }
  }

  /** The game loop, fed with the commands typed and the rolls of the die
      (the i-th roll is used when the i-th command rolls).  It stops when a
      player wins, when one quits, or when the commands run out; the points
      it leaves, the player whose turn it is and how it ended are `Play`'s. */
  method Game(players: array<Player>, first: Player, choices: seq<string>, rolls: seq<int>, winPts: int)
    returns (current: Player, aborted: bool, won: bool)
    requires InPlay(players[..], first, winPts) && Distinct(players[..])
    requires |rolls| == |choices| && forall i :: 0 <= i < |rolls| ==> 1 <= rolls[i] <= 6
    modifies players[..]
    ensures var r := Play(old(Scores(players[..])), IndexOf(players[..], first), choices, rolls, winPts);
      Scores(players[..]) == r.scores && current == players[r.turn] &&
      aborted == (r.outcome == Aborted) && won == (r.outcome == Won)
    ensures !(aborted && won)
    ensures won ==> (current in players[..] && current.totalPts >= winPts &&
      forall p :: p in players[..] && p != current ==> p.totalPts < winPts)
    ensures !won ==> InPlay(players[..], current, winPts)
    ensures won == HasWinner(players[..], winPts)
    ensures forall p :: p in players[..] ==> p.name == old(p.name)
  {
    ghost var k0 := IndexOf(players[..], first);
    InPlayScores(players[..], first, winPts);
    PlayOutcome(Scores(players[..]), k0, choices, rolls, winPts);
    ghost var whole := Play(Scores(players[..]), k0, choices, rolls, winPts);
    current, aborted, won := Turns(players, first, choices, rolls, winPts);
    IndexOfDistinct(players[..], whole.turn);
    if won {
      WonScores(players[..], whole.turn, winPts);
      Winner(players[..], current, winPts);
    } else {
      InPlayScores(players[..], current, winPts);
      NoWinner(players[..], current, winPts);
    }
  }

  /** The loop of `Game`: one `Turn` per command until a win or a quit. */
  method Turns(players: array<Player>, first: Player, choices: seq<string>, rolls: seq<int>, winPts: int)
    returns (current: Player, aborted: bool, won: bool)
    requires first in players[..] && Distinct(players[..]) && |rolls| == |choices|
    modifies players[..]
    ensures var r := Play(old(Scores(players[..])), IndexOf(players[..], first), choices, rolls, winPts);
      Scores(players[..]) == r.scores && current == players[r.turn] &&
      aborted == (r.outcome == Aborted) && won == (r.outcome == Won)
    ensures forall p :: p in players[..] ==> p.name == old(p.name)
  {
    current, aborted, won := first, false, false;
    ghost var ps := players[..];
    ghost var t: nat := IndexOf(ps, first);
    ghost var whole := Play(Scores(ps), t, choices, rolls, winPts);
    var i := 0;
    while i < |choices|
      invariant 0 <= i <= |choices| && players[..] == ps && t < |ps| && current == ps[t]
      invariant whole == Play(Scores(ps), t, choices[i..], rolls[i..], winPts)
      invariant forall p :: p in ps ==> p.name == old(p.name)
      decreases |choices| - i
    {
      ghost var before := Scores(ps);
      IndexOfDistinct(ps, t);
      var next, outcome := Turn(players, current, choices[i], rolls[i], winPts);
      TurnScores(ps, before, t, Score(current.totalPts, current.roundPts));
      PlayStep(before, t, choices, rolls, i, winPts);
      if outcome == Won {
        won := true;
        break;
      } else if outcome == Aborted {
        aborted := true;
        break;
      }
      if outcome == Passed {
        t := NextIndex(t, |ps|);
      }
      current := next;
      i := i + 1;
    }
    if i == |choices| {
      PlayDone(Scores(ps), t, choices[i..], rolls[i..], winPts);
    }
  }

  /** `InPlay` on the players is `ScoresInPlay` on their points. */
  lemma InPlayScores(players: seq<Player>, current: Player, winPts: int)
    requires Distinct(players) && current in players
    ensures InPlay(players, current, winPts) <==> ScoresInPlay(Scores(players), IndexOf(players, current), winPts)
  {
    var k := IndexOf(players, current);
    if ScoresInPlay(Scores(players), k, winPts) {
      forall p | p in players
        ensures Playing(Score(p.totalPts, p.roundPts), winPts) && (p != current ==> p.roundPts == 0)
      {
        var j :| 0 <= j < |players| && players[j] == p;
        assert Scores(players)[j] == Score(p.totalPts, p.roundPts);
      }
    }
    if InPlay(players, current, winPts) {
      forall j | 0 <= j < |players|
        ensures Playing(Scores(players)[j], winPts) && (j != k ==> Scores(players)[j].round == 0)
      {
        assert players[j] in players;
      }
    }
  }

  /** A winner on the points is a winner among the players. */
  lemma WonScores(players: seq<Player>, k: nat, winPts: int)
    requires Distinct(players) && k < |players|
    requires Scores(players)[k].total >= winPts
    requires forall j :: 0 <= j < |players| && j != k ==> Scores(players)[j].total < winPts
    ensures players[k].totalPts >= winPts
    ensures forall p :: p in players && p != players[k] ==> p.totalPts < winPts
  {
    forall p | p in players && p != players[k] ensures p.totalPts < winPts {
      var j :| 0 <= j < |players| && players[j] == p;
      assert Scores(players)[j].total == p.totalPts;
    }
  }

  /** Playing the `i`-th command: the game ends on a win or a quit, and
      otherwise goes on from the new points with the rest of the commands. */
  lemma PlayStep(scores: seq<Score>, turn: nat, choices: seq<string>, rolls: seq<int>, i: nat, winPts: int)
    requires turn < |scores| && |rolls| == |choices| && i < |choices|
    ensures var (s, o) := Rule(scores[turn], Parse(choices[i], rolls[i]), winPts);
      var r := Play(scores, turn, choices[i..], rolls[i..], winPts);
      (o == Won || o == Aborted ==> r == GameState(scores[turn := s], turn, o)) &&
      (o == Stay ==> r == Play(scores[turn := s], turn, choices[i + 1..], rolls[i + 1..], winPts)) &&
      (o == Passed ==> r == Play(scores[turn := s], NextIndex(turn, |scores|), choices[i + 1..], rolls[i + 1..], winPts))
  {
    assert choices[i..][0] == choices[i] && rolls[i..][0] == rolls[i];
    assert choices[i..][1..] == choices[i + 1..] && rolls[i..][1..] == rolls[i + 1..];
  }

  /** With no commands left the game stops where it is. */
  lemma PlayDone(scores: seq<Score>, turn: nat, choices: seq<string>, rolls: seq<int>, winPts: int)
    requires turn < |scores| && choices == [] && rolls == []
    ensures Play(scores, turn, choices, rolls, winPts) == GameState(scores, turn, Stay)
  {
  }

  /** After a turn of `players[k]`, the points are the old ones with that
      seat's replaced. */
  lemma TurnScores(players: seq<Player>, before: seq<Score>, k: nat, s: Score)
    requires Distinct(players) && k < |players| && |before| == |players|
    requires Score(players[k].totalPts, players[k].roundPts) == s
    requires forall j :: 0 <= j < |players| && j != k ==> before[j] == Score(players[j].totalPts, players[j].roundPts)
    ensures Scores(players) == before[k := s]
  {
  }

  /** A player at the winning points is a winner. */
  lemma Winner(players: seq<Player>, current: Player, winPts: int)
    requires current in players && current.totalPts >= winPts
    ensures HasWinner(players, winPts)
  {
    var i := IndexOf(players, current);
  }

  /** While the game is in play nobody has won. */
  lemma NoWinner(players: seq<Player>, current: Player, winPts: int)
    requires InPlay(players, current, winPts)
    ensures !HasWinner(players, winPts)
  {
    forall i | 0 <= i < |players| ensures players[i].totalPts < winPts {
      assert players[i] in players;
    }
  }
}
