/** The hand-made world of `test()` in Neighbours.java and what it checks. */
module NeighboursExamples {
  import opened Neighbours
  import opened NeighboursProperties

  /** R R .
      . B .
      R . B */
  function TestWorld(): (g: Grid)
    ensures Square(g) && |g| == 3
  {
    [[Red, Red, None], [None, Blue, None], [Red, None, Blue]]
  }

  /** The four location checks on a world of size three. */
  lemma ValidLocations()
    ensures IsValidLocation(3, 0, 0) && !IsValidLocation(3, -1, 0)
    ensures !IsValidLocation(3, 0, 3) && IsValidLocation(3, 2, 2)
  {
  }

  /** The red actor in the corner sees a red and a blue; the blue one in the
      opposite corner sees only a blue. */
  lemma CornerCounts()
    ensures NeighbourCount(TestWorld(), 0, 0) == 2 && Matches(TestWorld(), 0, 0) == 1
  {
    var g := TestWorld();
    assert OccupiedRow(g, 0, 0, -1, 2) == 0 && AlikeRow(g, 0, 0, Red, -1, 2) == 0;
    assert OccupiedRow(g, 0, 0, 0, 2) == 1 && AlikeRow(g, 0, 0, Red, 0, 2) == 1;
    assert OccupiedRow(g, 0, 0, 1, 2) == 1 && AlikeRow(g, 0, 0, Red, 1, 2) == 0;
  }

  lemma OppositeCounts()
    ensures NeighbourCount(TestWorld(), 2, 2) == 1 && Matches(TestWorld(), 2, 2) == 1
  {
    var g := TestWorld();
    assert OccupiedRow(g, 2, 2, -1, 2) == 1 && AlikeRow(g, 2, 2, Blue, -1, 2) == 1;
    assert OccupiedRow(g, 2, 2, 0, 2) == 0 && AlikeRow(g, 2, 2, Blue, 0, 2) == 0;
    assert OccupiedRow(g, 2, 2, 1, 2) == 0 && AlikeRow(g, 2, 2, Blue, 1, 2) == 0;
  }

  /** Half of the corner's neighbours are alike: enough at 0.5, not at 0.7
      or 0.8; the opposite corner is satisfied at 0.5. */
  lemma TestSatisfied()
    ensures Satisfied(TestWorld(), 0, 0, 0.5) && Satisfied(TestWorld(), 2, 2, 0.5)
    ensures !Satisfied(TestWorld(), 0, 0, 0.7) && !Satisfied(TestWorld(), 0, 0, 0.8)
  {
    CornerCounts();
    OppositeCounts();
  }

  /** Moving the actors at (0,0), (0,1) and the empty cell (1,0), whatever
      the random choices, keeps every actor and a world of side three. */
  lemma TestMove(draw: nat -> nat)
    ensures var h := Relocated(TestWorld(), [Pos(0, 0), Pos(0, 1), Pos(1, 0)], draw);
      Square(h) && |h| == 3 && Bag(h) == Bag(TestWorld())
  {
    RelocatedBag(TestWorld(), [Pos(0, 0), Pos(0, 1), Pos(1, 0)], draw);
  }

  /** The array that `test()` builds. */
  method NewTestWorld() returns (w: array2<Actor>)
    ensures fresh(w) && Mirrors(w, TestWorld())
  {
    w := new Actor[3, 3];
    w[0, 0], w[0, 1], w[0, 2] := Red, Red, None;
    w[1, 0], w[1, 1], w[1, 2] := None, Blue, None;
    w[2, 0], w[2, 1], w[2, 2] := Red, None, Blue;
    forall i, j | 0 <= i < 3 && 0 <= j < 3 ensures w[i, j] == TestWorld()[i][j] {
      assert i == 0 || i == 1 || i == 2;
    }
  }

  /** The four calls of `isSatisfied` in `test()`, each as its comment
      expects. */
  method TestIsSatisfied() returns (atHalf: bool, oppositeAtHalf: bool, at07: bool, at08: bool)
    ensures atHalf && oppositeAtHalf && !at07 && !at08
  {
    var w := NewTestWorld();
    TestSatisfied();
    atHalf := IsSatisfied(w, 0, 0, 0.5, TestWorld());
    oppositeAtHalf := IsSatisfied(w, 2, 2, 0.5, TestWorld());
    at07 := IsSatisfied(w, 0, 0, 0.7, TestWorld());
    at08 := IsSatisfied(w, 0, 0, 0.8, TestWorld());
  }
}
