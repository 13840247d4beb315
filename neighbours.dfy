/*
  Schelling's segregation model on a square grid (Neighbours.java).

  The world is a square matrix of actors.  An actor is satisfied when at
  least a threshold fraction of its non-empty neighbours have its colour.
  One update collects the unsatisfied actors in row-major order and moves
  each to an empty cell, chosen at random among those still free.

  The methods work on an `array2<Actor>`.  Each takes as a ghost parameter
  the grid of values the array holds (`Mirrors`) and is specified through
  the functions on grids below, about which the lemmas further down are
  proved.
*/
module Neighbours {

  datatype Actor = Blue | Red | None   // None marks an empty location

  /** A location (row, column), as Java's `int[]{row, col}`. */
  datatype Pos = Pos(row: int, col: int)

  type Grid = seq<seq<Actor>>

  /** The world is square: every row is as long as there are rows. */
  predicate Square(g: Grid) {
    forall i :: 0 <= i < |g| ==> |g[i]| == |g|
  }

  predicate IsValidLocation(size: int, row: int, col: int) {
    0 <= row < size && 0 <= col < size
  }

  predicate Inside(g: Grid, p: Pos) {
    IsValidLocation(|g|, p.row, p.col)
  }

  function Get(g: Grid, p: Pos): Actor
    requires Square(g) && Inside(g, p)
  {
    g[p.row][p.col]
  }

  function Put(g: Grid, p: Pos, a: Actor): (h: Grid)
    requires Square(g) && Inside(g, p)
    ensures Square(h) && |h| == |g|
    ensures Get(h, p) == a
    ensures forall q :: Inside(g, q) && q != p ==> Get(h, q) == Get(g, q)
  {
    g[p.row := g[p.row][p.col := a]]
  }

  /** The array `w` holds the values of the square grid `g`. */
  predicate Mirrors(w: array2<Actor>, g: Grid)
    reads w
  {
    |g| == w.Length0 == w.Length1 && Square(g) &&
    forall i, j :: 0 <= i < w.Length0 && 0 <= j < w.Length1 ==> w[i, j] == g[i][j]
  }

  // ---------------------------------------------------------------------
  // Satisfaction
  // ---------------------------------------------------------------------

  /** The actor seen at offset (dr, dc) from (row, col); the centre and the
      cells outside the world are seen as empty. */
  function Seen(g: Grid, row: int, col: int, dr: int, dc: int): Actor
    requires Square(g)
  {
    if (dr == 0 && dc == 0) || !IsValidLocation(|g|, row + dr, col + dc) then None
    else g[row + dr][col + dc]
  }

  /** Whether the cell seen at (dr, dc) counts as a neighbour, and as a
      neighbour like `a`. */
  function IsNeighbour(g: Grid, row: int, col: int, dr: int, dc: int): nat
    requires Square(g)
  {
    if Seen(g, row, col, dr, dc) != None then 1 else 0
  }

  function IsAlike(g: Grid, row: int, col: int, a: Actor, dr: int, dc: int): nat
    requires Square(g)
  {
    var b := Seen(g, row, col, dr, dc);
    if b != None && b == a then 1 else 0
  }

  /** Neighbours in row offset `dr`, at column offsets -1 up to `dc` - 1. */
  function OccupiedRow(g: Grid, row: int, col: int, dr: int, dc: int): nat
    requires Square(g) && -1 <= dc <= 2
    decreases dc + 1
  {
    if dc == -1 then 0 else OccupiedRow(g, row, col, dr, dc - 1) + IsNeighbour(g, row, col, dr, dc - 1)
  }

  /** Neighbours in the row offsets -1 up to `dr` - 1. */
  function Occupied(g: Grid, row: int, col: int, dr: int): nat
    requires Square(g) && -1 <= dr <= 2
    decreases dr + 1
  {
    if dr == -1 then 0 else Occupied(g, row, col, dr - 1) + OccupiedRow(g, row, col, dr - 1, 2)
  }

  function AlikeRow(g: Grid, row: int, col: int, a: Actor, dr: int, dc: int): nat
    requires Square(g) && -1 <= dc <= 2
    decreases dc + 1
  {
    if dc == -1 then 0 else AlikeRow(g, row, col, a, dr, dc - 1) + IsAlike(g, row, col, a, dr, dc - 1)
  }

  function Alike(g: Grid, row: int, col: int, a: Actor, dr: int): nat
    requires Square(g) && -1 <= dr <= 2
    decreases dr + 1
  {
    if dr == -1 then 0 else Alike(g, row, col, a, dr - 1) + AlikeRow(g, row, col, a, dr - 1, 2)
  }

  /** Non-empty cells of the 3x3 block around (row, col), centre excluded. */
  function NeighbourCount(g: Grid, row: int, col: int): nat
    requires Square(g)
  {
    Occupied(g, row, col, 2)
  }

  /** Those of them with the colour of (row, col). */
  function Matches(g: Grid, row: int, col: int): nat
    requires Square(g) && IsValidLocation(|g|, row, col)
  {
    Alike(g, row, col, g[row][col], 2)
  }

  /** The final test of Java's `isSatisfied`: no neighbours, or a fraction `matches` of
      the `neighbours` that reaches the threshold. */
  predicate Content(matches: nat, neighbours: nat, threshold: real) {
    neighbours == 0 || (matches as real) / (neighbours as real) >= threshold
  }

  /** An empty cell is always satisfied; an actor is satisfied when it has
      no neighbours or when the fraction of its neighbours that share its
      colour reaches the threshold. */
  predicate Satisfied(g: Grid, row: int, col: int, threshold: real)
    requires Square(g) && IsValidLocation(|g|, row, col)
  {
    g[row][col] == None || Content(Matches(g, row, col), NeighbourCount(g, row, col), threshold)
  }

  /** The nested loops over the offsets -1..1, skipping the centre and the
      cells outside the world; the inner loop is `CountRow`. */
  method IsSatisfied(w: array2<Actor>, row: int, col: int, threshold: real, ghost g: Grid) returns (b: bool)
    requires Mirrors(w, g) && IsValidLocation(w.Length0, row, col)
    ensures b == Satisfied(g, row, col, threshold)
  {
    var actor := w[row, col];
    if actor == None {
      return true;
    }
    var validNeighbours, neighbours := 0, 0;
    var dr := -1;
    while dr <= 1
      invariant -1 <= dr <= 2
      invariant neighbours == Occupied(g, row, col, dr)
      invariant validNeighbours == Alike(g, row, col, actor, dr)
    {
      RowsStep(g, row, col, actor, dr);
      neighbours, validNeighbours := CountRow(w, row, col, dr, actor, neighbours, validNeighbours, g);
      dr := dr + 1;
    }
    b := neighbours == 0 || (validNeighbours as real) / (neighbours as real) >= threshold;
    assert b == Content(validNeighbours, neighbours, threshold);
  }

  /** The inner loop of `IsSatisfied`: row offset `dr`, column offsets -1..1,
      adding to the counts so far. */
  method CountRow(w: array2<Actor>, row: int, col: int, dr: int, actor: Actor,
                  neighbours0: int, validNeighbours0: int, ghost g: Grid)
    returns (neighbours: int, validNeighbours: int)
    requires Mirrors(w, g)
    ensures neighbours == neighbours0 + OccupiedRow(g, row, col, dr, 2)
    ensures validNeighbours == validNeighbours0 + AlikeRow(g, row, col, actor, dr, 2)
  {
    neighbours, validNeighbours := neighbours0, validNeighbours0;
    var dc := -1;
    while dc <= 1
      invariant -1 <= dc <= 2
      invariant neighbours == neighbours0 + OccupiedRow(g, row, col, dr, dc)
      invariant validNeighbours == validNeighbours0 + AlikeRow(g, row, col, actor, dr, dc)
    {
      RowStep(g, row, col, actor, dr, dc);
      ghost var seen := Seen(g, row, col, dr, dc);
      var r, c := row + dr, col + dc;
      if !(dr == 0 && dc == 0) && IsValidLocation(w.Length0, r, c) {
        var neighbour := w[r, c];
        assert neighbour == seen;
        if neighbour != None {
          neighbours := neighbours + 1;
          if neighbour == actor {
            validNeighbours := validNeighbours + 1;
          }
        }
      } else {
        assert seen == None;
      }
      dc := dc + 1;
    }
  }

  // ---------------------------------------------------------------------
  // Row-major scans: the unsatisfied actors, the empty locations
  // ---------------------------------------------------------------------

  /** What a scan collects: empty cells, or actors that are not satisfied. */
  datatype Filter = Vacant | Discontent(threshold: real)

  predicate Wanted(g: Grid, f: Filter, p: Pos)
    requires Square(g) && Inside(g, p)
  {
    match f
    case Vacant => Get(g, p) == None
    case Discontent(t) => Get(g, p) != None && !Satisfied(g, p.row, p.col, t)
  }

  /** The wanted cells of row `r` among its first `c` columns, left to right. */
  function ScanRow(g: Grid, f: Filter, r: nat, c: nat): seq<Pos>
    requires Square(g) && r < |g| && c <= |g|
  {
    if c == 0 then []
    else ScanRow(g, f, r, c - 1) + (if Wanted(g, f, Pos(r, c - 1)) then [Pos(r, c - 1)] else [])
  }

  /** The wanted cells of the first `r` rows, in row-major order. */
  function ScanRows(g: Grid, f: Filter, r: nat): seq<Pos>
    requires Square(g) && r <= |g|
  {
    if r == 0 then [] else ScanRows(g, f, r - 1) + ScanRow(g, f, r - 1, |g|)
  }

  function Scan(g: Grid, f: Filter): seq<Pos>
    requires Square(g)
  {
    ScanRows(g, f, |g|)
  }

  /** The first loop of the update: every actor that is not satisfied, row
      by row. */
  method CollectUnsatisfied(w: array2<Actor>, threshold: real, ghost g: Grid) returns (unsatisfied: seq<Pos>)
    requires Mirrors(w, g)
    ensures unsatisfied == Scan(g, Discontent(threshold))
  {
    ghost var f := Discontent(threshold);
    unsatisfied := [];
    var row := 0;
    while row < w.Length0
      invariant 0 <= row <= w.Length0
      invariant unsatisfied == ScanRows(g, f, row)
    {
      var col := 0;
      while col < w.Length1
        invariant 0 <= col <= w.Length1
        invariant unsatisfied == ScanRows(g, f, row) + ScanRow(g, f, row, col)
      {
        var actor := w[row, col];
        if actor != None {
          var ok := IsSatisfied(w, row, col, threshold, g);
          if !ok {
            unsatisfied := unsatisfied + [Pos(row, col)];
          }
        }
        col := col + 1;
      }
      row := row + 1;
    }
  }

  // ---------------------------------------------------------------------
  // Moving the unsatisfied actors
  // ---------------------------------------------------------------------

  /** One relocation: the actor at `from` goes to the empty location `to`. */
  datatype Move = Move(from: Pos, to: Pos)

  predicate MoveInside(g: Grid, m: Move) {
    Inside(g, m.from) && Inside(g, m.to)
  }

  /** The two assignments of Java's `moveActors`: the target gets the actor, the cell it left
      becomes empty. */
  function Step(g: Grid, m: Move): (h: Grid)
    requires Square(g) && MoveInside(g, m)
    ensures Square(h) && |h| == |g|
  {
    Put(Put(g, m.to, Get(g, m.from)), m.from, None)
  }

  predicate AllInside(g: Grid, ms: seq<Move>) {
    forall k :: 0 <= k < |ms| ==> MoveInside(g, ms[k])
  }

  /** The moves, made one after the other. */
  function Apply(g: Grid, ms: seq<Move>): (h: Grid)
    requires Square(g) && AllInside(g, ms)
    ensures Square(h) && |h| == |g|
    decreases |ms|
  {
    if ms == [] then g else Step(Apply(g, ms[..|ms| - 1]), ms[|ms| - 1])
  }

  function Remove(s: seq<Pos>, k: nat): seq<Pos>
    requires k < |s|
  {
    s[..k] + s[k + 1..]
  }

  /** The moves made for `unsatisfied[i..]` while `free` are the empty
      locations not yet taken: the i-th draw picks one of them, and the loop
      stops when either list runs out. */
  function Plan(unsatisfied: seq<Pos>, free: seq<Pos>, draw: nat -> nat, i: nat): seq<Move>
    decreases |unsatisfied| - i
  {
    if i >= |unsatisfied| || free == [] then []
    else
      var k := draw(i) % |free|;
      [Move(unsatisfied[i], free[k])] + Plan(unsatisfied, Remove(free, k), draw, i + 1)
  }

  /** The world after the actors of `unsatisfied` were moved to empty
      locations chosen by `draw`. */
  function Relocated(g: Grid, unsatisfied: seq<Pos>, draw: nat -> nat): (h: Grid)
    requires Square(g) && forall p :: p in unsatisfied ==> Inside(g, p)
    ensures Square(h) && |h| == |g|
  {
    var ms := Plan(unsatisfied, Scan(g, Vacant), draw, 0);
    ScanInside(g, Vacant);
    PlanInside(g, unsatisfied, Scan(g, Vacant), draw, 0);
    Apply(g, ms)
  }

  /** The first loop of the move: every empty location, row by row. */
  method EmptyLocations(w: array2<Actor>, ghost g: Grid) returns (emptyLocations: seq<Pos>)
    requires Mirrors(w, g)
    ensures emptyLocations == Scan(g, Vacant)
  {
    emptyLocations := [];
    var r := 0;
    while r < w.Length0
      invariant 0 <= r <= w.Length0
      invariant emptyLocations == ScanRows(g, Vacant, r)
    {
      var c := 0;
      while c < w.Length1
        invariant 0 <= c <= w.Length1
        invariant emptyLocations == ScanRows(g, Vacant, r) + ScanRow(g, Vacant, r, c)
      {
        if w[r, c] == None {
          emptyLocations := emptyLocations + [Pos(r, c)];
        }
        c := c + 1;
      }
      r := r + 1;
    }
  }

  /** The random index of Java's `moveActors` into the remaining empty locations is the
      caller's `draw(i)`, taken modulo their number. */
  method MoveActors(w: array2<Actor>, unsatisfied: seq<Pos>, draw: nat -> nat, ghost g0: Grid)
    requires Mirrors(w, g0) && forall p :: p in unsatisfied ==> Inside(g0, p)
    modifies w
    ensures Mirrors(w, Relocated(g0, unsatisfied, draw))
  {
    var emptyLocations := EmptyLocations(w, g0);
    ScanInside(g0, Vacant);
    ghost var plan := Plan(unsatisfied, emptyLocations, draw, 0);
    PlanInside(g0, unsatisfied, emptyLocations, draw, 0);
    ghost var done: seq<Move> := [];
    ghost var g := g0;
    var i := 0;
    while i < |unsatisfied| && emptyLocations != []
      invariant 0 <= i <= |unsatisfied|
      invariant forall p :: p in emptyLocations ==> Inside(g0, p)
      invariant done + Plan(unsatisfied, emptyLocations, draw, i) == plan
      invariant AllInside(g0, done) && g == Apply(g0, done)
      invariant Mirrors(w, g)
      decreases |unsatisfied| - i
    {
      var k := draw(i) % |emptyLocations|;
      var oldPosition, newPosition := unsatisfied[i], emptyLocations[k];
      assert oldPosition in unsatisfied && newPosition in emptyLocations;
      PlanCons(unsatisfied, emptyLocations, draw, i, done, plan);
      emptyLocations := Remove(emptyLocations, k);

      ghost var m := Move(oldPosition, newPosition);
      Relocate(w, oldPosition, newPosition, g);
      ApplySnoc(g0, done, m);
      done := done + [m];
      g := Step(g, m);
      i := i + 1;
    }
    PlanNone(unsatisfied, emptyLocations, draw, i);
    assert done == plan;
  }

  /** The body of the loop in Java's `moveActors`: the actor moves, its cell empties. */
  method Relocate(w: array2<Actor>, oldPosition: Pos, newPosition: Pos, ghost g: Grid)
    requires Mirrors(w, g) && MoveInside(g, Move(oldPosition, newPosition))
    modifies w
    ensures Mirrors(w, Step(g, Move(oldPosition, newPosition)))
  {
    StepCells(g, Move(oldPosition, newPosition));
    var actor := w[oldPosition.row, oldPosition.col];
    w[newPosition.row, newPosition.col] := actor;
    w[oldPosition.row, oldPosition.col] := None;
  }

  /** The update threshold: 70% of the neighbours must be alike. */
  const Threshold: real := 0.7

  /** One update of the world. */
  function Update(g: Grid, draw: nat -> nat): (h: Grid)
    requires Square(g)
    ensures Square(h) && |h| == |g|
  {
    ScanInside(g, Discontent(Threshold));
    Relocated(g, Scan(g, Discontent(Threshold)), draw)
  }

  method UpdateWorld(w: array2<Actor>, draw: nat -> nat, ghost g: Grid)
    requires Mirrors(w, g)
    modifies w
    ensures Mirrors(w, Update(g, draw))
  {
    var unsatisfied := CollectUnsatisfied(w, Threshold, g);
    ScanInside(g, Discontent(Threshold));
    MoveActors(w, unsatisfied, draw, g);
  }

  /** The test helper: how often `toFind` occurs in `arr`. */
  method Count<T(==)>(arr: array<T>, toFind: T) returns (count: nat)
    ensures count == multiset(arr[..])[toFind]
  {
    count := 0;
    var i := 0;
    while i < arr.Length
      invariant 0 <= i <= arr.Length
      invariant count == multiset(arr[..i])[toFind]
    {
      assert arr[..i + 1] == arr[..i] + [arr[i]];
      if arr[i] == toFind {
        count := count + 1;
      }
      i := i + 1;
    }
    assert arr[..] == arr[..arr.Length];
  }

  // ---------------------------------------------------------------------
  // Helpers the methods need
  // ---------------------------------------------------------------------

  lemma RowsStep(g: Grid, row: int, col: int, a: Actor, dr: int)
    requires Square(g) && -1 <= dr <= 1
    ensures Occupied(g, row, col, dr + 1) == Occupied(g, row, col, dr) + OccupiedRow(g, row, col, dr, 2)
    ensures Alike(g, row, col, a, dr + 1) == Alike(g, row, col, a, dr) + AlikeRow(g, row, col, a, dr, 2)
  {
  }

  /** What one pass of the inner loop adds to the two counts. */
  lemma RowStep(g: Grid, row: int, col: int, a: Actor, dr: int, dc: int)
    requires Square(g) && -1 <= dc <= 1
    ensures OccupiedRow(g, row, col, dr, dc + 1) ==
      OccupiedRow(g, row, col, dr, dc) + (if Seen(g, row, col, dr, dc) != None then 1 else 0)
    ensures AlikeRow(g, row, col, a, dr, dc + 1) == AlikeRow(g, row, col, a, dr, dc) +
      (if Seen(g, row, col, dr, dc) != None && Seen(g, row, col, dr, dc) == a then 1 else 0)
  {
  }

  lemma {:induction false} ScanRowInside(g: Grid, f: Filter, r: nat, c: nat)
    requires Square(g) && r < |g| && c <= |g|
    ensures forall p :: p in ScanRow(g, f, r, c) ==> Inside(g, p) && p.row == r && p.col < c
  {
    if c > 0 {
      ScanRowInside(g, f, r, c - 1);
    }
  }

  lemma {:induction false} ScanRowsInside(g: Grid, f: Filter, r: nat)
    requires Square(g) && r <= |g|
    ensures forall p :: p in ScanRows(g, f, r) ==> Inside(g, p) && p.row < r
  {
    if r > 0 {
      ScanRowsInside(g, f, r - 1);
      ScanRowInside(g, f, r - 1, |g|);
      InsideConcat(g, ScanRows(g, f, r - 1), ScanRow(g, f, r - 1, |g|), r);
    }
  }

  lemma InsideConcat(g: Grid, a: seq<Pos>, b: seq<Pos>, r: int)
    requires forall p :: p in a ==> Inside(g, p) && p.row < r
    requires forall p :: p in b ==> Inside(g, p) && p.row < r
    ensures forall p :: p in a + b ==> Inside(g, p) && p.row < r
  {
  }

  lemma ScanInside(g: Grid, f: Filter)
    requires Square(g)
    ensures forall p :: p in Scan(g, f) ==> Inside(g, p)
  {
    ScanRowsInside(g, f, |g|);
  }

  lemma {:induction false} PlanInside(g: Grid, unsatisfied: seq<Pos>, free: seq<Pos>, draw: nat -> nat, i: nat)
    requires forall p :: p in unsatisfied ==> Inside(g, p)
    requires forall p :: p in free ==> Inside(g, p)
    ensures AllInside(g, Plan(unsatisfied, free, draw, i))
    decreases |unsatisfied| - i
  {
    if i < |unsatisfied| && free != [] {
      var k := draw(i) % |free|;
      assert unsatisfied[i] in unsatisfied && free[k] in free;
      PlanInside(g, unsatisfied, Remove(free, k), draw, i + 1);
    }
  }

  lemma PlanCons(unsatisfied: seq<Pos>, free: seq<Pos>, draw: nat -> nat, i: nat, done: seq<Move>, plan: seq<Move>)
    requires i < |unsatisfied| && free != [] && done + Plan(unsatisfied, free, draw, i) == plan
    ensures
      var k := draw(i) % |free|;
      (done + [Move(unsatisfied[i], free[k])]) + Plan(unsatisfied, Remove(free, k), draw, i + 1) == plan
  {
    var k := draw(i) % |free|;
    var m, rest := Move(unsatisfied[i], free[k]), Plan(unsatisfied, Remove(free, k), draw, i + 1);
    assert done + [m] + rest == done + ([m] + rest);
  }

  lemma PlanNone(unsatisfied: seq<Pos>, free: seq<Pos>, draw: nat -> nat, i: nat)
    requires i >= |unsatisfied| || free == []
    ensures Plan(unsatisfied, free, draw, i) == []
  {
  }

  /** Cell by cell, what one move leaves behind. */
  lemma StepCells(g: Grid, m: Move)
    requires Square(g) && MoveInside(g, m)
    ensures forall i, j :: 0 <= i < |g| && 0 <= j < |g| ==>
      Step(g, m)[i][j] ==
        if Pos(i, j) == m.from then None
        else if Pos(i, j) == m.to then g[m.from.row][m.from.col]
        else g[i][j]
  {
    var h := Step(g, m);
    forall i, j | 0 <= i < |g| && 0 <= j < |g|
      ensures h[i][j] == if Pos(i, j) == m.from then None
        else if Pos(i, j) == m.to then g[m.from.row][m.from.col] else g[i][j]
    {
      assert h[i][j] == Get(h, Pos(i, j));
    }
  }

  lemma ApplySnoc(g: Grid, ms: seq<Move>, m: Move)
    requires Square(g) && AllInside(g, ms) && MoveInside(g, m)
    ensures AllInside(g, ms + [m])
    ensures Apply(g, ms + [m]) == Step(Apply(g, ms), m)
  {
    assert (ms + [m])[..|ms|] == ms;
  }
}
