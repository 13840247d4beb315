/** Properties of the segregation model: what the neighbour counts mean,
    when an actor is satisfied, what the scans collect, and what one update
    does to the world. */
module NeighboursProperties {
  import opened Neighbours

  // ---------------------------------------------------------------------
  // Neighbour counts
  // ---------------------------------------------------------------------

  /** In one row of the block, the alike neighbours are among the occupied
      ones, and at most one per column looked at; the centre never counts. */
  lemma {:induction false} RowBounds(g: Grid, row: int, col: int, a: Actor, dr: int, dc: int)
    requires Square(g) && -1 <= dc <= 2
    ensures AlikeRow(g, row, col, a, dr, dc) <= OccupiedRow(g, row, col, dr, dc)
    ensures OccupiedRow(g, row, col, dr, dc) <= dc + 1 - (if dr == 0 && dc >= 1 then 1 else 0)
    decreases dc + 1
  {
    if dc > -1 {
      RowBounds(g, row, col, a, dr, dc - 1);
    }
  }

  lemma {:induction false} RowsBounds(g: Grid, row: int, col: int, a: Actor, dr: int)
    requires Square(g) && -1 <= dr <= 2
    ensures Alike(g, row, col, a, dr) <= Occupied(g, row, col, dr)
    ensures Occupied(g, row, col, dr) <= 3 * (dr + 1) - (if dr >= 1 then 1 else 0)
    decreases dr + 1
  {
    if dr > -1 {
      RowsBounds(g, row, col, a, dr - 1);
      RowBounds(g, row, col, a, dr - 1, 2);
    }
  }

  /** On a square world, the valid locations are exactly the positions
      that index a cell. */
  lemma ValidCells(g: Grid, row: int, col: int)
    requires Square(g)
    ensures IsValidLocation(|g|, row, col) <==> 0 <= row < |g| && 0 <= col < |g[row]|
  {
  }

  /** At most eight neighbours, and the matching ones are among them. */
  lemma CountBounds(g: Grid, row: int, col: int)
    requires Square(g) && IsValidLocation(|g|, row, col)
    ensures 0 <= Matches(g, row, col) <= NeighbourCount(g, row, col) <= 8
  {
    RowsBounds(g, row, col, g[row][col], 2);
  }

  lemma {:induction false} RowEmpty(g: Grid, row: int, col: int, dr: int, dc: int)
    requires Square(g) && -1 <= dc <= 2
    ensures OccupiedRow(g, row, col, dr, dc) == 0 <==>
      forall c :: -1 <= c < dc ==> Seen(g, row, col, dr, c) == None
    decreases dc + 1
  {
    if dc > -1 {
      RowEmpty(g, row, col, dr, dc - 1);
    }
  }

  /** Row offset `r` of the block around (row, col) holds no actor. */
  predicate RowVacant(g: Grid, row: int, col: int, r: int)
    requires Square(g)
  {
    forall c :: -1 <= c <= 1 ==> Seen(g, row, col, r, c) == None
  }

  lemma {:induction false} RowsEmpty(g: Grid, row: int, col: int, dr: int)
    requires Square(g) && -1 <= dr <= 2
    ensures Occupied(g, row, col, dr) == 0 <==> forall r :: -1 <= r < dr ==> RowVacant(g, row, col, r)
    decreases dr + 1
  {
    if dr > -1 {
      RowsEmpty(g, row, col, dr - 1);
      RowEmpty(g, row, col, dr - 1, 2);
      assert RowVacant(g, row, col, dr - 1) <==> OccupiedRow(g, row, col, dr - 1, 2) == 0;
    }
  }

  /** No neighbours exactly when every cell around is empty or outside. */
  lemma Isolated(g: Grid, row: int, col: int)
    requires Square(g)
    ensures NeighbourCount(g, row, col) == 0 <==>
      forall dr, dc :: -1 <= dr <= 1 && -1 <= dc <= 1 ==> Seen(g, row, col, dr, dc) == None
  {
    RowsEmpty(g, row, col, 2);
    if NeighbourCount(g, row, col) == 0 {
      forall dr, dc | -1 <= dr <= 1 && -1 <= dc <= 1 ensures Seen(g, row, col, dr, dc) == None {
        assert RowVacant(g, row, col, dr);
      }
    } else {
      var r :| -1 <= r < 2 && !RowVacant(g, row, col, r);
      var c :| -1 <= c <= 1 && Seen(g, row, col, r, c) != None;
    }
  }

  lemma {:induction false} RowAlike(g: Grid, row: int, col: int, a: Actor, dr: int, dc: int)
    requires Square(g) && -1 <= dc <= 2
    ensures AlikeRow(g, row, col, a, dr, dc) == OccupiedRow(g, row, col, dr, dc) <==>
      forall c :: -1 <= c < dc && Seen(g, row, col, dr, c) != None ==> Seen(g, row, col, dr, c) == a
    decreases dc + 1
  {
    if dc > -1 {
      RowAlike(g, row, col, a, dr, dc - 1);
      RowBounds(g, row, col, a, dr, dc - 1);
    }
  }

  /** Every actor in row offset `r` of the block around (row, col) is `a`. */
  predicate RowUnanimous(g: Grid, row: int, col: int, a: Actor, r: int)
    requires Square(g)
  {
    forall c :: -1 <= c <= 1 && Seen(g, row, col, r, c) != None ==> Seen(g, row, col, r, c) == a
  }

  lemma {:induction false} RowsAlike(g: Grid, row: int, col: int, a: Actor, dr: int)
    requires Square(g) && -1 <= dr <= 2
    ensures Alike(g, row, col, a, dr) == Occupied(g, row, col, dr) <==>
      forall r :: -1 <= r < dr ==> RowUnanimous(g, row, col, a, r)
    decreases dr + 1
  {
    if dr > -1 {
      RowsAlike(g, row, col, a, dr - 1);
      RowUnanimousIff(g, row, col, a, dr - 1);
      AlikeSplit(g, row, col, a, dr);
      if Alike(g, row, col, a, dr - 1) != Occupied(g, row, col, dr - 1) {
        var r :| -1 <= r < dr - 1 && !RowUnanimous(g, row, col, a, r);
      }
    }
  }

  lemma RowUnanimousIff(g: Grid, row: int, col: int, a: Actor, r: int)
    requires Square(g)
    ensures RowUnanimous(g, row, col, a, r) <==> AlikeRow(g, row, col, a, r, 2) == OccupiedRow(g, row, col, r, 2)
  {
    RowAlike(g, row, col, a, r, 2);
  }

  /** All the first `dr` + 1 rows match exactly when the first `dr` and the
      last one do. */
  lemma AlikeSplit(g: Grid, row: int, col: int, a: Actor, dr: int)
    requires Square(g) && 0 <= dr <= 2
    ensures Alike(g, row, col, a, dr) == Occupied(g, row, col, dr) <==>
      Alike(g, row, col, a, dr - 1) == Occupied(g, row, col, dr - 1) &&
      AlikeRow(g, row, col, a, dr - 1, 2) == OccupiedRow(g, row, col, dr - 1, 2)
  {
    RowsBounds(g, row, col, a, dr - 1);
    RowBounds(g, row, col, a, dr - 1, 2);
  }

  /** Every neighbour matches exactly when every occupied cell around has
      the colour of the centre. */
  lemma Unanimous(g: Grid, row: int, col: int)
    requires Square(g) && IsValidLocation(|g|, row, col)
    ensures Matches(g, row, col) == NeighbourCount(g, row, col) <==>
      forall dr, dc :: -1 <= dr <= 1 && -1 <= dc <= 1 && Seen(g, row, col, dr, dc) != None ==>
        Seen(g, row, col, dr, dc) == g[row][col]
  {
    var a := g[row][col];
    RowsAlike(g, row, col, a, 2);
    if Matches(g, row, col) == NeighbourCount(g, row, col) {
      forall dr, dc | -1 <= dr <= 1 && -1 <= dc <= 1 && Seen(g, row, col, dr, dc) != None
        ensures Seen(g, row, col, dr, dc) == a
      {
        assert RowUnanimous(g, row, col, a, dr);
      }
    } else {
      var r :| -1 <= r < 2 && !RowUnanimous(g, row, col, a, r);
      var c :| -1 <= c <= 1 && Seen(g, row, col, r, c) != None && Seen(g, row, col, r, c) != a;
    }
  }

  // ---------------------------------------------------------------------
  // Satisfaction
  // ---------------------------------------------------------------------

  /** The fraction test without division. */
  lemma ContentIff(matches: nat, neighbours: nat, threshold: real)
    ensures Content(matches, neighbours, threshold) <==>
      neighbours == 0 || matches as real >= threshold * neighbours as real
  {
    var n, m := neighbours as real, matches as real;
    if neighbours != 0 {
      assert (m / n) * n == m;
      assert m / n >= threshold <==> (m / n) * n >= threshold * n;
    }
  }

  /** A lower threshold satisfies every actor a higher one does. */
  lemma SatisfiedMonotone(g: Grid, row: int, col: int, low: real, high: real)
    requires Square(g) && IsValidLocation(|g|, row, col) && low <= high
    ensures Satisfied(g, row, col, high) ==> Satisfied(g, row, col, low)
  {
  }

  /** With at most as many matches as neighbours, a threshold of zero or
      below always passes and one above one passes only without neighbours. */
  lemma ContentExtremes(matches: nat, neighbours: nat, threshold: real)
    requires matches <= neighbours
    ensures threshold <= 0.0 ==> Content(matches, neighbours, threshold)
    ensures threshold > 1.0 ==> (Content(matches, neighbours, threshold) <==> neighbours == 0)
    ensures threshold <= 1.0 && matches == neighbours ==> Content(matches, neighbours, threshold)
  {
    ContentIff(matches, neighbours, threshold);
    if neighbours != 0 && threshold > 1.0 {
      assert threshold * neighbours as real > neighbours as real;
    }
  }

  /** At threshold zero or below every actor is satisfied; above one only
      the empty cells and the actors without neighbours are. */
  lemma ThresholdExtremes(g: Grid, row: int, col: int, threshold: real)
    requires Square(g) && IsValidLocation(|g|, row, col)
    ensures threshold <= 0.0 ==> Satisfied(g, row, col, threshold)
    ensures threshold > 1.0 ==>
      (Satisfied(g, row, col, threshold) <==> g[row][col] == None || NeighbourCount(g, row, col) == 0)
  {
    CountBounds(g, row, col);
    ContentExtremes(Matches(g, row, col), NeighbourCount(g, row, col), threshold);
  }

  /** An actor whose occupied neighbours all share its colour is satisfied
      at any threshold up to one. */
  lemma UnanimousSatisfied(g: Grid, row: int, col: int, threshold: real)
    requires Square(g) && IsValidLocation(|g|, row, col) && threshold <= 1.0
    requires forall dr, dc :: -1 <= dr <= 1 && -1 <= dc <= 1 && Seen(g, row, col, dr, dc) != None ==>
      Seen(g, row, col, dr, dc) == g[row][col]
    ensures Satisfied(g, row, col, threshold)
  {
    Unanimous(g, row, col);
    CountBounds(g, row, col);
    ContentExtremes(Matches(g, row, col), NeighbourCount(g, row, col), threshold);
  }

  // ---------------------------------------------------------------------
  // Scans
  // ---------------------------------------------------------------------

  lemma {:induction false} ScanRowMembers(g: Grid, f: Filter, r: nat, c: nat)
    requires Square(g) && r < |g| && c <= |g|
    ensures forall p :: p in ScanRow(g, f, r, c) <==> p.row == r && 0 <= p.col < c && Wanted(g, f, p)
  {
    if c > 0 {
      ScanRowMembers(g, f, r, c - 1);
    }
  }

  lemma {:induction false} ScanRowsMembers(g: Grid, f: Filter, r: nat)
    requires Square(g) && r <= |g|
    ensures forall p :: p in ScanRows(g, f, r) <==> 0 <= p.row < r && 0 <= p.col < |g| && Wanted(g, f, p)
  {
    if r > 0 {
      ScanRowsMembers(g, f, r - 1);
      ScanRowMembers(g, f, r - 1, |g|);
    }
  }

  /** A scan collects exactly the wanted cells of the world. */
  lemma ScanMembers(g: Grid, f: Filter)
    requires Square(g)
    ensures forall p :: p in Scan(g, f) <==> Inside(g, p) && Wanted(g, f, p)
  {
    ScanRowsMembers(g, f, |g|);
  }

  /** `p` comes before `q` in row-major order. */
  predicate Before(p: Pos, q: Pos) {
    p.row < q.row || (p.row == q.row && p.col < q.col)
  }

  predicate RowMajor(s: seq<Pos>) {
    forall i, j :: 0 <= i < j < |s| ==> Before(s[i], s[j])
  }

  predicate Distinct<T(==)>(s: seq<T>) {
    forall i, j :: 0 <= i < j < |s| ==> s[i] != s[j]
  }

  lemma RowMajorConcat(a: seq<Pos>, b: seq<Pos>)
    requires RowMajor(a) && RowMajor(b)
    requires forall x, y :: x in a && y in b ==> Before(x, y)
    ensures RowMajor(a + b)
  {
    forall i, j | 0 <= i < j < |a + b| ensures Before((a + b)[i], (a + b)[j]) {
      if j < |a| {
        assert Before(a[i], a[j]);
      } else if i < |a| {
        assert a[i] in a && b[j - |a|] in b;
      } else {
        assert Before(b[i - |a|], b[j - |a|]);
      }
    }
  }

  lemma {:induction false} ScanRowOrdered(g: Grid, f: Filter, r: nat, c: nat)
    requires Square(g) && r < |g| && c <= |g|
    ensures RowMajor(ScanRow(g, f, r, c))
  {
    if c > 0 {
      ScanRowOrdered(g, f, r, c - 1);
      ScanRowInside(g, f, r, c - 1);
      RowMajorConcat(ScanRow(g, f, r, c - 1), if Wanted(g, f, Pos(r, c - 1)) then [Pos(r, c - 1)] else []);
    }
  }

  lemma {:induction false} ScanRowsOrdered(g: Grid, f: Filter, r: nat)
    requires Square(g) && r <= |g|
    ensures RowMajor(ScanRows(g, f, r))
  {
    if r > 0 {
      ScanRowsOrdered(g, f, r - 1);
      ScanRowOrdered(g, f, r - 1, |g|);
      ScanRowsInside(g, f, r - 1);
      ScanRowInside(g, f, r - 1, |g|);
      RowMajorConcat(ScanRows(g, f, r - 1), ScanRow(g, f, r - 1, |g|));
    }
  }

  /** A scan lists the cells in strictly increasing row-major order, so
      none twice. */
  lemma ScanOrdered(g: Grid, f: Filter)
    requires Square(g)
    ensures RowMajor(Scan(g, f)) && Distinct(Scan(g, f))
  {
    ScanRowsOrdered(g, f, |g|);
  }

  // ---------------------------------------------------------------------
  // The moves planned
  // ---------------------------------------------------------------------

  lemma RemoveFacts(s: seq<Pos>, k: nat)
    requires k < |s|
    ensures |Remove(s, k)| == |s| - 1
    ensures forall x :: x in Remove(s, k) ==> x in s
    ensures Distinct(s) ==> Distinct(Remove(s, k)) && s[k] !in Remove(s, k)
  {
    var t := Remove(s, k);
    forall x | x in t ensures x in s {
      var i :| 0 <= i < |t| && t[i] == x;
      assert x == if i < k then s[i] else s[i + 1];
    }
    if Distinct(s) {
      forall i, j | 0 <= i < j < |t| ensures t[i] != t[j] {
        assert t[i] == if i < k then s[i] else s[i + 1];
        assert t[j] == if j < k then s[j] else s[j + 1];
      }
      forall i | 0 <= i < |t| ensures t[i] != s[k] {
        assert t[i] == if i < k then s[i] else s[i + 1];
      }
    }
  }

  /** As many moves as there are actors left or free locations, whichever
      is fewer; the j-th moves the (i + j)-th actor. */
  lemma {:induction false} PlanShape(unsatisfied: seq<Pos>, free: seq<Pos>, draw: nat -> nat, i: nat)
    requires i <= |unsatisfied|
    ensures var ms := Plan(unsatisfied, free, draw, i);
      |ms| == (if |unsatisfied| - i <= |free| then |unsatisfied| - i else |free|) &&
      forall j :: 0 <= j < |ms| ==> ms[j].from == unsatisfied[i + j]
    decreases |unsatisfied| - i
  {
    if i < |unsatisfied| && free != [] {
      var k := draw(i) % |free|;
      RemoveFacts(free, k);
      PlanShape(unsatisfied, Remove(free, k), draw, i + 1);
    }
  }

  /** Every move goes to one of the free locations. */
  lemma {:induction false} PlanTargetsFree(unsatisfied: seq<Pos>, free: seq<Pos>, draw: nat -> nat, i: nat)
    ensures forall m :: m in Plan(unsatisfied, free, draw, i) ==> m.to in free
    decreases |unsatisfied| - i
  {
    if i < |unsatisfied| && free != [] {
      var k := draw(i) % |free|;
      RemoveFacts(free, k);
      PlanTargetsFree(unsatisfied, Remove(free, k), draw, i + 1);
    }
  }

  /** The locations the moves go to, in order. */
  function Targets(ms: seq<Move>): (ts: seq<Pos>)
    ensures |ts| == |ms| && forall j :: 0 <= j < |ms| ==> ts[j] == ms[j].to
  {
    seq(|ms|, j requires 0 <= j < |ms| => ms[j].to)
  }

  lemma DistinctCons<T>(x: T, t: seq<T>)
    requires x !in t && Distinct(t)
    ensures Distinct([x] + t)
  {
    forall i, j | 0 <= i < j < |[x] + t| ensures ([x] + t)[i] != ([x] + t)[j] {
      assert ([x] + t)[j] == t[j - 1];
      if i > 0 {
        assert ([x] + t)[i] == t[i - 1];
      }
    }
  }

  lemma TargetsCons(m: Move, rest: seq<Move>, s: seq<Pos>)
    requires forall n :: n in rest ==> n.to in s
    ensures Targets([m] + rest) == [m.to] + Targets(rest)
    ensures forall x :: x in Targets(rest) ==> x in s
  {
    assert Targets([m] + rest) == [m.to] + Targets(rest);
    forall x | x in Targets(rest) ensures x in s {
      var j :| 0 <= j < |rest| && Targets(rest)[j] == x;
      assert rest[j] in rest;
    }
  }

  /** When the free locations are distinct, no two moves share a target. */
  lemma {:induction false} PlanTargetsDistinct(unsatisfied: seq<Pos>, free: seq<Pos>, draw: nat -> nat, i: nat)
    requires Distinct(free)
    ensures Distinct(Targets(Plan(unsatisfied, free, draw, i)))
    decreases |unsatisfied| - i
  {
    if i < |unsatisfied| && free != [] {
      var k := draw(i) % |free|;
      var rest := Plan(unsatisfied, Remove(free, k), draw, i + 1);
      RemoveFacts(free, k);
      PlanTargetsDistinct(unsatisfied, Remove(free, k), draw, i + 1);
      PlanTargetsFree(unsatisfied, Remove(free, k), draw, i + 1);
      TargetsCons(Move(unsatisfied[i], free[k]), rest, Remove(free, k));
      DistinctCons(free[k], Targets(rest));
    }
  }

  // ---------------------------------------------------------------------
  // What the moves do
  // ---------------------------------------------------------------------

  /** The actors of the world, counted with multiplicity. */
  function Bag(g: Grid): multiset<Actor>
  {
    if g == [] then multiset{} else Bag(g[..|g| - 1]) + multiset(g[|g| - 1])
  }

  lemma BagLast(g: Grid)
    requires g != []
    ensures Bag(g) == Bag(g[..|g| - 1]) + multiset(g[|g| - 1])
  {
  }

  lemma {:induction false} BagUpdate(g: Grid, i: nat, row: seq<Actor>)
    requires i < |g|
    ensures Bag(g[i := row]) + multiset(g[i]) == Bag(g) + multiset(row)
  {
    var n := |g| - 1;
    var h := g[i := row];
    BagLast(g);
    BagLast(h);
    if i < n {
      assert h[..n] == g[..n][i := row];
      BagUpdate(g[..n], i, row);
      assert h[n] == g[n];
      MultisetSwap(Bag(h[..n]), multiset(g[i]), Bag(g[..n]), multiset(row), multiset(g[n]));
    } else {
      assert h[..n] == g[..n];
    }
  }

  /** When x + a == y + b, adding the same c to both x and y keeps it so,
      whatever the grouping. */
  lemma MultisetSwap<T>(x: multiset<T>, a: multiset<T>, y: multiset<T>, b: multiset<T>, c: multiset<T>)
    requires x + a == y + b
    ensures (x + c) + a == (y + c) + b
  {
    forall e ensures ((x + c) + a)[e] == ((y + c) + b)[e] {
      assert (x + a)[e] == (y + b)[e];
    }
  }

  lemma MultisetCancel<T>(x: multiset<T>, y: multiset<T>, a: T)
    requires x + multiset{a} == y + multiset{a}
    ensures x == y
  {
    assert forall e :: x[e] == (x + multiset{a})[e] - multiset{a}[e];
  }

  /** Writing `a` at index `c` swaps one occurrence of the old element for `a`. */
  lemma UpdateMultiset<T>(s: seq<T>, c: nat, a: T)
    requires c < |s|
    ensures multiset(s[c := a]) + multiset{s[c]} == multiset(s) + multiset{a}
  {
    assert s == s[..c] + [s[c]] + s[c + 1..];
    assert s[c := a] == s[..c] + [a] + s[c + 1..];
  }

  /** Writing `a` over a cell swaps one occurrence of its old actor for `a`. */
  lemma PutBag(g: Grid, p: Pos, a: Actor)
    requires Square(g) && Inside(g, p)
    ensures Bag(Put(g, p, a)) + multiset{Get(g, p)} == Bag(g) + multiset{a}
  {
    var row := g[p.row];
    var row' := row[p.col := a];
    BagUpdate(g, p.row, row');
    UpdateMultiset(row, p.col, a);
    assert Put(g, p, a) == g[p.row := row'];
    PutDetail(Bag(Put(g, p, a)), Bag(g), multiset(row), multiset(row'), row[p.col], a);
  }

  /** The multiset step of `PutBag`. */
  lemma PutDetail<T>(h: multiset<T>, g: multiset<T>, row: multiset<T>, row': multiset<T>, was: T, a: T)
    requires h + row == g + row'
    requires row' + multiset{was} == row + multiset{a}
    ensures h + multiset{was} == g + multiset{a}
  {
    forall e ensures (h + multiset{was})[e] == (g + multiset{a})[e] {
      assert (h + row)[e] == (g + row')[e];
      assert (row' + multiset{was})[e] == (row + multiset{a})[e];
    }
  }

  /** A move to an empty location keeps every actor. */
  lemma StepBag(g: Grid, m: Move)
    requires Square(g) && MoveInside(g, m) && Get(g, m.to) == None
    ensures Bag(Step(g, m)) == Bag(g)
  {
    var a := Get(g, m.from);
    var h := Put(g, m.to, a);
    var k := Put(h, m.from, None);
    PutBag(g, m.to, a);
    assert Get(h, m.from) == a;
    PutBag(h, m.from, None);
    assert k == Step(g, m);
    MultisetCancel(Bag(k), Bag(g), a);
  }

  /** No move of `ms` leaves from or arrives at `p`. */
  predicate Untouched(ms: seq<Move>, p: Pos) {
    forall j :: 0 <= j < |ms| ==> p != ms[j].from && p != ms[j].to
  }

  /** A cell no move touches keeps its actor. */
  lemma {:induction false} ApplyUntouched(g: Grid, ms: seq<Move>, p: Pos)
    requires Square(g) && AllInside(g, ms) && Inside(g, p) && Untouched(ms, p)
    ensures Get(Apply(g, ms), p) == Get(g, p)
    decreases |ms|
  {
    if ms != [] {
      ApplyUntouched(g, ms[..|ms| - 1], p);
    }
  }

  /** A cell that was empty and is no move's target stays empty. */
  lemma {:induction false} UnusedStaysNone(g: Grid, ms: seq<Move>, p: Pos)
    requires Square(g) && AllInside(g, ms) && Inside(g, p) && Get(g, p) == None
    requires forall j :: 0 <= j < |ms| ==> p != ms[j].to
    ensures Get(Apply(g, ms), p) == None
    decreases |ms|
  {
    if ms != [] {
      UnusedStaysNone(g, ms[..|ms| - 1], p);
    }
  }

  /** Moves to distinct empty locations keep every actor. */
  lemma {:induction false} ApplyBag(g: Grid, ms: seq<Move>)
    requires Square(g) && AllInside(g, ms)
    requires forall j :: 0 <= j < |ms| ==> Get(g, ms[j].to) == None
    requires Distinct(Targets(ms))
    ensures Bag(Apply(g, ms)) == Bag(g)
    decreases |ms|
  {
    if ms != [] {
      var n := |ms| - 1;
      var init := ms[..n];
      assert Targets(init) == Targets(ms)[..n];
      ApplyBag(g, init);
      assert forall j :: 0 <= j < n ==> init[j].to == Targets(ms)[j];
      UnusedStaysNone(g, init, ms[n].to);
      StepBag(Apply(g, init), ms[n]);
    }
  }

  /** Moves in which no actor moves twice, each from an occupied cell to a
      distinct empty one. */
  predicate Disjoint(g: Grid, ms: seq<Move>) {
    Square(g) && AllInside(g, ms) &&
    (forall j :: 0 <= j < |ms| ==> Get(g, ms[j].from) != None && Get(g, ms[j].to) == None) &&
    (forall j, k :: 0 <= j < k < |ms| ==> ms[j].from != ms[k].from && ms[j].to != ms[k].to)
  }

  /** The moves `ms` from `g` left `h` with every actor on its target and
      every source empty. */
  predicate Effect(g: Grid, ms: seq<Move>, h: Grid) {
    Square(g) && Square(h) && |h| == |g| && AllInside(g, ms) &&
    forall j :: 0 <= j < |ms| ==> Get(h, ms[j].from) == None && Get(h, ms[j].to) == Get(g, ms[j].from)
  }

  lemma DisjointPrefix(g: Grid, ms: seq<Move>, n: nat)
    requires Disjoint(g, ms) && n <= |ms|
    ensures Disjoint(g, ms[..n])
  {
  }

  /** One more disjoint move keeps the earlier ones in place. */
  lemma EffectStep(g: Grid, init: seq<Move>, m: Move, h: Grid)
    requires Disjoint(g, init + [m]) && MoveInside(g, m) && Effect(g, init, h)
    requires Get(h, m.from) == Get(g, m.from)
    ensures Effect(g, init + [m], Step(h, m))
  {
    var ms := init + [m];
    var n := |init|;
    StepCells(h, m);
    assert ms[n] == m;
    forall j | 0 <= j < |ms|
      ensures Get(Step(h, m), ms[j].from) == None && Get(Step(h, m), ms[j].to) == Get(g, ms[j].from)
    {
      if j < n {
        assert ms[j] == init[j];
      }
    }
  }

  /** After disjoint moves each actor stands on its target and its old
      cell is empty. */
  lemma {:induction false} ApplyEffect(g: Grid, ms: seq<Move>)
    requires Disjoint(g, ms)
    ensures Effect(g, ms, Apply(g, ms))
    decreases |ms|
  {
    if ms != [] {
      var n := |ms| - 1;
      var init, m := ms[..n], ms[n];
      assert init + [m] == ms;
      DisjointPrefix(g, ms, n);
      ApplyEffect(g, init);
      var h := Apply(g, init);
      forall j | 0 <= j < n ensures m.from != init[j].from && m.from != init[j].to {
        assert init[j] == ms[j];
      }
      ApplyUntouched(g, init, m.from);
      ApplySnoc(g, init, m);
      EffectStep(g, init, m, h);
    }
  }

  // ---------------------------------------------------------------------
  // One update
  // ---------------------------------------------------------------------

  /** The moves of one update: the unsatisfied actors in row-major order,
      each to an empty location picked by `draw`. */
  function Moves(g: Grid, draw: nat -> nat): seq<Move>
    requires Square(g)
  {
    Plan(Scan(g, Discontent(Threshold)), Scan(g, Vacant), draw, 0)
  }

  /** Moving the listed actors to empty locations keeps every actor. */
  lemma RelocatedBag(g: Grid, unsatisfied: seq<Pos>, draw: nat -> nat)
    requires Square(g) && forall p :: p in unsatisfied ==> Inside(g, p)
    ensures Bag(Relocated(g, unsatisfied, draw)) == Bag(g)
  {
    var free := Scan(g, Vacant);
    var ms := Plan(unsatisfied, free, draw, 0);
    ScanInside(g, Vacant);
    ScanMembers(g, Vacant);
    ScanOrdered(g, Vacant);
    PlanInside(g, unsatisfied, free, draw, 0);
    PlanTargetsFree(unsatisfied, free, draw, 0);
    PlanTargetsDistinct(unsatisfied, free, draw, 0);
    forall j | 0 <= j < |ms| ensures Get(g, ms[j].to) == None {
      assert ms[j] in ms;
    }
    ApplyBag(g, ms);
  }

  /** One update keeps every actor: as many reds, blues and empty cells. */
  lemma UpdateBag(g: Grid, draw: nat -> nat)
    requires Square(g)
    ensures Bag(Update(g, draw)) == Bag(g)
  {
    ScanInside(g, Discontent(Threshold));
    RelocatedBag(g, Scan(g, Discontent(Threshold)), draw);
  }

  /** The moves of one update: as many as there are unsatisfied actors or
      empty locations, whichever is fewer, the j-th moving the j-th
      unsatisfied actor to one of the empty locations. */
  lemma MovesShape(g: Grid, draw: nat -> nat)
    requires Square(g)
    ensures var u, e, ms := Scan(g, Discontent(Threshold)), Scan(g, Vacant), Moves(g, draw);
      |ms| == (if |u| <= |e| then |u| else |e|) &&
      forall j :: 0 <= j < |ms| ==> ms[j].from == u[j] && ms[j].to in e
  {
    var u, e, ms := Scan(g, Discontent(Threshold)), Scan(g, Vacant), Moves(g, draw);
    PlanShape(u, e, draw, 0);
    PlanTargetsFree(u, e, draw, 0);
    forall j | 0 <= j < |ms| ensures ms[j].to in e {
      assert ms[j] in ms;
    }
  }

  /** The unsatisfied actors occupy their cells; the empty locations are empty. */
  lemma ScanCells(g: Grid, threshold: real)
    requires Square(g)
    ensures forall p :: p in Scan(g, Discontent(threshold)) ==> Inside(g, p) && Get(g, p) != None
    ensures forall p :: p in Scan(g, Vacant) ==> Inside(g, p) && Get(g, p) == None
  {
    ScanMembers(g, Discontent(threshold));
    ScanMembers(g, Vacant);
  }

  /** Moves of distinct occupied cells to distinct empty ones are disjoint. */
  lemma DisjointBy(g: Grid, ms: seq<Move>, u: seq<Pos>, e: seq<Pos>)
    requires Square(g) && |ms| <= |u|
    requires forall p :: p in u ==> Inside(g, p) && Get(g, p) != None
    requires forall p :: p in e ==> Inside(g, p) && Get(g, p) == None
    requires forall j :: 0 <= j < |ms| ==> ms[j].from == u[j] && ms[j].to in e
    requires Distinct(u) && Distinct(Targets(ms))
    ensures Disjoint(g, ms)
  {
    forall j | 0 <= j < |ms| ensures MoveInside(g, ms[j]) && Get(g, ms[j].from) != None && Get(g, ms[j].to) == None {
      assert u[j] in u;
    }
    forall j, k | 0 <= j < k < |ms| ensures ms[j].from != ms[k].from && ms[j].to != ms[k].to {
      assert Targets(ms)[j] != Targets(ms)[k];
    }
  }

  /** No actor moves twice in one update, and no two go to the same place. */
  lemma MovesDisjoint(g: Grid, draw: nat -> nat)
    requires Square(g)
    ensures Disjoint(g, Moves(g, draw))
  {
    var u, e := Scan(g, Discontent(Threshold)), Scan(g, Vacant);
    MovesShape(g, draw);
    ScanOrdered(g, Discontent(Threshold));
    ScanOrdered(g, Vacant);
    PlanTargetsDistinct(u, e, draw, 0);
    ScanCells(g, Threshold);
    DisjointBy(g, Moves(g, draw), u, e);
  }

  /** After one update every moved actor stands on its target, its old cell
      is empty, and every cell no move touches is as it was. */
  lemma UpdateEffect(g: Grid, draw: nat -> nat)
    requires Square(g)
    ensures Effect(g, Moves(g, draw), Update(g, draw))
    ensures forall p :: Inside(g, p) && Untouched(Moves(g, draw), p) ==> Get(Update(g, draw), p) == Get(g, p)
  {
    var ms := Moves(g, draw);
    MovesDisjoint(g, draw);
    ApplyEffect(g, ms);
    assert Update(g, draw) == Apply(g, ms);
    forall p | Inside(g, p) && Untouched(ms, p) ensures Get(Update(g, draw), p) == Get(g, p) {
      ApplyUntouched(g, ms, p);
    }
  }

  /** A satisfied actor stays where it is. */
  lemma SatisfiedStays(g: Grid, draw: nat -> nat, p: Pos)
    requires Square(g) && Inside(g, p) && Get(g, p) != None && Satisfied(g, p.row, p.col, Threshold)
    ensures Get(Update(g, draw), p) == Get(g, p)
  {
    var u, ms := Scan(g, Discontent(Threshold)), Moves(g, draw);
    MovesShape(g, draw);
    MovesDisjoint(g, draw);
    ScanMembers(g, Discontent(Threshold));
    forall j | 0 <= j < |ms| ensures p != ms[j].from && p != ms[j].to {
      assert u[j] in u;
    }
    UpdateEffect(g, draw);
  }

  /** With at least as many empty locations as unsatisfied actors, every
      unsatisfied actor moves. */
  lemma EveryoneMoves(g: Grid, draw: nat -> nat, p: Pos)
    requires Square(g) && Inside(g, p) && Get(g, p) != None && !Satisfied(g, p.row, p.col, Threshold)
    requires |Scan(g, Discontent(Threshold))| <= |Scan(g, Vacant)|
    ensures exists j :: 0 <= j < |Moves(g, draw)| && Moves(g, draw)[j].from == p
  {
    var u := Scan(g, Discontent(Threshold));
    MovesShape(g, draw);
    ScanMembers(g, Discontent(Threshold));
    assert p in u;
    var j :| 0 <= j < |u| && u[j] == p;
    assert Moves(g, draw)[j].from == p;
  }
}
