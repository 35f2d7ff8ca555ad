/**
 * What the safety search of QExam/Matrix.cpp computes: each cell's step
 * distance to the nearest blocked cell, INT_MAX where no cell is blocked.
 *
 * SafetyMap is the property the search establishes (and that the class
 * Matrix ensures); the lemmas here show that it pins every value down as a
 * shortest-walk distance.
 */
module ExamSafety {
  import opened StdTypes
  import opened RowMajor
  import opened ExamBoard

  /** Matrix::GetGrid: true exactly for blocked cells of the board. */
  predicate Blocked(w: int, h: int, grid: seq<bool>, c: Coord) {
    At(grid, w, h, c, false)
  }

  /** Matrix::GetSafety. */
  function Safety(w: int, h: int, s: seq<int>, c: Coord): int {
    At(s, w, h, c, 0)
  }

  /** Stored values lie in 0..INT_MAX and are zero exactly on blocked cells. */
  predicate Shaped(w: int, h: int, grid: seq<bool>, s: seq<int>) {
    |grid| == Area(w, h) && |s| == Area(w, h)
    && forall i :: 0 <= i < |s| ==> 0 <= s[i] <= INT_MAX && (s[i] == 0 <==> grid[i])
  }

  /** No neighbour of a is more than one step safer than a. */
  ghost predicate SettledAt(w: int, h: int, s: seq<int>, a: Coord) {
    forall b :: InBounds(w, h, b) && Adjacent(a, b) ==> Safety(w, h, s, b) <= Safety(w, h, s, a) + 1
  }

  /** Adjacent safeties differ by at most one. */
  ghost predicate Settled(w: int, h: int, s: seq<int>) {
    forall a :: InBounds(w, h, a) ==> SettledAt(w, h, s, a)
  }

  /** Every finite value above zero is one more than some neighbour's. */
  ghost predicate Supported(w: int, h: int, grid: seq<bool>, s: seq<int>) {
    forall c :: InBounds(w, h, c) && !Blocked(w, h, grid, c) && Safety(w, h, s, c) < INT_MAX ==>
      exists d :: InBounds(w, h, d) && Adjacent(c, d) && Safety(w, h, s, d) < Safety(w, h, s, c)
  }

  /** The map solve_safety leaves behind. */
  ghost predicate SafetyMap(w: int, h: int, grid: seq<bool>, s: seq<int>) {
    Shaped(w, h, grid, s) && Settled(w, h, s) && Supported(w, h, grid, s)
  }

  /** A walk through the board that ends on a blocked cell. */
  ghost predicate WalkToBlock(w: int, h: int, grid: seq<bool>, p: seq<Coord>) {
    IsWalk(w, h, p) && Blocked(w, h, grid, p[|p| - 1])
  }

  lemma ShapedAt(w: int, h: int, grid: seq<bool>, s: seq<int>, c: Coord)
    requires Shaped(w, h, grid, s) && InBounds(w, h, c)
    ensures 0 <= Safety(w, h, s, c) <= INT_MAX
    ensures Safety(w, h, s, c) == 0 <==> Blocked(w, h, grid, c)
  {
    AtStored(s, w, h, c, 0);
    AtStored(grid, w, h, c, false);
  }

  /** No walk to a blocked cell is shorter than the start cell's safety. */
  lemma {:induction false} NoShorterWalk(w: int, h: int, grid: seq<bool>, s: seq<int>, p: seq<Coord>)
    requires Shaped(w, h, grid, s) && Settled(w, h, s) && WalkToBlock(w, h, grid, p)
    ensures Safety(w, h, s, p[0]) <= |p| - 1
    decreases |p|
  {
    if |p| == 1 {
      ShapedAt(w, h, grid, s, p[0]);
    } else {
      WalkTail(w, h, p);
      NoShorterWalk(w, h, grid, s, p[1..]);
      assert SettledAt(w, h, s, p[1]);
      assert Adjacent(p[1], p[0]);
    }
  }

  /** Following smaller neighbours from a finite cell reaches a blocked cell in exactly its safety's steps. */
  lemma {:induction false} WalkOfSafetyLength(w: int, h: int, grid: seq<bool>, s: seq<int>, c: Coord)
    returns (p: seq<Coord>)
    requires SafetyMap(w, h, grid, s) && InBounds(w, h, c) && Safety(w, h, s, c) < INT_MAX
    ensures WalkToBlock(w, h, grid, p) && p[0] == c && |p| - 1 == Safety(w, h, s, c)
    decreases Safety(w, h, s, c)
  {
    ShapedAt(w, h, grid, s, c);
    if Blocked(w, h, grid, c) {
      p := [c];
    } else {
      var d :| InBounds(w, h, d) && Adjacent(c, d) && Safety(w, h, s, d) < Safety(w, h, s, c);
      ShapedAt(w, h, grid, s, d);
      assert SettledAt(w, h, s, d);
      assert Adjacent(d, c);
      var q := WalkOfSafetyLength(w, h, grid, s, d);
      PrependWalk(w, h, c, q);
      p := [c] + q;
    }
  }

  /** On a board of at most INT_MAX cells any two cells are fewer than INT_MAX steps apart. */
  lemma WithinReach(w: int, h: int, a: Coord, b: Coord)
    requires InBounds(w, h, a) && InBounds(w, h, b) && Area(w, h) <= INT_MAX
    ensures |StraightWalk(a, b)| - 1 < INT_MAX
  {
    SidesBelowArea(w, h);
  }

  /**
   * The meaning of the safety map: on a board with a blocked cell it is
   * finite everywhere, equal to the length of a walk to a blocked cell,
   * and no such walk is shorter; with no blocked cell it is INT_MAX
   * everywhere.
   */
  lemma SafetyIsDistance(w: int, h: int, grid: seq<bool>, s: seq<int>, c: Coord)
    requires SafetyMap(w, h, grid, s) && InBounds(w, h, c) && Area(w, h) <= INT_MAX
    ensures Safety(w, h, s, c) < INT_MAX <==> exists b :: InBounds(w, h, b) && Blocked(w, h, grid, b)
    ensures Safety(w, h, s, c) < INT_MAX ==>
      exists p :: WalkToBlock(w, h, grid, p) && p[0] == c && |p| - 1 == Safety(w, h, s, c)
    ensures forall p :: WalkToBlock(w, h, grid, p) && p[0] == c ==> Safety(w, h, s, c) <= |p| - 1
  {
    if Safety(w, h, s, c) < INT_MAX {
      var p := WalkOfSafetyLength(w, h, grid, s, c);
      assert InBounds(w, h, p[|p| - 1]);
    }
    if exists b :: InBounds(w, h, b) && Blocked(w, h, grid, b) {
      var b :| InBounds(w, h, b) && Blocked(w, h, grid, b);
      var p := StraightWalk(c, b);
      StraightWalkIsWalk(w, h, c, b);
      WithinReach(w, h, c, b);
      NoShorterWalk(w, h, grid, s, p);
    }
    forall p | WalkToBlock(w, h, grid, p) && p[0] == c ensures Safety(w, h, s, c) <= |p| - 1 {
      NoShorterWalk(w, h, grid, s, p);
    }
  }

  /** Blocked cells have safety 0 and, on a board with no blocked cell, every cell has safety INT_MAX. */
  lemma BlockedAndUnblocked(w: int, h: int, grid: seq<bool>, s: seq<int>, c: Coord)
    requires SafetyMap(w, h, grid, s) && InBounds(w, h, c) && Area(w, h) <= INT_MAX
    ensures Blocked(w, h, grid, c) ==> Safety(w, h, s, c) == 0
    ensures (forall b :: InBounds(w, h, b) ==> !Blocked(w, h, grid, b)) ==> Safety(w, h, s, c) == INT_MAX
  {
    ShapedAt(w, h, grid, s, c);
    SafetyIsDistance(w, h, grid, s, c);
  }
}
