/**
 * What the path search of QExam/Matrix.cpp computes: a shortest walk from
 * the top-left cell to the bottom-right cell through cells whose safety is
 * at least the minimum, or nothing when there is no such walk.
 *
 * The search leaves a predecessor map behind. BfsTree states what that map
 * holds once the queue is empty; the lemmas here show that following it
 * back from the goal gives such a shortest walk.
 */
module ExamPath {
  import opened StdTypes
  import opened RowMajor
  import opened ExamBoard
  import opened ExamSafety

  /** The corner the search starts from. */
  function Start(): Coord {
    Coord(0, 0)
  }

  /** The corner the path has to reach. */
  function Goal(w: int, h: int): Coord {
    Coord(w - 1, h - 1)
  }

  /** A cell the path may use. */
  predicate SafeCell(w: int, h: int, s: seq<int>, min: int, c: Coord) {
    InBounds(w, h, c) && Safety(w, h, s, c) >= min
  }

  /** A walk from the start corner to the goal corner through safe cells only. */
  ghost predicate Route(w: int, h: int, s: seq<int>, min: int, p: seq<Coord>) {
    IsWalk(w, h, p) && p[0] == Start() && p[|p| - 1] == Goal(w, h)
    && forall i :: 0 <= i < |p| ==> SafeCell(w, h, s, min, p[i])
  }

  /** The result a path search must produce: a shortest route, or nothing when there is none. */
  ghost predicate ShortestRoute(w: int, h: int, s: seq<int>, min: int, path: seq<Coord>) {
    (path == [] <==> forall p :: !Route(w, h, s, min, p))
    && (path != [] ==> Route(w, h, s, min, path) && forall p :: Route(w, h, s, min, p) ==> |path| <= |p|)
  }

  // ---------------------------------------------------------------------------
  // The predecessor map

  /** The cell a search has reached, and the cell it came from. */
  function Prev(w: int, h: int, prev: seq<Option<Coord>>, c: Coord): Option<Coord> {
    At(prev, w, h, c, None)
  }

  predicate Seen(w: int, h: int, prev: seq<Option<Coord>>, c: Coord) {
    InBounds(w, h, c) && Prev(w, h, prev, c).Some?
  }

  /** The ghost depth of a reached cell: its number of steps from the start. */
  function Depth(w: int, h: int, depth: seq<int>, c: Coord): int {
    At(depth, w, h, c, 0)
  }

  /**
   * A reached cell is safe; the start is its own predecessor at depth 0,
   * and every other reached cell has a reached, adjacent predecessor one
   * step less deep.
   */
  predicate Linked(w: int, h: int, s: seq<int>, min: int, prev: seq<Option<Coord>>, depth: seq<int>, c: Coord)
    requires Seen(w, h, prev, c)
  {
    var p := Prev(w, h, prev, c).value;
    SafeCell(w, h, s, min, c) && Depth(w, h, depth, c) >= 0
    && (c == Start() ==> p == c && Depth(w, h, depth, c) == 0)
    && (c != Start() ==> Seen(w, h, prev, p) && Adjacent(c, p) && Depth(w, h, depth, p) == Depth(w, h, depth, c) - 1)
  }

  ghost predicate Tree(w: int, h: int, s: seq<int>, min: int, prev: seq<Option<Coord>>, depth: seq<int>) {
    |prev| == Area(w, h) && |depth| == Area(w, h)
    && forall c :: Seen(w, h, prev, c) ==> Linked(w, h, s, min, prev, depth, c)
  }

  /** Every safe neighbour of a was reached, at most one step deeper than a. */
  ghost predicate ClosedAt(w: int, h: int, s: seq<int>, min: int, prev: seq<Option<Coord>>, depth: seq<int>, a: Coord) {
    forall b :: SafeCell(w, h, s, min, b) && Adjacent(a, b) ==>
      Seen(w, h, prev, b) && Depth(w, h, depth, b) <= Depth(w, h, depth, a) + 1
  }

  /** The map solve_path's search leaves behind when it reached the start. */
  ghost predicate BfsTree(w: int, h: int, s: seq<int>, min: int, prev: seq<Option<Coord>>, depth: seq<int>) {
    Tree(w, h, s, min, prev, depth) && Seen(w, h, prev, Start())
    && forall a :: Seen(w, h, prev, a) ==> ClosedAt(w, h, s, min, prev, depth, a)
  }

  /** Every cell of a route is reached no deeper than its position on the route. */
  lemma {:induction false} RouteIsSeen(w: int, h: int, s: seq<int>, min: int, prev: seq<Option<Coord>>,
                                       depth: seq<int>, p: seq<Coord>, k: nat)
    requires BfsTree(w, h, s, min, prev, depth) && Route(w, h, s, min, p) && k < |p|
    ensures Seen(w, h, prev, p[k]) && Depth(w, h, depth, p[k]) <= k
  {
    if k == 0 {
      assert Linked(w, h, s, min, prev, depth, Start());
    } else {
      RouteIsSeen(w, h, s, min, prev, depth, p, k - 1);
      assert ClosedAt(w, h, s, min, prev, depth, p[k - 1]);
      assert SafeCell(w, h, s, min, p[k]) && Adjacent(p[k - 1], p[k]);
    }
  }

  /** So the goal is reached exactly when some route exists, and no route is shorter than its depth. */
  lemma GoalSeenIffRoute(w: int, h: int, s: seq<int>, min: int, prev: seq<Option<Coord>>, depth: seq<int>)
    requires BfsTree(w, h, s, min, prev, depth)
    ensures (exists p :: Route(w, h, s, min, p)) ==> Seen(w, h, prev, Goal(w, h))
    ensures forall p :: Route(w, h, s, min, p) ==> Depth(w, h, depth, Goal(w, h)) <= |p| - 1
  {
    forall p | Route(w, h, s, min, p) ensures Seen(w, h, prev, Goal(w, h)) && Depth(w, h, depth, Goal(w, h)) <= |p| - 1 {
      RouteIsSeen(w, h, s, min, prev, depth, p, |p| - 1);
    }
  }

  /** The cells from c back to the start, following the predecessor map, in that order. */
  function BackTrack(w: int, h: int, s: seq<int>, min: int, prev: seq<Option<Coord>>, depth: seq<int>, c: Coord): (r: seq<Coord>)
    requires Tree(w, h, s, min, prev, depth) && Seen(w, h, prev, c)
    ensures |r| == Depth(w, h, depth, c) + 1 && r[0] == c && r[|r| - 1] == Start()
    decreases Depth(w, h, depth, c)
  {
    assert Linked(w, h, s, min, prev, depth, c);
    var p := Prev(w, h, prev, c).value;
    if p == c then [c] else [c] + BackTrack(w, h, s, min, prev, depth, p)
  }

  /** One step of the way back: the start ends it, any other cell is followed by its predecessor's way back. */
  lemma BackTrackStep(w: int, h: int, s: seq<int>, min: int, prev: seq<Option<Coord>>, depth: seq<int>, c: Coord)
    requires Tree(w, h, s, min, prev, depth) && Seen(w, h, prev, c)
    ensures var p := Prev(w, h, prev, c).value;
      (p == c ==> BackTrack(w, h, s, min, prev, depth, c) == [c])
      && (p != c ==> Seen(w, h, prev, p) && BackTrack(w, h, s, min, prev, depth, c) == [c] + BackTrack(w, h, s, min, prev, depth, p))
  {
    assert Linked(w, h, s, min, prev, depth, c);
  }

  /** Every cell on the way back is safe and each is adjacent to the next. */
  lemma {:induction false} BackTrackIsWalk(w: int, h: int, s: seq<int>, min: int, prev: seq<Option<Coord>>,
                                           depth: seq<int>, c: Coord)
    requires Tree(w, h, s, min, prev, depth) && Seen(w, h, prev, c)
    ensures var r := BackTrack(w, h, s, min, prev, depth, c);
      IsWalk(w, h, r) && forall i :: 0 <= i < |r| ==> SafeCell(w, h, s, min, r[i])
    decreases Depth(w, h, depth, c)
  {
    assert Linked(w, h, s, min, prev, depth, c);
    var p := Prev(w, h, prev, c).value;
    if p != c {
      BackTrackIsWalk(w, h, s, min, prev, depth, p);
      var q := BackTrack(w, h, s, min, prev, depth, p);
      PrependWalk(w, h, c, q);
      var r := [c] + q;
      forall i | 1 <= i < |r| ensures SafeCell(w, h, s, min, r[i]) {
        assert r[i] == q[i - 1];
      }
    }
  }

  function Reversed<T>(s: seq<T>): (r: seq<T>)
    ensures |r| == |s| && forall i :: 0 <= i < |s| ==> r[i] == s[|s| - 1 - i]
  {
    if s == [] then [] else Reversed(s[1..]) + [s[0]]
  }

  /** A reversed walk is a walk through the same cells. */
  lemma ReversedWalk(w: int, h: int, p: seq<Coord>)
    requires IsWalk(w, h, p)
    ensures IsWalk(w, h, Reversed(p))
  {
    var r := Reversed(p);
    forall i | 0 <= i < |r| - 1 ensures Adjacent(r[i], r[i + 1]) {
      assert r[i] == p[|p| - 1 - i] && r[i + 1] == p[|p| - 2 - i];
    }
  }

  /** The way back from a reached goal, reversed, is a route as long as the goal is deep. */
  lemma BackTrackRoute(w: int, h: int, s: seq<int>, min: int, prev: seq<Option<Coord>>, depth: seq<int>)
    requires Tree(w, h, s, min, prev, depth) && Seen(w, h, prev, Goal(w, h))
    ensures var path := Reversed(BackTrack(w, h, s, min, prev, depth, Goal(w, h)));
      Route(w, h, s, min, path) && |path| == Depth(w, h, depth, Goal(w, h)) + 1
  {
    var r := BackTrack(w, h, s, min, prev, depth, Goal(w, h));
    BackTrackIsWalk(w, h, s, min, prev, depth, Goal(w, h));
    ReversedRoute(w, h, s, min, r);
  }

  /** A safe walk from the goal back to the start, reversed, is a route. */
  lemma ReversedRoute(w: int, h: int, s: seq<int>, min: int, r: seq<Coord>)
    requires IsWalk(w, h, r) && r[0] == Goal(w, h) && r[|r| - 1] == Start()
    requires forall i :: 0 <= i < |r| ==> SafeCell(w, h, s, min, r[i])
    ensures Route(w, h, s, min, Reversed(r))
  {
    var path := Reversed(r);
    ReversedWalk(w, h, r);
    assert path[0] == r[|r| - 1];
    assert path[|path| - 1] == r[0];
    forall i | 0 <= i < |path| ensures SafeCell(w, h, s, min, path[i]) {
      assert path[i] == r[|r| - 1 - i];
    }
  }

  /** On a finished search, the way back from a reached goal, reversed, is a shortest route. */
  lemma BackTrackIsShortest(w: int, h: int, s: seq<int>, min: int, prev: seq<Option<Coord>>, depth: seq<int>)
    requires BfsTree(w, h, s, min, prev, depth) && Seen(w, h, prev, Goal(w, h))
    ensures ShortestRoute(w, h, s, min, Reversed(BackTrack(w, h, s, min, prev, depth, Goal(w, h))))
  {
    BackTrackRoute(w, h, s, min, prev, depth);
    GoalSeenIffRoute(w, h, s, min, prev, depth);
  }

  /** On a finished search that did not reach the goal there is no route at all. */
  lemma UnseenGoalNoRoute(w: int, h: int, s: seq<int>, min: int, prev: seq<Option<Coord>>, depth: seq<int>)
    requires BfsTree(w, h, s, min, prev, depth) && !Seen(w, h, prev, Goal(w, h))
    ensures ShortestRoute(w, h, s, min, [])
  {
    GoalSeenIffRoute(w, h, s, min, prev, depth);
  }

  /** When the start cell is not safe enough there is no route, so the empty path is the answer. */
  lemma UnsafeStartNoRoute(w: int, h: int, s: seq<int>, min: int)
    requires Safety(w, h, s, Start()) < min
    ensures ShortestRoute(w, h, s, min, [])
  {
    forall p | IsWalk(w, h, p) && p[0] == Start() ensures !Route(w, h, s, min, p) {
      assert !SafeCell(w, h, s, min, p[0]);
    }
  }

  /** On a 1-by-1 board whose cell is safe enough, the route is that one cell. */
  lemma SingleCellRoute(s: seq<int>, min: int)
    requires |s| == 1 && s[0] >= min
    ensures ShortestRoute(1, 1, s, min, [Coord(0, 0)])
  {
    var c := Coord(0, 0);
    AtStored(s, 1, 1, c, 0);
    assert IsWalk(1, 1, [c]);
    assert Route(1, 1, s, min, [c]);
    assert !forall p :: !Route(1, 1, s, min, p);
  }
}
