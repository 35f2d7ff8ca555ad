/**
 * The class Matrix of QExam/Matrix.hpp and its two searches from
 * QExam/Matrix.cpp.
 *
 * solve_safety is a multi-source breadth-first search from every blocked
 * cell; solve_path a breadth-first search from the top-left cell that
 * records each cell's predecessor and then follows the predecessors back
 * from the bottom-right cell. Both keep their queue as a sequence; the
 * per-neighbour step (the PROP macro of each search) is a method of its own.
 */
module ExamMatrix {
  import opened StdTypes
  import opened RowMajor
  import opened ExamBoard
  import opened ExamSafety
  import opened ExamPath

  // ---------------------------------------------------------------------------
  // Measures for termination

  function Sum(s: seq<int>): int {
    if s == [] then 0 else Sum(s[..|s| - 1]) + s[|s| - 1]
  }

  lemma {:induction false} SumUpdate(s: seq<int>, i: int, v: int)
    requires 0 <= i < |s|
    ensures Sum(s[i := v]) == Sum(s) - s[i] + v
    decreases |s|
  {
    var t := s[i := v];
    assert t[..|t| - 1] == if i < |s| - 1 then s[..|s| - 1][i := v] else s[..|s| - 1];
    if i < |s| - 1 {
      SumUpdate(s[..|s| - 1], i, v);
    }
  }

  lemma {:induction false} SumNonneg(s: seq<int>)
    requires forall i :: 0 <= i < |s| ==> s[i] >= 0
    ensures Sum(s) >= 0
    decreases |s|
  {
    if s != [] {
      SumNonneg(s[..|s| - 1]);
    }
  }

  /** The number of cells a search has not reached yet. */
  function Unseen(prev: seq<Option<Coord>>): nat {
    if prev == [] then 0 else Unseen(prev[..|prev| - 1]) + (if prev[|prev| - 1].None? then 1 else 0)
  }

  lemma {:induction false} UnseenUpdate(prev: seq<Option<Coord>>, i: int, v: Coord)
    requires 0 <= i < |prev| && prev[i].None?
    ensures Unseen(prev[i := Some(v)]) == Unseen(prev) - 1
    decreases |prev|
  {
    var t := prev[i := Some(v)];
    assert t[..|t| - 1] == if i < |prev| - 1 then prev[..|prev| - 1][i := Some(v)] else prev[..|prev| - 1];
    if i < |prev| - 1 {
      UnseenUpdate(prev[..|prev| - 1], i, v);
    }
  }

  // ---------------------------------------------------------------------------
  // The safety search

  /** The cell the search lowered c's value from, one step closer to a blocked cell. */
  predicate HasParent(w: int, h: int, s: seq<int>, par: seq<Coord>, c: Coord) {
    var d := At(par, w, h, c, c);
    InBounds(w, h, d) && Adjacent(c, d) && Safety(w, h, s, d) < Safety(w, h, s, c)
  }

  /**
   * The loop invariant of solve_safety: values are well shaped, queued cells
   * are finite, finite unblocked cells have a parent, and every cell that is
   * neither queued nor being expanded (skip) is settled.
   */
  ghost predicate SafetyInv(w: int, h: int, grid: seq<bool>, s: seq<int>, que: seq<Coord>, par: seq<Coord>, skip: Coord) {
    Shaped(w, h, grid, s) && |par| == Area(w, h)
    && (forall k :: 0 <= k < |que| ==> InBounds(w, h, que[k]) && Safety(w, h, s, que[k]) < INT_MAX)
    && (forall c :: InBounds(w, h, c) && !Blocked(w, h, grid, c) && Safety(w, h, s, c) < INT_MAX ==> HasParent(w, h, s, par, c))
    && (forall a :: InBounds(w, h, a) && a !in que && a != skip ==> SettledAt(w, h, s, a))
  }

  /** Writing v at n's index changes the safety read at n alone. */
  lemma SafetyUpdate(w: int, h: int, s: seq<int>, n: Coord, v: int)
    requires |s| == Area(w, h) && InBounds(w, h, n)
    ensures 0 <= Idx(w, n) < |s|
    ensures forall m :: Safety(w, h, s[Idx(w, n) := v], m) == if m == n then v else Safety(w, h, s, m)
  {
    AtStored(s, w, h, n, 0);
    forall m ensures Safety(w, h, s[Idx(w, n) := v], m) == if m == n then v else Safety(w, h, s, m) {
      AtUpdate(s, w, h, n, v, m, 0);
    }
  }

  /** Lowering an unblocked cell to a value from 1 to INT_MAX keeps the values well shaped. */
  lemma LowerShaped(w: int, h: int, grid: seq<bool>, s: seq<int>, n: Coord, v: int)
    requires Shaped(w, h, grid, s) && InBounds(w, h, n) && 1 <= v <= INT_MAX && Safety(w, h, s, n) > v
    ensures 0 <= Idx(w, n) < |s| && Shaped(w, h, grid, s[Idx(w, n) := v])
  {
    AtStored(s, w, h, n, 0);
    var i := Idx(w, n);
    assert s[i] != 0;
  }

  /** Lowering n to one more than its neighbour c, with c as its new parent, keeps every parent. */
  lemma LowerParents(w: int, h: int, grid: seq<bool>, s: seq<int>, s': seq<int>, par: seq<Coord>, c: Coord, n: Coord)
    requires |par| == Area(w, h) && InBounds(w, h, c) && InBounds(w, h, n) && Adjacent(c, n)
    requires forall m :: InBounds(w, h, m) && !Blocked(w, h, grid, m) && Safety(w, h, s, m) < INT_MAX ==> HasParent(w, h, s, par, m)
    requires forall m :: Safety(w, h, s', m) == if m == n then Safety(w, h, s, c) + 1 else Safety(w, h, s, m)
    requires Safety(w, h, s, n) > Safety(w, h, s, c) + 1
    ensures 0 <= Idx(w, n) < |par|
    ensures forall m :: InBounds(w, h, m) && !Blocked(w, h, grid, m) && Safety(w, h, s', m) < INT_MAX ==>
      HasParent(w, h, s', par[Idx(w, n) := c], m)
  {
    AtStored(par, w, h, n, n);
    var par' := par[Idx(w, n) := c];
    forall m | InBounds(w, h, m) && !Blocked(w, h, grid, m) && Safety(w, h, s', m) < INT_MAX
      ensures HasParent(w, h, s', par', m)
    {
      AtUpdate(par, w, h, n, c, m, m);
      if m != n {
        assert HasParent(w, h, s, par, m);
        assert Safety(w, h, s', At(par, w, h, m, m)) <= Safety(w, h, s, At(par, w, h, m, m));
      }
    }
  }

  /** Lowering a cell that is then queued leaves every other cell as settled as it was. */
  lemma LowerSettled(w: int, h: int, s: seq<int>, s': seq<int>, que: seq<Coord>, c: Coord, n: Coord)
    requires forall a :: InBounds(w, h, a) && a !in que && a != c ==> SettledAt(w, h, s, a)
    requires forall m :: Safety(w, h, s', m) == if m == n then Safety(w, h, s, c) + 1 else Safety(w, h, s, m)
    requires Safety(w, h, s, n) > Safety(w, h, s, c) + 1
    ensures forall a :: InBounds(w, h, a) && a !in que + [n] && a != c ==> SettledAt(w, h, s', a)
  {
    forall a | InBounds(w, h, a) && a !in que + [n] && a != c ensures SettledAt(w, h, s', a) {
      assert SettledAt(w, h, s, a);
    }
  }

  /** Lowering the value of n to sc + 1, where sc is c's, and queueing n with parent c keeps the invariant. */
  lemma SafetyInvLower(w: int, h: int, grid: seq<bool>, s: seq<int>, que: seq<Coord>, par: seq<Coord>, c: Coord, sc: int, n: Coord)
    requires SafetyInv(w, h, grid, s, que, par, c) && InBounds(w, h, c) && InBounds(w, h, n) && Adjacent(c, n)
    requires Safety(w, h, s, c) == sc < INT_MAX && Safety(w, h, s, n) > sc + 1
    ensures 0 <= Idx(w, n) < |s|
    ensures var s' := s[Idx(w, n) := sc + 1];
      SafetyInv(w, h, grid, s', que + [n], par[Idx(w, n) := c], c)
      && (forall m :: Safety(w, h, s', m) == if m == n then sc + 1 else Safety(w, h, s, m))
  {
    ShapedAt(w, h, grid, s, c);
    SafetyUpdate(w, h, s, n, sc + 1);
    var s' := s[Idx(w, n) := sc + 1];
    LowerShaped(w, h, grid, s, n, sc + 1);
    LowerParents(w, h, grid, s, s', par, c, n);
    LowerSettled(w, h, s, s', que, c, n);
    assert forall k :: 0 <= k < |que| ==> Safety(w, h, s', que[k]) <= Safety(w, h, s, que[k]);
  }

  /** The PROP step of solve_safety: lower neighbour n of c to one more than c, queueing it. */
  method RelaxSafety(w: int, h: int, grid: seq<bool>, s: seq<int>, que: seq<Coord>, ghost par: seq<Coord>, c: Coord, sc: int, n: Coord)
    returns (s': seq<int>, que': seq<Coord>, ghost par': seq<Coord>)
    requires SafetyInv(w, h, grid, s, que, par, c) && InBounds(w, h, c) && Adjacent(c, n)
    requires Safety(w, h, s, c) == sc < INT_MAX
    ensures SafetyInv(w, h, grid, s', que', par', c)
    ensures Safety(w, h, s', c) == sc
    ensures InBounds(w, h, n) ==> Safety(w, h, s', n) <= sc + 1
    ensures forall m :: Safety(w, h, s', m) <= Safety(w, h, s, m)
    ensures Sum(s') <= Sum(s) && (Sum(s') == Sum(s) ==> que' == que)
  {
    if !InBounds(w, h, n) {
      return s, que, par;
    }
    AtStored(s, w, h, n, 0);
    var i := Idx(w, n);
    if s[i] <= sc + 1 {
      return s, que, par;
    }
    RelaxLowers(w, h, grid, s, que, par, c, sc, n);
    s', que', par' := s[i := sc + 1], que + [n], par[i := c];
  }

  /** What RelaxSafety promises when it lowers n. */
  lemma RelaxLowers(w: int, h: int, grid: seq<bool>, s: seq<int>, que: seq<Coord>, par: seq<Coord>, c: Coord, sc: int, n: Coord)
    requires SafetyInv(w, h, grid, s, que, par, c) && InBounds(w, h, c) && InBounds(w, h, n) && Adjacent(c, n)
    requires Safety(w, h, s, c) == sc < INT_MAX && Safety(w, h, s, n) > sc + 1
    ensures 0 <= Idx(w, n) < |s|
    ensures var s' := s[Idx(w, n) := sc + 1];
      SafetyInv(w, h, grid, s', que + [n], par[Idx(w, n) := c], c)
      && Safety(w, h, s', c) == sc && Safety(w, h, s', n) <= sc + 1
      && (forall m :: Safety(w, h, s', m) <= Safety(w, h, s, m))
      && Sum(s') <= Sum(s) && Sum(s') != Sum(s)
  {
    SafetyInvLower(w, h, grid, s, que, par, c, sc, n);
    AtStored(s, w, h, n, 0);
    SumUpdate(s, Idx(w, n), sc + 1);
  }

  /** Cells of cs that are blocked, in the order of cs. */
  function BlockedIn(w: int, h: int, grid: seq<bool>, cs: seq<Coord>): seq<Coord> {
    if cs == [] then []
    else BlockedIn(w, h, grid, cs[..|cs| - 1]) + (if Blocked(w, h, grid, cs[|cs| - 1]) then [cs[|cs| - 1]] else [])
  }

  lemma {:induction false} BlockedInMembers(w: int, h: int, grid: seq<bool>, cs: seq<Coord>, c: Coord)
    ensures c in BlockedIn(w, h, grid, cs) <==> c in cs && Blocked(w, h, grid, c)
    decreases |cs|
  {
    if cs != [] {
      BlockedInMembers(w, h, grid, cs[..|cs| - 1], c);
      assert cs == cs[..|cs| - 1] + [cs[|cs| - 1]];
    }
  }

  lemma BlockedInStep(w: int, h: int, grid: seq<bool>, cs: seq<Coord>, c: Coord)
    ensures BlockedIn(w, h, grid, cs + [c]) == BlockedIn(w, h, grid, cs) + if Blocked(w, h, grid, c) then [c] else []
  {
    assert (cs + [c])[..|cs|] == cs;
  }

  /** The queue solve_safety starts from: every blocked cell in ForEachCoord order. */
  function Seeds(w: nat, h: nat, grid: seq<bool>): seq<Coord> {
    BlockedIn(w, h, grid, Cells(w, h))
  }

  lemma SeedsAreBlocked(w: nat, h: nat, grid: seq<bool>)
    ensures forall c :: c in Seeds(w, h, grid) <==> InBounds(w, h, c) && Blocked(w, h, grid, c)
  {
    forall c ensures c in Seeds(w, h, grid) <==> InBounds(w, h, c) && Blocked(w, h, grid, c) {
      BlockedInMembers(w, h, grid, Cells(w, h), c);
      CellsAreTheBoard(w, h, c);
    }
  }

  /** Filtering a concatenation filters each part. */
  lemma {:induction false} BlockedInConcat(w: int, h: int, grid: seq<bool>, xs: seq<Coord>, ys: seq<Coord>)
    ensures BlockedIn(w, h, grid, xs + ys) == BlockedIn(w, h, grid, xs) + BlockedIn(w, h, grid, ys)
    decreases |ys|
  {
    if ys == [] {
      assert xs + ys == xs;
    } else {
      var init, last := ys[..|ys| - 1], ys[|ys| - 1];
      assert ys == init + [last];
      assert xs + ys == (xs + init) + [last];
      BlockedInConcat(w, h, grid, xs, init);
      BlockedInStep(w, h, grid, xs + init, last);
      BlockedInStep(w, h, grid, init, last);
    }
  }

  /** The inner loop of the seeding: the blocked cells of row y, left to right. */
  method SeedRow(w: nat, h: nat, grid: seq<bool>, y: int) returns (row: seq<Coord>)
    ensures row == BlockedIn(w, h, grid, Row(w, y))
  {
    row := [];
    for x := 0 to w
      invariant row == BlockedIn(w, h, grid, Row(x, y))
    {
      var c := Coord(x, y);
      BlockedInStep(w, h, grid, Row(x, y), c);
      if Blocked(w, h, grid, c) {
        row := row + [c];
      }
    }
  }

  /** The ForEachCoord loop of solve_safety that queues the blocked cells. */
  method SeedQueue(w: nat, h: nat, grid: seq<bool>) returns (que: seq<Coord>)
    ensures que == Seeds(w, h, grid)
  {
    que := [];
    for y := 0 to h
      invariant que == BlockedIn(w, h, grid, Cells(w, y))
    {
      var row := SeedRow(w, h, grid, y);
      BlockedInConcat(w, h, grid, Cells(w, y), Row(w, y));
      que := que + row;
    }
  }

  /** The starting state satisfies the invariant. */
  lemma SafetyInvStart(w: nat, h: nat, grid: seq<bool>, s: seq<int>, par: seq<Coord>)
    requires |grid| == Area(w, h) && |s| == |grid| && |par| == |grid|
    requires forall i :: 0 <= i < |s| ==> s[i] == if grid[i] then 0 else INT_MAX
    ensures SafetyInv(w, h, grid, s, Seeds(w, h, grid), par, Coord(-1, -1))
  {
    SeedsAreBlocked(w, h, grid);
    var que := Seeds(w, h, grid);
    forall c | InBounds(w, h, c) ensures Blocked(w, h, grid, c) || Safety(w, h, s, c) == INT_MAX {
      AtStored(s, w, h, c, 0);
      AtStored(grid, w, h, c, false);
    }
    forall k | 0 <= k < |que| ensures InBounds(w, h, que[k]) && Safety(w, h, s, que[k]) < INT_MAX {
      assert que[k] in que;
      ShapedAt(w, h, grid, s, que[k]);
    }
    forall a | InBounds(w, h, a) && a !in que ensures SettledAt(w, h, s, a) {
      forall b | InBounds(w, h, b) && Adjacent(a, b) ensures Safety(w, h, s, b) <= Safety(w, h, s, a) + 1 {
        ShapedAt(w, h, grid, s, b);
      }
    }
  }

  /** Once the queue is empty, the invariant is the safety map. */
  lemma SafetyInvDone(w: int, h: int, grid: seq<bool>, s: seq<int>, par: seq<Coord>)
    requires SafetyInv(w, h, grid, s, [], par, Coord(-1, -1))
    ensures SafetyMap(w, h, grid, s)
  {
    forall c | InBounds(w, h, c) && !Blocked(w, h, grid, c) && Safety(w, h, s, c) < INT_MAX
      ensures exists d :: InBounds(w, h, d) && Adjacent(c, d) && Safety(w, h, s, d) < Safety(w, h, s, c)
    {
      assert HasParent(w, h, s, par, c);
    }
  }

  // ---------------------------------------------------------------------------
  // The path search

  /**
   * The loop invariant of solve_path: the reached cells form a tree of
   * predecessors; queued depths are sorted and lie in front..front + 1, no
   * reached cell is deeper than front + 1; and every reached cell that is
   * neither queued nor being expanded (skip) has all its safe neighbours
   * reached.
   */
  ghost predicate PathInv(w: int, h: int, s: seq<int>, min: int, prev: seq<Option<Coord>>, depth: seq<int>,
                          que: seq<Coord>, front: int, skip: Coord) {
    Tree(w, h, s, min, prev, depth) && Seen(w, h, prev, Start()) && front >= 0
    && (forall k :: 0 <= k < |que| ==>
          Seen(w, h, prev, que[k]) && front <= Depth(w, h, depth, que[k]) <= front + 1)
    && (forall i, j :: 0 <= i <= j < |que| ==> Depth(w, h, depth, que[i]) <= Depth(w, h, depth, que[j]))
    && (forall c :: Seen(w, h, prev, c) ==> Depth(w, h, depth, c) <= front + 1)
    && (forall a :: Seen(w, h, prev, a) && a !in que && a != skip ==> ClosedAt(w, h, s, min, prev, depth, a))
  }

  /** Reaching n from c, one step deeper than c, keeps the tree of predecessors. */
  lemma TreeReach(w: int, h: int, s: seq<int>, min: int, prev: seq<Option<Coord>>, depth: seq<int>,
                  prev': seq<Option<Coord>>, depth': seq<int>, c: Coord, n: Coord)
    requires Tree(w, h, s, min, prev, depth) && |prev'| == |prev| && |depth'| == |depth|
    requires Seen(w, h, prev, Start()) && Seen(w, h, prev, c) && Adjacent(c, n) && SafeCell(w, h, s, min, n) && !Seen(w, h, prev, n)
    requires forall m :: Prev(w, h, prev', m) == if m == n then Some(c) else Prev(w, h, prev, m)
    requires forall m :: Depth(w, h, depth', m) == if m == n then Depth(w, h, depth, c) + 1 else Depth(w, h, depth, m)
    ensures Tree(w, h, s, min, prev', depth')
  {
    forall m | Seen(w, h, prev', m) ensures Linked(w, h, s, min, prev', depth', m) {
      if m != n {
        LinkedKept(w, h, s, min, prev, depth, prev', depth', n, m);
      } else {
        assert Linked(w, h, s, min, prev, depth, c);
        assert c != n && n != Start();
        assert Prev(w, h, prev', c) == Prev(w, h, prev, c);
      }
    }
  }

  /** A reached cell other than n keeps its link when only n changes. */
  lemma LinkedKept(w: int, h: int, s: seq<int>, min: int, prev: seq<Option<Coord>>, depth: seq<int>,
                   prev': seq<Option<Coord>>, depth': seq<int>, n: Coord, m: Coord)
    requires Tree(w, h, s, min, prev, depth) && Seen(w, h, prev, m) && !Seen(w, h, prev, n)
    requires forall q :: q != n ==> Prev(w, h, prev', q) == Prev(w, h, prev, q)
    requires forall q :: q != n ==> Depth(w, h, depth', q) == Depth(w, h, depth, q)
    ensures Seen(w, h, prev', m) && Linked(w, h, s, min, prev', depth', m)
  {
    assert Linked(w, h, s, min, prev, depth, m);
    var p := Prev(w, h, prev, m).value;
    assert Prev(w, h, prev', m) == Prev(w, h, prev, m);
    assert Depth(w, h, depth', m) == Depth(w, h, depth, m);
    if m != Start() {
      assert Prev(w, h, prev', p) == Prev(w, h, prev, p);
      assert Depth(w, h, depth', p) == Depth(w, h, depth, p);
    }
  }

  /** Reaching n from c, one step deeper, keeps the invariant. */
  lemma PathInvReach(w: int, h: int, s: seq<int>, min: int, prev: seq<Option<Coord>>, depth: seq<int>,
                     que: seq<Coord>, front: int, c: Coord, n: Coord)
    requires PathInv(w, h, s, min, prev, depth, que, front, c)
    requires Seen(w, h, prev, c) && Depth(w, h, depth, c) == front && Adjacent(c, n)
    requires SafeCell(w, h, s, min, n) && !Seen(w, h, prev, n)
    ensures 0 <= Idx(w, n) < |prev| == |depth|
    ensures var prev', depth' := prev[Idx(w, n) := Some(c)], depth[Idx(w, n) := front + 1];
      PathInv(w, h, s, min, prev', depth', que + [n], front, c)
      && (forall m :: Seen(w, h, prev', m) <==> Seen(w, h, prev, m) || m == n)
      && (forall m :: Seen(w, h, prev, m) ==> Depth(w, h, depth', m) == Depth(w, h, depth, m))
      && Depth(w, h, depth', n) == front + 1
  {
    AtStored(prev, w, h, n, None);
    var i := Idx(w, n);
    var prev', depth', que' := prev[i := Some(c)], depth[i := front + 1], que + [n];
    forall m ensures Prev(w, h, prev', m) == if m == n then Some(c) else Prev(w, h, prev, m) {
      AtUpdate(prev, w, h, n, Some(c), m, None);
    }
    forall m ensures Depth(w, h, depth', m) == if m == n then front + 1 else Depth(w, h, depth, m) {
      AtUpdate(depth, w, h, n, front + 1, m, 0);
    }
    TreeReach(w, h, s, min, prev, depth, prev', depth', c, n);
    forall k | 0 <= k < |que'| ensures Seen(w, h, prev', que'[k]) && front <= Depth(w, h, depth', que'[k]) <= front + 1 {
      if k < |que| {
        assert que'[k] == que[k];
      }
    }
    forall i, j | 0 <= i <= j < |que'| ensures Depth(w, h, depth', que'[i]) <= Depth(w, h, depth', que'[j]) {
      if j < |que| {
        assert que'[i] == que[i] && que'[j] == que[j];
      } else if i < |que| {
        assert que'[i] == que[i];
      }
    }
    forall a | Seen(w, h, prev', a) && a !in que' && a != c ensures ClosedAt(w, h, s, min, prev', depth', a) {
      assert ClosedAt(w, h, s, min, prev, depth, a);
    }
  }

  /** The PROP step of solve_path: reach safe, unreached neighbour n of c and queue it. */
  method RelaxPath(w: int, h: int, s: seq<int>, min: int, prev: seq<Option<Coord>>, ghost depth: seq<int>,
                   que: seq<Coord>, ghost front: int, c: Coord, n: Coord)
    returns (prev': seq<Option<Coord>>, ghost depth': seq<int>, que': seq<Coord>)
    requires PathInv(w, h, s, min, prev, depth, que, front, c) && |s| == Area(w, h)
    requires Seen(w, h, prev, c) && Depth(w, h, depth, c) == front && Adjacent(c, n)
    ensures PathInv(w, h, s, min, prev', depth', que', front, c)
    ensures SafeCell(w, h, s, min, n) ==> Seen(w, h, prev', n) && Depth(w, h, depth', n) <= front + 1
    ensures forall m :: Seen(w, h, prev, m) ==> Seen(w, h, prev', m) && Depth(w, h, depth', m) == Depth(w, h, depth, m)
    ensures Unseen(prev') <= Unseen(prev) && (Unseen(prev') == Unseen(prev) ==> que' == que)
  {
    prev', depth', que' := prev, depth, que;
    if InBounds(w, h, n) {
      AtStored(s, w, h, n, 0);
      AtStored(prev, w, h, n, None);
      var i := Idx(w, n);
      if s[i] >= min && prev[i].None? {
        PathInvReach(w, h, s, min, prev, depth, que, front, c, n);
        UnseenUpdate(prev, i, c);
        prev', depth', que' := prev[i := Some(c)], depth[i := front + 1], que + [n];
      } else {
        assert Seen(w, h, prev, n) || !SafeCell(w, h, s, min, n);
      }
    }
  }

  /** The state after queueing the start cell satisfies the invariant. */
  lemma PathInvStart(w: int, h: int, s: seq<int>, min: int, prev: seq<Option<Coord>>, depth: seq<int>)
    requires w >= 1 && h >= 1 && |s| == Area(w, h) && Safety(w, h, s, Start()) >= min
    requires |prev| == Area(w, h) && prev[0] == Some(Start()) && forall i :: 0 < i < |prev| ==> prev[i].None?
    requires |depth| == Area(w, h) && forall i :: 0 <= i < |depth| ==> depth[i] == 0
    ensures PathInv(w, h, s, min, prev, depth, [Start()], 0, Coord(-1, -1))
  {
    CornerIdx(w, h);
    forall m ensures Prev(w, h, prev, m) == if m == Start() then Some(Start()) else None {
      if InBounds(w, h, m) {
        AtStored(prev, w, h, m, None);
        if Idx(w, m) == 0 {
          IdxInjective(w, h, m, Start());
        }
      }
    }
    forall m ensures Depth(w, h, depth, m) == 0 {
    }
    assert Linked(w, h, s, min, prev, depth, Start());
  }

  /** One round of the loop of solve_safety: take the front cell and relax its four neighbours. */
  method ExpandSafety(w: int, h: int, grid: seq<bool>, s: seq<int>, que: seq<Coord>, ghost par: seq<Coord>)
    returns (s': seq<int>, que': seq<Coord>, ghost par': seq<Coord>)
    requires SafetyInv(w, h, grid, s, que, par, Coord(-1, -1)) && que != []
    ensures SafetyInv(w, h, grid, s', que', par', Coord(-1, -1))
    ensures Sum(s') < Sum(s) || (Sum(s') == Sum(s) && |que'| < |que|)
  {
    var c := que[0];
    var sc := Safety(w, h, s, c);
    que' := que[1..];
    assert que == [c] + que';
    s', par' := s, par;
    var n0 := Coord(c.x - 1, c.y);
    s', que', par' := RelaxSafety(w, h, grid, s', que', par', c, sc, n0);
    ghost var s1 := s';
    var n1 := Coord(c.x + 1, c.y);
    s', que', par' := RelaxSafety(w, h, grid, s', que', par', c, sc, n1);
    ghost var s2 := s';
    var n2 := Coord(c.x, c.y - 1);
    s', que', par' := RelaxSafety(w, h, grid, s', que', par', c, sc, n2);
    ghost var s3 := s';
    var n3 := Coord(c.x, c.y + 1);
    s', que', par' := RelaxSafety(w, h, grid, s', que', par', c, sc, n3);
    assert SettledAt(w, h, s', c) by {
      NeighboursAreAdjacent(c);
      forall b | InBounds(w, h, b) && Adjacent(c, b) ensures Safety(w, h, s', b) <= sc + 1 {
        assert b == n0 || b == n1 || b == n2 || b == n3;
        assert Safety(w, h, s', b) <= Safety(w, h, s3, b) <= Safety(w, h, s2, b) <= Safety(w, h, s1, b);
      }
    }
  }

  /** solve_safety on a board given by its sides and blocked cells. */
  method SafetySearch(w: nat, h: nat, grid: seq<bool>) returns (s: seq<int>)
    requires |grid| == Area(w, h)
    ensures SafetyMap(w, h, grid, s)
  {
    s := seq(|grid|, _ => 0);
    for i := 0 to |s|
      invariant |s| == |grid|
      invariant forall j :: 0 <= j < i ==> s[j] == if grid[j] then 0 else INT_MAX
    {
      s := s[i := if grid[i] then 0 else INT_MAX];
    }
    var que := SeedQueue(w, h, grid);
    ghost var par := seq(|grid|, _ => Coord(0, 0));
    SafetyInvStart(w, h, grid, s, par);
    while que != []
      invariant SafetyInv(w, h, grid, s, que, par, Coord(-1, -1))
      decreases Sum(s), |que|
    {
      SumNonneg(s);
      s, que, par := ExpandSafety(w, h, grid, s, que, par);
    }
    SafetyInvDone(w, h, grid, s, par);
  }

  /** Taking the front cell off the queue moves the front to its depth and leaves it to be expanded. */
  lemma PathInvPop(w: int, h: int, s: seq<int>, min: int, prev: seq<Option<Coord>>, depth: seq<int>,
                   que: seq<Coord>, front: int)
    requires PathInv(w, h, s, min, prev, depth, que, front, Coord(-1, -1)) && que != []
    ensures Seen(w, h, prev, que[0])
    ensures PathInv(w, h, s, min, prev, depth, que[1..], Depth(w, h, depth, que[0]), que[0])
  {
    var c := que[0];
    assert que == [c] + que[1..];
    forall k | 0 <= k < |que[1..]| ensures Depth(w, h, depth, c) <= Depth(w, h, depth, que[1..][k]) {
      assert que[1..][k] == que[k + 1];
    }
  }

  /** Once every safe neighbour of the expanded cell is reached, it needs no exception. */
  lemma PathInvClose(w: int, h: int, s: seq<int>, min: int, prev: seq<Option<Coord>>, depth: seq<int>,
                     que: seq<Coord>, front: int, c: Coord)
    requires PathInv(w, h, s, min, prev, depth, que, front, c) && ClosedAt(w, h, s, min, prev, depth, c)
    ensures PathInv(w, h, s, min, prev, depth, que, front, Coord(-1, -1))
  {
  }

  /** One round of the loop of solve_path: take the front cell and reach its four neighbours. */
  method ExpandPath(w: int, h: int, s: seq<int>, min: int, prev: seq<Option<Coord>>, ghost depth: seq<int>,
                    que: seq<Coord>, ghost front: int)
    returns (prev': seq<Option<Coord>>, ghost depth': seq<int>, que': seq<Coord>, ghost front': int)
    requires PathInv(w, h, s, min, prev, depth, que, front, Coord(-1, -1)) && |s| == Area(w, h) && que != []
    ensures PathInv(w, h, s, min, prev', depth', que', front', Coord(-1, -1))
    ensures Unseen(prev') < Unseen(prev) || (Unseen(prev') == Unseen(prev) && |que'| < |que|)
  {
    var c := que[0];
    PathInvPop(w, h, s, min, prev, depth, que, front);
    que' := que[1..];
    front' := Depth(w, h, depth, c);
    prev', depth' := prev, depth;
    var n0 := Coord(c.x - 1, c.y);
    prev', depth', que' := RelaxPath(w, h, s, min, prev', depth', que', front', c, n0);
    var n1 := Coord(c.x + 1, c.y);
    prev', depth', que' := RelaxPath(w, h, s, min, prev', depth', que', front', c, n1);
    var n2 := Coord(c.x, c.y - 1);
    prev', depth', que' := RelaxPath(w, h, s, min, prev', depth', que', front', c, n2);
    var n3 := Coord(c.x, c.y + 1);
    prev', depth', que' := RelaxPath(w, h, s, min, prev', depth', que', front', c, n3);
    assert ClosedAt(w, h, s, min, prev', depth', c) by {
      NeighboursAreAdjacent(c);
      forall b | SafeCell(w, h, s, min, b) && Adjacent(c, b)
        ensures Seen(w, h, prev', b) && Depth(w, h, depth', b) <= front' + 1
      {
        assert b == n0 || b == n1 || b == n2 || b == n3;
      }
    }
    PathInvClose(w, h, s, min, prev', depth', que', front', c);
  }

  /** The search of solve_path: the predecessor map it leaves, with the ghost depth of each cell. */
  method PathSearch(w: int, h: int, s: seq<int>, min: int) returns (prev: seq<Option<Coord>>, ghost depth: seq<int>)
    requires w >= 1 && h >= 1 && |s| == Area(w, h) && Safety(w, h, s, Start()) >= min
    ensures BfsTree(w, h, s, min, prev, depth)
  {
    prev := seq(|s|, _ => None);
    depth := seq(|s|, _ => 0);
    var que := [Start()];
    prev := prev[0 := Some(Start())];
    ghost var front := 0;
    PathInvStart(w, h, s, min, prev, depth);
    while que != []
      invariant PathInv(w, h, s, min, prev, depth, que, front, Coord(-1, -1))
      decreases Unseen(prev), |que|
    {
      prev, depth, que, front := ExpandPath(w, h, s, min, prev, depth, que, front);
    }
  }

  // ---------------------------------------------------------------------------
  // The class

  /** The end of solve_path: follow the predecessors back from the goal, then reverse. */
  method TraceBack(w: int, h: int, s: seq<int>, min: int, prev: seq<Option<Coord>>, ghost depth: seq<int>)
    returns (path: seq<Coord>)
    requires Tree(w, h, s, min, prev, depth) && Seen(w, h, prev, Goal(w, h))
    ensures path == Reversed(BackTrack(w, h, s, min, prev, depth, Goal(w, h)))
  {
    var c := Goal(w, h);
    AtStored(prev, w, h, c, None);
    var p := prev[Idx(w, c)].value;
    path := [];
    while true
      invariant Seen(w, h, prev, c) && p == Prev(w, h, prev, c).value
      invariant path + BackTrack(w, h, s, min, prev, depth, c) == BackTrack(w, h, s, min, prev, depth, Goal(w, h))
      decreases Depth(w, h, depth, c)
    {
      BackTrackStep(w, h, s, min, prev, depth, c);
      if p == c {
        path := path + [c];
        break;
      }
      assert path + BackTrack(w, h, s, min, prev, depth, c) == (path + [c]) + BackTrack(w, h, s, min, prev, depth, p);
      path := path + [c];
      c := p;
      AtStored(prev, w, h, c, None);
      p := prev[Idx(w, c)].value;
    }
    path := Reversed(path);
  }

  /** Matrix::solve_path on a board of at least one cell: a shortest route, or the empty path. */
  method RouteSearch(w: int, h: int, s: seq<int>, min: int) returns (path: seq<Coord>)
    requires w >= 1 && h >= 1 && |s| == Area(w, h)
    ensures ShortestRoute(w, h, s, min, path)
  {
    CornerIdx(w, h);
    AtStored(s, w, h, Start(), 0);
    if s[0] < min {
      UnsafeStartNoRoute(w, h, s, min);
      return [];
    }
    var prev;
    ghost var depth;
    prev, depth := PathSearch(w, h, s, min);
    var goal := Goal(w, h);
    assert |prev| == Area(w, h);
    AtStored(prev, w, h, goal, None);
    if prev[|prev| - 1].Some? {
      path := TraceBack(w, h, s, min, prev, depth);
      BackTrackIsShortest(w, h, s, min, prev, depth);
    } else {
      assert !Seen(w, h, prev, goal);
      UnseenGoalNoRoute(w, h, s, min, prev, depth);
      path := [];
    }
  }

  /** std::vector::resize: cut to n elements, or pad with false. */
  function Resized(g: seq<bool>, n: int): (r: seq<bool>)
    requires n >= 0
    ensures |r| == n
    ensures forall i :: 0 <= i < n ==> r[i] == (i < |g| && g[i])
  {
    if |g| >= n then g[..n] else g + seq(n - |g|, _ => false)
  }

  function Max0(x: int): nat {
    if x < 0 then 0 else x
  }

  class Matrix {
    var width: int
    var height: int
    var minSafety: int
    var grid: seq<bool>
    var safety: seq<int>
    var path: seq<Coord>

    /**
     * The Matrix constructor: clamp the sides at zero, fit the grid to them,
     * and on a nonempty grid run both searches. The product of the clamped
     * sides has to be an int.
     */
    constructor (w: int, h: int, g: seq<bool>, min: int)
      requires Area(Max0(w), Max0(h)) <= INT_MAX
      ensures width == Max0(w) && height == Max0(h) && minSafety == min
      ensures grid == Resized(g, Area(width, height))
      ensures grid == [] ==> safety == [] && path == []
      ensures grid != [] ==> SafetyMap(width, height, grid, safety) && ShortestRoute(width, height, safety, minSafety, path)
    {
      AreaPositive(Max0(w), Max0(h));
      width := Max0(w);
      height := Max0(h);
      minSafety := min;
      grid := Resized(g, Area(Max0(w), Max0(h)));
      safety := [];
      path := [];
      new;
      if grid != [] {
        SolveSafety();
        SolvePath();
      }
    }

    /** solve_safety: every cell's distance to the nearest blocked cell. */
    method SolveSafety()
      requires width >= 0 && height >= 0 && |grid| == Area(width, height)
      modifies this
      ensures SafetyMap(width, height, grid, safety)
      ensures width == old(width) && height == old(height) && minSafety == old(minSafety)
      ensures grid == old(grid) && path == old(path)
    {
      safety := SafetySearch(width, height, grid);
    }

    /** solve_path: a shortest route through cells safe enough, or none. */
    method SolvePath()
      requires width >= 1 && height >= 1 && |safety| == Area(width, height)
      modifies this
      ensures ShortestRoute(width, height, safety, minSafety, path)
      ensures width == old(width) && height == old(height) && minSafety == old(minSafety)
      ensures grid == old(grid) && safety == old(safety)
    {
      path := RouteSearch(width, height, safety, minSafety);
    }

    /** Matrix::HavePath: on a solved matrix, whether any route exists. */
    function HavePath(): (r: bool)
      reads this
      ensures ShortestRoute(width, height, safety, minSafety, path) ==>
                (r <==> exists p :: Route(width, height, safety, minSafety, p))
    {
      path != []
    }
  }
}
