/**
 * The board of QLink (QLink/game/Grid.hpp and Grid.cpp): blocks stored row by
 * row for the cells [1, w] x [1, h], an always-empty border ring around them,
 * the matching rule that joins two blocks of one type by a path with at most
 * two turns, the search for a matching pair, and the choice of an empty cell.
 *
 * The predicates on a Board value state what the rule means; the class Grid
 * holds the board's fields and runs the source's loops, each proved against
 * those predicates.
 */
module LinkGrid {
  import opened StdTypes
  import opened RowMajor

  /** Coord of QLink/game/Coord.hpp. */
  datatype Coord = Coord(x: U32, y: U32)

  /** A block type, 0 for an empty cell. Block.hpp is not part of this model; a Block is taken to be a uint32_t. */
  type Block = U32

  /** uint32_t decrement and increment, which wrap. */
  function Dec(v: U32): U32 {
    if v == 0 then UINT32_MOD - 1 else v - 1
  }

  function Inc(v: U32): U32 {
    if v == UINT32_MOD - 1 then 0 else v + 1
  }

  function Min(a: int, b: int): int {
    if a <= b then a else b
  }

  function Max(a: int, b: int): int {
    if a <= b then b else a
  }

  /** The fields of a Grid. */
  datatype Board = Board(width: U32, height: U32, blocks: seq<Block>)

  /**
   * The boards this model covers: one block per cell, the cell count fits a
   * uint32_t, and the border ring (w + 1, h + 1) and the cell beyond it stay
   * below the sentinel ~0u.
   */
  predicate Sized(b: Board) {
    b.width + 2 < UINT32_MOD && b.height + 2 < UINT32_MOD
    && Area(b.width, b.height) < UINT32_MOD && |b.blocks| == Area(b.width, b.height)
  }

  /** The cells that hold blocks: [1, w] x [1, h]. */
  predicate InBoard(b: Board, c: Coord) {
    1 <= c.x <= b.width && 1 <= c.y <= b.height
  }

  /** The board with its border ring: [0, w + 1] x [0, h + 1]. */
  predicate InRing(b: Board, c: Coord) {
    c.x <= b.width + 1 && c.y <= b.height + 1
  }

  /** Where cell c is stored: (y - 1) * w + x - 1. */
  function Index(b: Board, c: Coord): int {
    RowStart(b.width, c.y - 1) + c.x - 1
  }

  /** Grid::Get (and operator[]): the block at c, 0 anywhere outside [1, w] x [1, h]. */
  function Cell(b: Board, c: Coord): Block {
    if InBoard(b, c) && 0 <= Index(b, c) < |b.blocks| then b.blocks[Index(b, c)] else 0
  }

  lemma IndexInRange(b: Board, c: Coord)
    requires Sized(b) && InBoard(b, c)
    ensures 0 <= Index(b, c) < |b.blocks|
  {
    RowStartMono(b.width, c.y - 1, b.height);
    RowStartMono(b.width, c.y, b.height);
  }

  lemma IndexInjective(b: Board, c: Coord, d: Coord)
    requires InBoard(b, c) && InBoard(b, d) && Index(b, c) == Index(b, d)
    ensures c == d
  {
    if c.y < d.y {
      RowStartMono(b.width, c.y - 1, d.y - 1);
    } else if d.y < c.y {
      RowStartMono(b.width, d.y - 1, c.y - 1);
    }
  }

  /** The board after Grid::Set: in range, the cell's block is replaced; out of range, nothing changes. */
  function SetCell(b: Board, c: Coord, v: Block): (r: Board)
    requires Sized(b)
    ensures Sized(r) && r.width == b.width && r.height == b.height
  {
    if InBoard(b, c) then
      IndexInRange(b, c);
      b.(blocks := b.blocks[Index(b, c) := v])
    else b
  }

  /** After a Set, a Get returns the new block at that cell and the old block everywhere else. */
  lemma SetGet(b: Board, c: Coord, v: Block, d: Coord)
    requires Sized(b)
    ensures Cell(SetCell(b, c, v), d) == if d == c && InBoard(b, c) then v else Cell(b, d)
  {
    if InBoard(b, c) {
      IndexInRange(b, c);
      if InBoard(b, d) {
        IndexInRange(b, d);
        if d != c && Index(b, d) == Index(b, c) {
          IndexInjective(b, c, d);
        }
      }
    }
  }

  /** Grid::is_surrounded: all four neighbours hold blocks (coordinates wrap as uint32_t). */
  predicate Surrounded(b: Board, c: Coord) {
    Cell(b, Coord(Dec(c.x), c.y)) != 0 && Cell(b, Coord(Inc(c.x), c.y)) != 0
    && Cell(b, Coord(c.x, Dec(c.y))) != 0 && Cell(b, Coord(c.x, Inc(c.y))) != 0
  }

  // ---------------------------------------------------------------------------
  // Straight segments

  /** No block in row y strictly between columns x1 and x2, in either order. */
  predicate RowClear(b: Board, y: U32, x1: U32, x2: U32) {
    forall x: int :: Min(x1, x2) < x < Max(x1, x2) ==> Cell(b, Coord(x, y)) == 0
  }

  /** No block in column x strictly between rows y1 and y2, in either order. */
  predicate ColumnClear(b: Board, x: U32, y1: U32, y2: U32) {
    forall y: int :: Min(y1, y2) < y < Max(y1, y2) ==> Cell(b, Coord(x, y)) == 0
  }

  /** Grid::is_pos_h_linked: the same row, and that row is a border row or clear between them. */
  predicate HLinked(b: Board, c1: Coord, c2: Coord) {
    c1.y == c2.y && (c1.y == 0 || c1.y == b.height + 1 || RowClear(b, c1.y, c1.x, c2.x))
  }

  /** Grid::is_pos_v_linked: the same column, and that column is a border column or clear between them. */
  predicate VLinked(b: Board, c1: Coord, c2: Coord) {
    c1.x == c2.x && (c1.x == 0 || c1.x == b.width + 1 || ColumnClear(b, c1.x, c1.y, c2.y))
  }

  predicate Straight(b: Board, c1: Coord, c2: Coord) {
    HLinked(b, c1, c2) || VLinked(b, c1, c2)
  }

  // ---------------------------------------------------------------------------
  // The matching rule

  /**
   * A way from c1 to c2 with at most two turns: two to four joints, the ends
   * c1 and c2, every inner joint an empty cell of the ring, consecutive
   * joints joined by a straight segment.
   */
  predicate LinkPath(b: Board, c1: Coord, c2: Coord, j: seq<Coord>) {
    2 <= |j| <= 4 && j[0] == c1 && j[|j| - 1] == c2
    && (forall k :: 0 < k < |j| - 1 ==> InRing(b, j[k]) && Cell(b, j[k]) == 0)
    && (forall k :: 0 <= k < |j| - 1 ==> Straight(b, j[k], j[k + 1]))
  }

  /** The checks IsLinked makes before looking for a way: two different cells, one nonempty type, neither walled in. */
  predicate Pairable(b: Board, c1: Coord, c2: Coord) {
    c1 != c2 && Cell(b, c1) != 0 && Cell(b, c1) == Cell(b, c2) && !Surrounded(b, c1) && !Surrounded(b, c2)
  }

  /** Two blocks match: they pass the checks and some way with at most two turns joins them. */
  ghost predicate Linkable(b: Board, c1: Coord, c2: Coord) {
    Pairable(b, c1, c2) && exists j :: LinkPath(b, c1, c2, j)
  }

  /** One turn, at the corner in c1's column and c2's row. */
  predicate CornerVH(b: Board, c1: Coord, c2: Coord) {
    var cc := Coord(c1.x, c2.y);
    Cell(b, cc) == 0 && VLinked(b, c1, cc) && HLinked(b, cc, c2)
  }

  /** One turn, at the corner in c2's column and c1's row. */
  predicate CornerHV(b: Board, c1: Coord, c2: Coord) {
    var cc := Coord(c2.x, c1.y);
    Cell(b, cc) == 0 && HLinked(b, c1, cc) && VLinked(b, cc, c2)
  }

  /** Two turns: along c1's row to column cx, along that column to c2's row, along that row to c2. */
  predicate ColumnDetour(b: Board, c1: Coord, c2: Coord, cx: U32) {
    var cc1, cc2 := Coord(cx, c1.y), Coord(cx, c2.y);
    cx <= b.width + 1 && cx != c1.x && cx != c2.x && Cell(b, cc1) == 0 && Cell(b, cc2) == 0
    && HLinked(b, c1, cc1) && VLinked(b, cc1, cc2) && HLinked(b, cc2, c2)
  }

  /** Two turns: along c1's column to row cy, along that row to c2's column, along that column to c2. */
  predicate RowDetour(b: Board, c1: Coord, c2: Coord, cy: U32) {
    var cc1, cc2 := Coord(c1.x, cy), Coord(c2.x, cy);
    cy <= b.height + 1 && cy != c1.y && cy != c2.y && Cell(b, cc1) == 0 && Cell(b, cc2) == 0
    && VLinked(b, c1, cc1) && HLinked(b, cc1, cc2) && VLinked(b, cc2, c2)
  }

  /** The shapes IsLinked tries, in its order. */
  ghost predicate Canonical(b: Board, c1: Coord, c2: Coord) {
    Straight(b, c1, c2) || CornerVH(b, c1, c2) || CornerHV(b, c1, c2)
    || (exists cx :: ColumnDetour(b, c1, c2, cx)) || (exists cy :: RowDetour(b, c1, c2, cy))
  }

  /** A clear stretch of a row up to an empty cell m joins the clear stretch that continues from m. */
  lemma RowJoin(b: Board, y: U32, p: U32, m: U32, q: U32)
    requires RowClear(b, y, p, m) && RowClear(b, y, m, q) && Cell(b, Coord(m, y)) == 0
    ensures RowClear(b, y, p, q)
  {
    forall x: int | Min(p, q) < x < Max(p, q) ensures Cell(b, Coord(x, y)) == 0 {
      if x != m {
        assert Min(p, m) < x < Max(p, m) || Min(m, q) < x < Max(m, q);
      }
    }
  }

  lemma ColumnJoin(b: Board, x: U32, p: U32, m: U32, q: U32)
    requires ColumnClear(b, x, p, m) && ColumnClear(b, x, m, q) && Cell(b, Coord(x, m)) == 0
    ensures ColumnClear(b, x, p, q)
  {
    forall y: int | Min(p, q) < y < Max(p, q) ensures Cell(b, Coord(x, y)) == 0 {
      if y != m {
        assert Min(p, m) < y < Max(p, m) || Min(m, q) < y < Max(m, q);
      }
    }
  }

  /** Two straight stretches along one row or one column through an empty cell make one. */
  lemma StraightJoin(b: Board, p: Coord, m: Coord, q: Coord)
    requires Cell(b, m) == 0
    ensures HLinked(b, p, m) && HLinked(b, m, q) ==> HLinked(b, p, q)
    ensures VLinked(b, p, m) && VLinked(b, m, q) ==> VLinked(b, p, q)
  {
    if HLinked(b, p, m) && HLinked(b, m, q) && p.y != 0 && p.y != b.height + 1 {
      RowJoin(b, p.y, p.x, m.x, q.x);
    }
    if VLinked(b, p, m) && VLinked(b, m, q) && p.x != 0 && p.x != b.width + 1 {
      ColumnJoin(b, p.x, p.y, m.y, q.y);
    }
  }

  lemma StraightSymmetric(b: Board, p: Coord, q: Coord)
    ensures HLinked(b, p, q) == HLinked(b, q, p) && VLinked(b, p, q) == VLinked(b, q, p)
  {
    assert Min(p.x, q.x) == Min(q.x, p.x) && Max(p.x, q.x) == Max(q.x, p.x);
    assert Min(p.y, q.y) == Min(q.y, p.y) && Max(p.y, q.y) == Max(q.y, p.y);
  }

  /** The ways with no, one and two inner joints, spelt out. */
  lemma Path2(b: Board, c1: Coord, c2: Coord)
    ensures LinkPath(b, c1, c2, [c1, c2]) <==> Straight(b, c1, c2)
  {
    var j := [c1, c2];
    if Straight(b, c1, c2) {
      assert Straight(b, j[0], j[1]);
    }
  }

  lemma Path3(b: Board, c1: Coord, a: Coord, c2: Coord)
    ensures LinkPath(b, c1, c2, [c1, a, c2]) <==>
      InRing(b, a) && Cell(b, a) == 0 && Straight(b, c1, a) && Straight(b, a, c2)
  {
    var j := [c1, a, c2];
    if LinkPath(b, c1, c2, j) {
      assert Straight(b, j[0], j[1]) && Straight(b, j[1], j[2]);
      assert InRing(b, j[1]) && Cell(b, j[1]) == 0;
    }
  }

  lemma Path4(b: Board, c1: Coord, a: Coord, m: Coord, c2: Coord)
    ensures LinkPath(b, c1, c2, [c1, a, m, c2]) <==>
      InRing(b, a) && Cell(b, a) == 0 && InRing(b, m) && Cell(b, m) == 0
      && Straight(b, c1, a) && Straight(b, a, m) && Straight(b, m, c2)
  {
    var j := [c1, a, m, c2];
    if LinkPath(b, c1, c2, j) {
      assert Straight(b, j[0], j[1]) && Straight(b, j[1], j[2]) && Straight(b, j[2], j[3]);
      assert InRing(b, j[1]) && Cell(b, j[1]) == 0 && InRing(b, j[2]) && Cell(b, j[2]) == 0;
    } else {
      assert !(forall k :: 0 < k < |j| - 1 ==> InRing(b, j[k]) && Cell(b, j[k]) == 0)
        || !(forall k :: 0 <= k < |j| - 1 ==> Straight(b, j[k], j[k + 1]));
    }
  }

  /** Every way has two, three or four joints, listed from c1 to c2. */
  lemma PathShape(b: Board, c1: Coord, c2: Coord, j: seq<Coord>)
    requires LinkPath(b, c1, c2, j)
    ensures j == [c1, c2] || j == [c1, j[1], c2] || (|j| == 4 && j == [c1, j[1], j[2], c2])
  {
  }

  /** A way with one inner joint is straight or turns at one of the two corners. */
  lemma ThreeJointCanonical(b: Board, c1: Coord, c2: Coord, a: Coord)
    requires InRing(b, a) && Cell(b, a) == 0 && Straight(b, c1, a) && Straight(b, a, c2)
    ensures Straight(b, c1, c2) || CornerVH(b, c1, c2) || CornerHV(b, c1, c2)
  {
    StraightJoin(b, c1, a, c2);
    if VLinked(b, c1, a) && HLinked(b, a, c2) {
      assert a == Coord(c1.x, c2.y);
    } else if HLinked(b, c1, a) && VLinked(b, a, c2) {
      assert a == Coord(c2.x, c1.y);
    }
  }

  /** A way with two inner joints either has a column or row detour, or has a straight part that one joint can replace. */
  lemma FourJointCanonical(b: Board, c1: Coord, c2: Coord, a: Coord, m: Coord)
    requires Cell(b, c1) != 0 && Cell(b, c2) != 0
    requires InRing(b, a) && Cell(b, a) == 0 && InRing(b, m) && Cell(b, m) == 0
    requires Straight(b, c1, a) && Straight(b, a, m) && Straight(b, m, c2)
    ensures Straight(b, c1, c2) || CornerVH(b, c1, c2) || CornerHV(b, c1, c2)
      || ColumnDetour(b, c1, c2, a.x) || RowDetour(b, c1, c2, a.y)
  {
    StraightJoin(b, c1, a, m);
    StraightJoin(b, a, m, c2);
    if Straight(b, c1, m) {
      ThreeJointCanonical(b, c1, c2, m);
    } else if Straight(b, a, c2) {
      ThreeJointCanonical(b, c1, c2, a);
    } else if HLinked(b, c1, a) {
      assert a == Coord(a.x, c1.y) && m == Coord(a.x, c2.y);
    } else {
      assert a == Coord(c1.x, a.y) && m == Coord(c2.x, a.y);
    }
  }

  /** Every way with at most two turns has one of the shapes IsLinked tries. */
  lemma LinkPathCanonical(b: Board, c1: Coord, c2: Coord, j: seq<Coord>)
    requires Cell(b, c1) != 0 && Cell(b, c2) != 0 && LinkPath(b, c1, c2, j)
    ensures Canonical(b, c1, c2)
  {
    PathShape(b, c1, c2, j);
    if |j| == 2 {
      Path2(b, c1, c2);
    } else if |j| == 3 {
      Path3(b, c1, j[1], c2);
      ThreeJointCanonical(b, c1, c2, j[1]);
    } else {
      Path4(b, c1, j[1], j[2], c2);
      FourJointCanonical(b, c1, c2, j[1], j[2]);
    }
  }

  /** So two blocks match exactly when they pass the checks and one of the tried shapes joins them. */
  lemma LinkableIffCanonical(b: Board, c1: Coord, c2: Coord)
    ensures Linkable(b, c1, c2) <==> Pairable(b, c1, c2) && Canonical(b, c1, c2)
  {
    if Linkable(b, c1, c2) {
      var j :| LinkPath(b, c1, c2, j);
      LinkPathCanonical(b, c1, c2, j);
    }
    if Pairable(b, c1, c2) && Canonical(b, c1, c2) {
      LinkJointsCanonical(b, c1, c2);
      LinkJointsPath(b, c1, c2);
    }
  }

  function Reversed(j: seq<Coord>): (r: seq<Coord>)
    ensures |r| == |j| && forall k :: 0 <= k < |j| ==> r[k] == j[|j| - 1 - k]
  {
    if j == [] then [] else Reversed(j[1..]) + [j[0]]
  }

  /** A way read backwards is a way from c2 to c1. */
  lemma ReversedPath(b: Board, c1: Coord, c2: Coord, j: seq<Coord>)
    requires LinkPath(b, c1, c2, j)
    ensures LinkPath(b, c2, c1, Reversed(j))
  {
    var r := Reversed(j);
    forall k | 0 <= k < |r| - 1 ensures Straight(b, r[k], r[k + 1]) {
      assert Straight(b, j[|j| - 2 - k], j[|j| - 1 - k]);
      StraightSymmetric(b, r[k], r[k + 1]);
    }
    forall k | 0 < k < |r| - 1 ensures InRing(b, r[k]) && Cell(b, r[k]) == 0 {
      assert r[k] == j[|j| - 1 - k];
    }
  }

  /** Matching does not depend on the order of the two blocks. */
  lemma LinkableSymmetric(b: Board, c1: Coord, c2: Coord)
    ensures Linkable(b, c1, c2) <==> Linkable(b, c2, c1)
  {
    if Linkable(b, c1, c2) {
      var j :| LinkPath(b, c1, c2, j);
      ReversedPath(b, c1, c2, j);
    }
    if Linkable(b, c2, c1) {
      var j :| LinkPath(b, c2, c1, j);
      ReversedPath(b, c2, c1, j);
    }
  }

  // ---------------------------------------------------------------------------
  // The way IsLinked reports and the pair HasSolution reports

  /** The first column from `from` on, left to right, that gives a column detour. */
  function FirstColumn(b: Board, c1: Coord, c2: Coord, from: nat): Option<U32>
    decreases b.width + 2 - from
  {
    if from > b.width + 1 || from >= UINT32_MOD then None
    else if ColumnDetour(b, c1, c2, from) then Some(from)
    else FirstColumn(b, c1, c2, from + 1)
  }

  /** The first row from `from` on, top to bottom, that gives a row detour. */
  function FirstRow(b: Board, c1: Coord, c2: Coord, from: nat): Option<U32>
    decreases b.height + 2 - from
  {
    if from > b.height + 1 || from >= UINT32_MOD then None
    else if RowDetour(b, c1, c2, from) then Some(from)
    else FirstRow(b, c1, c2, from + 1)
  }

  lemma {:induction false} FirstColumnLeast(b: Board, c1: Coord, c2: Coord, from: nat)
    ensures match FirstColumn(b, c1, c2, from)
      case None => forall x: U32 :: from <= x ==> !ColumnDetour(b, c1, c2, x)
      case Some(cx) =>
        (from <= cx && ColumnDetour(b, c1, c2, cx) && forall x: U32 :: from <= x < cx ==> !ColumnDetour(b, c1, c2, x))
    decreases b.width + 2 - from
  {
    if from <= b.width + 1 && from < UINT32_MOD && !ColumnDetour(b, c1, c2, from) {
      FirstColumnLeast(b, c1, c2, from + 1);
    }
  }

  lemma {:induction false} FirstRowLeast(b: Board, c1: Coord, c2: Coord, from: nat)
    ensures match FirstRow(b, c1, c2, from)
      case None => forall y: U32 :: from <= y ==> !RowDetour(b, c1, c2, y)
      case Some(cy) =>
        (from <= cy && RowDetour(b, c1, c2, cy) && forall y: U32 :: from <= y < cy ==> !RowDetour(b, c1, c2, y))
    decreases b.height + 2 - from
  {
    if from <= b.height + 1 && from < UINT32_MOD && !RowDetour(b, c1, c2, from) {
      FirstRowLeast(b, c1, c2, from + 1);
    }
  }

  /** The joints of the leftmost column detour, if there is one. */
  function ColumnJoints(b: Board, c1: Coord, c2: Coord): Option<seq<Coord>> {
    match FirstColumn(b, c1, c2, 0)
    case None => None
    case Some(cx) => Some([c1, Coord(cx, c1.y), Coord(cx, c2.y), c2])
  }

  /** The joints of the topmost row detour, if there is one. */
  function RowJoints(b: Board, c1: Coord, c2: Coord): Option<seq<Coord>> {
    match FirstRow(b, c1, c2, 0)
    case None => None
    case Some(cy) => Some([c1, Coord(c1.x, cy), Coord(c2.x, cy), c2])
  }

  /** The joints IsLinked writes: the first shape that joins c1 to c2, in the order it tries them. */
  function LinkJoints(b: Board, c1: Coord, c2: Coord): Option<seq<Coord>> {
    if !Pairable(b, c1, c2) then None
    else if Straight(b, c1, c2) then Some([c1, c2])
    else if CornerVH(b, c1, c2) then Some([c1, Coord(c1.x, c2.y), c2])
    else if CornerHV(b, c1, c2) then Some([c1, Coord(c2.x, c1.y), c2])
    else if ColumnJoints(b, c1, c2).Some? then ColumnJoints(b, c1, c2)
    else RowJoints(b, c1, c2)
  }

  /** IsLinked reports a way exactly when the blocks pass its checks and one of the shapes it tries joins them. */
  lemma LinkJointsCanonical(b: Board, c1: Coord, c2: Coord)
    ensures LinkJoints(b, c1, c2).Some? <==> Pairable(b, c1, c2) && Canonical(b, c1, c2)
  {
    ColumnJointsSome(b, c1, c2);
    RowJointsSome(b, c1, c2);
  }

  lemma ColumnJointsSome(b: Board, c1: Coord, c2: Coord)
    ensures ColumnJoints(b, c1, c2).Some? <==> exists cx :: ColumnDetour(b, c1, c2, cx)
  {
    FirstColumnLeast(b, c1, c2, 0);
  }

  lemma RowJointsSome(b: Board, c1: Coord, c2: Coord)
    ensures RowJoints(b, c1, c2).Some? <==> exists cy :: RowDetour(b, c1, c2, cy)
  {
    FirstRowLeast(b, c1, c2, 0);
  }

  /** What IsLinked reports is a way with at most two turns. */
  lemma LinkJointsPath(b: Board, c1: Coord, c2: Coord)
    ensures LinkJoints(b, c1, c2).Some? ==> LinkPath(b, c1, c2, LinkJoints(b, c1, c2).value)
  {
    if Pairable(b, c1, c2) {
      if Straight(b, c1, c2) {
        Path2(b, c1, c2);
      } else if CornerVH(b, c1, c2) {
        Path3(b, c1, Coord(c1.x, c2.y), c2);
      } else if CornerHV(b, c1, c2) {
        Path3(b, c1, Coord(c2.x, c1.y), c2);
      } else if FirstColumn(b, c1, c2, 0).Some? {
        FirstColumnLeast(b, c1, c2, 0);
        var cx := FirstColumn(b, c1, c2, 0).value;
        Path4(b, c1, Coord(cx, c1.y), Coord(cx, c2.y), c2);
      } else if FirstRow(b, c1, c2, 0).Some? {
        FirstRowLeast(b, c1, c2, 0);
        var cy := FirstRow(b, c1, c2, 0).value;
        Path4(b, c1, Coord(c1.x, cy), Coord(c2.x, cy), c2);
      }
    }
  }

  /** IsLinked reports a way exactly when the blocks match, and what it reports is a way between them. */
  lemma LinkJointsMeaning(b: Board, c1: Coord, c2: Coord)
    ensures LinkJoints(b, c1, c2).Some? <==> Linkable(b, c1, c2)
    ensures LinkJoints(b, c1, c2).Some? ==> LinkPath(b, c1, c2, LinkJoints(b, c1, c2).value)
  {
    LinkableIffCanonical(b, c1, c2);
    LinkJointsCanonical(b, c1, c2);
    LinkJointsPath(b, c1, c2);
  }

  /** The leftmost column detour is the one below which there is none. */
  lemma FirstColumnIs(b: Board, c1: Coord, c2: Coord, cx: U32)
    requires ColumnDetour(b, c1, c2, cx) && forall x: U32 :: x < cx ==> !ColumnDetour(b, c1, c2, x)
    ensures FirstColumn(b, c1, c2, 0) == Some(cx)
  {
    FirstColumnLeast(b, c1, c2, 0);
  }

  lemma FirstRowIs(b: Board, c1: Coord, c2: Coord, cy: U32)
    requires RowDetour(b, c1, c2, cy) && forall y: U32 :: y < cy ==> !RowDetour(b, c1, c2, y)
    ensures FirstRow(b, c1, c2, 0) == Some(cy)
  {
    FirstRowLeast(b, c1, c2, 0);
  }

  /** The first cell from (x2, y2) on, in row-major order up to row h, that matches c1. */
  function PartnerFrom(b: Board, c1: Coord, y2: nat, x2: nat): Option<Coord>
    decreases b.height + 1 - y2, b.width + 1 - x2
  {
    if y2 > b.height then None
    else if x2 > b.width then PartnerFrom(b, c1, y2 + 1, 1)
    else if LinkJoints(b, c1, Coord(x2, y2)).Some? then Some(Coord(x2, y2))
    else PartnerFrom(b, c1, y2, x2 + 1)
  }

  /** A cell of the board at or after (x, y) in row-major order. */
  predicate AtOrAfter(b: Board, c: Coord, y: nat, x: nat) {
    InBoard(b, c) && (y < c.y || (c.y == y && x <= c.x))
  }

  lemma {:induction false} PartnerFromMeaning(b: Board, c1: Coord, y2: nat, x2: nat)
    ensures match PartnerFrom(b, c1, y2, x2)
      case Some(c2) => AtOrAfter(b, c2, y2, x2) && Linkable(b, c1, c2)
      case None => forall c2 :: AtOrAfter(b, c2, y2, x2) ==> !Linkable(b, c1, c2)
    decreases b.height + 1 - y2, b.width + 1 - x2
  {
    if y2 > b.height {
    } else if x2 > b.width {
      PartnerFromMeaning(b, c1, y2 + 1, 1);
    } else {
      LinkJointsMeaning(b, c1, Coord(x2, y2));
      PartnerFromMeaning(b, c1, y2, x2 + 1);
      forall c2 | AtOrAfter(b, c2, y2, x2) && c2 != Coord(x2, y2) ensures AtOrAfter(b, c2, y2, x2 + 1) {
      }
    }
  }

  /** The first pair in the order HasSolution scans, from block (x1, y1) on. */
  function SolutionFrom(b: Board, y1: nat, x1: nat): Option<(Coord, Coord)>
    decreases b.height + 1 - y1, b.width + 1 - x1
  {
    if y1 > b.height then None
    else if x1 > b.width then SolutionFrom(b, y1 + 1, 1)
    else
      var c1 := Coord(x1, y1);
      if Cell(b, c1) != 0 && PartnerFrom(b, c1, y1, 1).Some? then Some((c1, PartnerFrom(b, c1, y1, 1).value))
      else SolutionFrom(b, y1, x1 + 1)
  }

  /** The pair HasSolution reports. */
  function FirstSolution(b: Board): Option<(Coord, Coord)> {
    SolutionFrom(b, 1, 1)
  }

  lemma {:induction false} SolutionFromMeaning(b: Board, y1: nat, x1: nat)
    ensures match SolutionFrom(b, y1, x1)
      case Some(p) => AtOrAfter(b, p.0, y1, x1) && Linkable(b, p.0, p.1) && p.0.y <= p.1.y
      case None => forall c1, c2 :: AtOrAfter(b, c1, y1, x1) && AtOrAfter(b, c2, c1.y, 1) ==> !Linkable(b, c1, c2)
    decreases b.height + 1 - y1, b.width + 1 - x1
  {
    if y1 > b.height {
    } else if x1 > b.width {
      SolutionFromMeaning(b, y1 + 1, 1);
    } else {
      var c1 := Coord(x1, y1);
      PartnerFromMeaning(b, c1, y1, 1);
      SolutionFromMeaning(b, y1, x1 + 1);
      forall c | AtOrAfter(b, c, y1, x1) && c != c1 ensures AtOrAfter(b, c, y1, x1 + 1) {
      }
    }
  }

  /**
   * HasSolution finds a pair exactly when two blocks of the board match, and
   * the pair it reports matches with the first block in the upper row.
   */
  lemma FirstSolutionMeaning(b: Board)
    ensures FirstSolution(b).Some? ==>
      var p := FirstSolution(b).value; Linkable(b, p.0, p.1) && p.0.y <= p.1.y
    ensures FirstSolution(b).None? <==> forall c1, c2 :: !Linkable(b, c1, c2)
  {
    SolutionFromMeaning(b, 1, 1);
    if FirstSolution(b).None? {
      forall c1, c2 ensures !Linkable(b, c1, c2) {
        LinkableSymmetric(b, c1, c2);
        if Linkable(b, c1, c2) {
          if c1.y <= c2.y {
            assert AtOrAfter(b, c1, 1, 1) && AtOrAfter(b, c2, c1.y, 1);
          } else {
            assert AtOrAfter(b, c2, 1, 1) && AtOrAfter(b, c1, c2.y, 1);
          }
        }
      }
    }
  }

  /**
   * The board Grid::Shuffle leaves: round k rearranges the blocks as
   * shuffle(k, .) does; rounds go on while the board has no matching pair,
   * and stop after round `rounds` - 1 at the latest.
   */
  function Reshuffled(b: Board, shuffle: (nat, seq<Block>) -> seq<Block>, k: nat, rounds: nat): Board
    decreases rounds - k
  {
    var next := b.(blocks := shuffle(k, b.blocks));
    if FirstSolution(next).Some? || k + 1 >= rounds then next
    else Reshuffled(next, shuffle, k + 1, rounds)
  }

  /** Shuffling only rearranges the blocks. */
  lemma {:induction false} ReshuffledBlocks(b: Board, shuffle: (nat, seq<Block>) -> seq<Block>, k: nat, rounds: nat)
    requires forall i, s: seq<Block> :: multiset(shuffle(i, s)) == multiset(s)
    ensures var r := Reshuffled(b, shuffle, k, rounds);
      r.width == b.width && r.height == b.height && multiset(r.blocks) == multiset(b.blocks)
    decreases rounds - k
  {
    var next := b.(blocks := shuffle(k, b.blocks));
    if !(FirstSolution(next).Some? || k + 1 >= rounds) {
      ReshuffledBlocks(next, shuffle, k + 1, rounds);
    }
  }

  /** A board with a matching pair stops the rounds: if any round leaves one, the result has one. */
  lemma {:induction false} ReshuffledSolvable(b: Board, shuffle: (nat, seq<Block>) -> seq<Block>, k: nat, rounds: nat, j: nat)
    requires k <= j < rounds
    requires FirstSolution(Reshuffled(b, shuffle, k, j + 1)).Some?
    ensures FirstSolution(Reshuffled(b, shuffle, k, rounds)).Some?
    decreases rounds - k
  {
    var next := b.(blocks := shuffle(k, b.blocks));
    if FirstSolution(next).None? && k + 1 < rounds && k < j {
      ReshuffledSolvable(next, shuffle, k + 1, rounds, j);
    }
  }

  // ---------------------------------------------------------------------------
  // The free stretch around a cell

  /**
   * What Grid::get_pos_h_bound returns for c: the widest [x1, x2] around
   * c.x whose other cells in c's row are empty, stopped at column 0 on the
   * left and once past column w on the right.
   */
  predicate HBound(b: Board, c: Coord, x1: int, x2: int) {
    0 <= x1 <= c.x <= x2 < UINT32_MOD && (x2 <= b.width + 1 || x2 == c.x)
    && (forall x :: x1 <= x <= x2 && x != c.x ==> Cell(b, Coord(x, c.y)) == 0)
    && (x1 == 0 || Cell(b, Coord(x1 - 1, c.y)) != 0)
    && (x2 > b.width || (x2 + 1 < UINT32_MOD && Cell(b, Coord(x2 + 1, c.y)) != 0))
  }

  predicate VBound(b: Board, c: Coord, y1: int, y2: int) {
    0 <= y1 <= c.y <= y2 < UINT32_MOD && (y2 <= b.height + 1 || y2 == c.y)
    && (forall y :: y1 <= y <= y2 && y != c.y ==> Cell(b, Coord(c.x, y)) == 0)
    && (y1 == 0 || Cell(b, Coord(c.x, y1 - 1)) != 0)
    && (y2 > b.height || (y2 + 1 < UINT32_MOD && Cell(b, Coord(c.x, y2 + 1)) != 0))
  }

  /** A column of the ring is reachable along c's row exactly when it lies in c's free stretch. */
  lemma HBoundReach(b: Board, c: Coord, x1: int, x2: int, cx: U32)
    requires Sized(b) && InBoard(b, c) && HBound(b, c, x1, x2) && cx <= b.width + 1 && cx != c.x
    ensures (Cell(b, Coord(cx, c.y)) == 0 && RowClear(b, c.y, c.x, cx)) <==> x1 <= cx <= x2
  {
  }

  lemma VBoundReach(b: Board, c: Coord, y1: int, y2: int, cy: U32)
    requires Sized(b) && InBoard(b, c) && VBound(b, c, y1, y2) && cy <= b.height + 1 && cy != c.y
    ensures (Cell(b, Coord(c.x, cy)) == 0 && ColumnClear(b, c.x, c.y, cy)) <==> y1 <= cy <= y2
  {
  }

  /** A column detour exists exactly at the columns both free stretches share, other than the two blocks' own, joined by a clear column. */
  lemma ColumnDetourBounds(b: Board, c1: Coord, c2: Coord, l1: int, h1: int, l2: int, h2: int, cx: U32)
    requires Sized(b) && InBoard(b, c1) && InBoard(b, c2) && HBound(b, c1, l1, h1) && HBound(b, c2, l2, h2)
    ensures ColumnDetour(b, c1, c2, cx) <==>
      cx != c1.x && cx != c2.x && Max(l1, l2) <= cx <= Min(h1, h2) && VLinked(b, Coord(cx, c1.y), Coord(cx, c2.y))
  {
    if cx <= b.width + 1 && cx != c1.x && cx != c2.x {
      HBoundReach(b, c1, l1, h1, cx);
      HBoundReach(b, c2, l2, h2, cx);
      StraightSymmetric(b, Coord(cx, c2.y), c2);
    }
  }

  lemma RowDetourBounds(b: Board, c1: Coord, c2: Coord, l1: int, h1: int, l2: int, h2: int, cy: U32)
    requires Sized(b) && InBoard(b, c1) && InBoard(b, c2) && VBound(b, c1, l1, h1) && VBound(b, c2, l2, h2)
    ensures RowDetour(b, c1, c2, cy) <==>
      cy != c1.y && cy != c2.y && Max(l1, l2) <= cy <= Min(h1, h2) && HLinked(b, Coord(c1.x, cy), Coord(c2.x, cy))
  {
    if cy <= b.height + 1 && cy != c1.y && cy != c2.y {
      VBoundReach(b, c1, l1, h1, cy);
      VBoundReach(b, c2, l2, h2, cy);
      StraightSymmetric(b, Coord(c2.x, cy), c2);
    }
  }

  // ---------------------------------------------------------------------------
  // Empty cells in row-major order

  /** The cells of columns 0..w' - 1 of row y, left to right. */
  function RingRow(w': nat, y: U32): (r: seq<Coord>)
    requires w' <= UINT32_MOD
    ensures |r| == w'
  {
    if w' == 0 then [] else RingRow(w' - 1, y) + [Coord(w' - 1, y)]
  }

  lemma {:induction false} RingRowAt(w': nat, y: U32, i: nat)
    requires i < w' <= UINT32_MOD
    ensures RingRow(w', y)[i] == Coord(i, y)
    decreases w'
  {
    if i < w' - 1 {
      RingRowAt(w' - 1, y, i);
    }
  }

  /** Rows 0..h' - 1 of the ring, each of columns 0..w + 1: the order of GetRandomSpace's loops. */
  function RingRows(b: Board, h': nat): seq<Coord>
    requires h' <= UINT32_MOD && b.width + 2 <= UINT32_MOD
  {
    if h' == 0 then [] else RingRows(b, h' - 1) + RingRow(b.width + 2, h' - 1)
  }

  /** The cells of cs that are empty and not excluded, in order. */
  function Spaces(b: Board, exclude: set<Coord>, cs: seq<Coord>): seq<Coord> {
    if cs == [] then []
    else
      var c := cs[|cs| - 1];
      Spaces(b, exclude, cs[..|cs| - 1]) + if Cell(b, c) == 0 && c !in exclude then [c] else []
  }

  lemma SpacesStep(b: Board, exclude: set<Coord>, cs: seq<Coord>, c: Coord)
    ensures Spaces(b, exclude, cs + [c]) == Spaces(b, exclude, cs) + if Cell(b, c) == 0 && c !in exclude then [c] else []
  {
    assert (cs + [c])[..|cs|] == cs;
  }

  lemma {:induction false} SpacesConcat(b: Board, exclude: set<Coord>, xs: seq<Coord>, ys: seq<Coord>)
    ensures Spaces(b, exclude, xs + ys) == Spaces(b, exclude, xs) + Spaces(b, exclude, ys)
    decreases |ys|
  {
    if ys == [] {
      assert xs + ys == xs;
    } else {
      var init, last := ys[..|ys| - 1], ys[|ys| - 1];
      assert ys == init + [last];
      assert xs + ys == (xs + init) + [last];
      SpacesConcat(b, exclude, xs, init);
      SpacesStep(b, exclude, xs + init, last);
      SpacesStep(b, exclude, init, last);
    }
  }

  /** The chosen cells are empty, not excluded, and drawn from the list in order. */
  lemma {:induction false} SpacesMembers(b: Board, exclude: set<Coord>, cs: seq<Coord>, c: Coord)
    ensures c in Spaces(b, exclude, cs) <==> c in cs && Cell(b, c) == 0 && c !in exclude
    decreases |cs|
  {
    if cs != [] {
      SpacesMembers(b, exclude, cs[..|cs| - 1], c);
      assert cs == cs[..|cs| - 1] + [cs[|cs| - 1]];
    }
  }

  /** The ring enumeration holds every cell of the ring. */
  lemma {:induction false} RingRowsCover(b: Board, h': nat, c: Coord)
    requires h' <= UINT32_MOD && b.width + 2 <= UINT32_MOD
    ensures c in RingRows(b, h') <==> c.x <= b.width + 1 && c.y < h'
    decreases h'
  {
    if h' > 0 {
      RingRowsCover(b, h' - 1, c);
      if c.y == h' - 1 && c.x <= b.width + 1 {
        RingRowAt(b.width + 2, h' - 1, c.x);
      }
      if c in RingRow(b.width + 2, h' - 1) {
        var i :| 0 <= i < b.width + 2 && RingRow(b.width + 2, h' - 1)[i] == c;
        RingRowAt(b.width + 2, h' - 1, i);
      }
    }
  }

  /** The empty cells of the ring that are not excluded, in the order GetRandomSpace visits them. */
  function FreeCells(b: Board, exclude: set<Coord>): seq<Coord>
    requires b.width + 2 <= UINT32_MOD && b.height + 2 <= UINT32_MOD
  {
    Spaces(b, exclude, RingRows(b, b.height + 2))
  }

  lemma FreeCellsMembers(b: Board, exclude: set<Coord>, c: Coord)
    requires b.width + 2 <= UINT32_MOD && b.height + 2 <= UINT32_MOD
    ensures c in FreeCells(b, exclude) <==> InRing(b, c) && Cell(b, c) == 0 && c !in exclude
  {
    SpacesMembers(b, exclude, RingRows(b, b.height + 2), c);
    RingRowsCover(b, b.height + 2, c);
  }

  /** Spaces keeps the order of its list: the spaces of a prefix are a prefix of the spaces. */
  lemma SpacesOfPrefix(b: Board, exclude: set<Coord>, xs: seq<Coord>, zs: seq<Coord>)
    requires xs <= zs
    ensures Spaces(b, exclude, xs) <= Spaces(b, exclude, zs)
  {
    assert zs == xs + zs[|xs|..];
    SpacesConcat(b, exclude, xs, zs[|xs|..]);
  }

  lemma {:induction false} RingRowsPrefix(b: Board, y1: nat, y2: nat)
    requires y1 <= y2 <= UINT32_MOD && b.width + 2 <= UINT32_MOD
    ensures RingRows(b, y1) <= RingRows(b, y2)
    decreases y2 - y1
  {
    if y1 < y2 {
      RingRowsPrefix(b, y1, y2 - 1);
    }
  }

  /** The cells up to and including (x, y) come first in the ring enumeration. */
  lemma RingPrefix(b: Board, x: U32, y: U32)
    requires Sized(b) && x <= b.width + 1 && y <= b.height + 1
    ensures RingRows(b, y) + RingRow(x + 1, y) <= RingRows(b, b.height + 2)
  {
    var row, full := RingRow(x + 1, y), RingRow(b.width + 2, y);
    assert row <= full by {
      forall i | 0 <= i < |row| ensures row[i] == full[i] {
        RingRowAt(x + 1, y, i);
        RingRowAt(b.width + 2, y, i);
      }
    }
    assert RingRows(b, y + 1) == RingRows(b, y) + full;
    RingRowsPrefix(b, y + 1, b.height + 2);
  }

  /** One more cell of row y extends the enumeration by that cell; a full row ends it at the next row. */
  lemma RingStep(b: Board, x: U32, y: U32)
    requires b.width + 2 <= UINT32_MOD && y < UINT32_MOD - 1 && x < UINT32_MOD - 1
    ensures RingRows(b, y) + RingRow(x + 1, y) == (RingRows(b, y) + RingRow(x, y)) + [Coord(x, y)]
    ensures RingRows(b, y) + RingRow(0, y) == RingRows(b, y)
    ensures RingRows(b, y) + RingRow(b.width + 2, y) == RingRows(b, y + 1)
  {
  }

  /** The top of the uniform range GetRandomSpace draws from: count - 1 in uint32_t arithmetic, with count itself a uint32_t. */
  function DrawBound(count: nat): U32 {
    ((count % UINT32_MOD) - 1) % UINT32_MOD
  }

  /**
   * The cell GetRandomSpace returns when draw(n) is the value drawn on
   * [0, n]: the drawn one of the free cells, or (0, 0) when the draw falls
   * past the last of them.
   */
  function RandomSpace(b: Board, exclude: set<Coord>, draw: U32 -> U32): Coord
    requires b.width + 2 <= UINT32_MOD && b.height + 2 <= UINT32_MOD
  {
    var free := FreeCells(b, exclude);
    var sample := draw(DrawBound(|free|));
    if sample < |free| then free[sample] else Coord(0, 0)
  }

  /** When there are free cells (and fewer than 2^32 of them), the drawn cell is one: empty, in the ring and not excluded. */
  lemma RandomSpaceFree(b: Board, exclude: set<Coord>, draw: U32 -> U32)
    requires b.width + 2 <= UINT32_MOD && b.height + 2 <= UINT32_MOD
    requires forall n: U32 :: draw(n) <= n
    ensures var free := FreeCells(b, exclude); var c := RandomSpace(b, exclude, draw);
      0 < |free| < UINT32_MOD ==> InRing(b, c) && Cell(b, c) == 0 && c !in exclude
  {
    var free := FreeCells(b, exclude);
    if 0 < |free| < UINT32_MOD {
      assert DrawBound(|free|) == |free| - 1;
      FreeCellsMembers(b, exclude, RandomSpace(b, exclude, draw));
    }
  }

  /** Visiting one more cell of row y adds it to the spaces seen when it is one. */
  lemma CountStep(b: Board, exclude: set<Coord>, x: U32, y: U32)
    requires b.width + 2 <= UINT32_MOD && y < UINT32_MOD - 1 && x < UINT32_MOD - 1
    ensures var c := Coord(x, y);
      Spaces(b, exclude, RingRows(b, y) + RingRow(x + 1, y))
      == Spaces(b, exclude, RingRows(b, y) + RingRow(x, y)) + if Cell(b, c) == 0 && c !in exclude then [c] else []
  {
    RingStep(b, x, y);
    SpacesStep(b, exclude, RingRows(b, y) + RingRow(x, y), Coord(x, y));
  }

  /** A free cell comes in the free list right after the free cells visited before it. */
  lemma SpaceAt(b: Board, exclude: set<Coord>, x: U32, y: U32)
    requires Sized(b) && x <= b.width + 1 && y <= b.height + 1
    requires Cell(b, Coord(x, y)) == 0 && Coord(x, y) !in exclude
    ensures var n := |Spaces(b, exclude, RingRows(b, y) + RingRow(x, y))|;
      n < |FreeCells(b, exclude)| && FreeCells(b, exclude)[n] == Coord(x, y)
  {
    assert FreeCells(b, exclude) == Spaces(b, exclude, RingRows(b, b.height + 2));
    RingStep(b, x, y);
    RingPrefix(b, x, y);
    SpaceInList(b, exclude, RingRows(b, y) + RingRow(x, y), Coord(x, y), RingRows(b, b.height + 2));
  }

  lemma SpaceInList(b: Board, exclude: set<Coord>, before: seq<Coord>, c: Coord, all: seq<Coord>)
    requires before + [c] <= all && Cell(b, c) == 0 && c !in exclude
    ensures var n := |Spaces(b, exclude, before)|; n < |Spaces(b, exclude, all)| && Spaces(b, exclude, all)[n] == c
  {
    SpacesStep(b, exclude, before, c);
    SpacesOfPrefix(b, exclude, before + [c], all);
    PrefixAt(Spaces(b, exclude, before), c, Spaces(b, exclude, all));
  }

  lemma PrefixAt(xs: seq<Coord>, c: Coord, zs: seq<Coord>)
    requires xs + [c] <= zs
    ensures |xs| < |zs| && zs[|xs|] == c
  {
    assert (xs + [c])[|xs|] == c;
  }

  /** One pass of the inner loop of GetRandomSpace's first loop: the spaces of row y. */
  method CountRow(b: Board, exclude: set<Coord>, y: U32, count0: nat) returns (count: nat)
    requires Sized(b) && y <= b.height + 1 && count0 == |Spaces(b, exclude, RingRows(b, y))|
    ensures count == |Spaces(b, exclude, RingRows(b, y + 1))|
  {
    count := count0;
    var x := 0;
    RingStep(b, 0, y);
    while x <= b.width + 1
      invariant x <= b.width + 2
      invariant count == |Spaces(b, exclude, RingRows(b, y) + RingRow(x, y))|
      decreases b.width + 2 - x
    {
      var c := Coord(x, y);
      CountStep(b, exclude, x, y);
      if Cell(b, c) == 0 && c !in exclude {
        count := count + 1;
      }
      x := x + 1;
    }
    RingStep(b, 0, y);
  }

  /** The first loop of GetRandomSpace: how many cells it may choose from. */
  method CountSpaces(b: Board, exclude: set<Coord>) returns (count: nat)
    requires Sized(b)
    ensures count == |FreeCells(b, exclude)|
  {
    count := 0;
    var y := 0;
    while y <= b.height + 1
      invariant y <= b.height + 2
      invariant count == |Spaces(b, exclude, RingRows(b, y))|
      decreases b.height + 2 - y
    {
      count := CountRow(b, exclude, y, count);
      y := y + 1;
    }
  }

  /** One pass of the inner loop of GetRandomSpace's second loop: the wanted cell if it lies in row y. */
  method NthInRow(b: Board, exclude: set<Coord>, y: U32, i0: nat, sample: nat) returns (found: Option<Coord>, i: nat)
    requires Sized(b) && y <= b.height + 1 && i0 == |Spaces(b, exclude, RingRows(b, y))| && i0 <= sample
    ensures found.Some? ==> sample < |FreeCells(b, exclude)| && found.value == FreeCells(b, exclude)[sample]
    ensures found.None? ==> i == |Spaces(b, exclude, RingRows(b, y + 1))| && i <= sample
  {
    i := i0;
    var x := 0;
    RingStep(b, 0, y);
    while x <= b.width + 1
      invariant x <= b.width + 2
      invariant i == |Spaces(b, exclude, RingRows(b, y) + RingRow(x, y))| && i <= sample
      decreases b.width + 2 - x
    {
      var here := Coord(x, y);
      CountStep(b, exclude, x, y);
      if Cell(b, here) == 0 && here !in exclude {
        if i == sample {
          SpaceAt(b, exclude, x, y);
          return Some(here), i;
        }
        i := i + 1;
      }
      x := x + 1;
    }
    RingStep(b, 0, y);
    return None, i;
  }

  /** The second loop of GetRandomSpace: the sample-th of those cells, counting from 0, or (0, 0). */
  method NthSpace(b: Board, exclude: set<Coord>, sample: nat) returns (c: Coord)
    requires Sized(b)
    ensures var free := FreeCells(b, exclude); c == if sample < |free| then free[sample] else Coord(0, 0)
  {
    var i := 0;
    var y := 0;
    while y <= b.height + 1
      invariant y <= b.height + 2
      invariant i == |Spaces(b, exclude, RingRows(b, y))| && i <= sample
      decreases b.height + 2 - y
    {
      var found;
      found, i := NthInRow(b, exclude, y, i, sample);
      if found.Some? {
        return found.value;
      }
      y := y + 1;
    }
    return Coord(0, 0);
  }

  // ---------------------------------------------------------------------------
  // The mutable grid

  class Grid {
    var width: U32
    var height: U32
    var blocks: seq<Block>

    function Value(): Board
      reads this
    {
      Board(width, height, blocks)
    }

    /** A grid before Initialize: no cells. */
    constructor ()
      ensures Value() == Board(0, 0, [])
    {
      width, height, blocks := 0, 0, [];
    }

    /** Grid::Initialize: w * h empty cells. */
    method Initialize(w: U32, h: U32)
      requires w + 2 < UINT32_MOD && h + 2 < UINT32_MOD && Area(w, h) < UINT32_MOD
      modifies this
      ensures width == w && height == h && Sized(Value())
      ensures forall c :: Cell(Value(), c) == 0
    {
      width, height := w, h;
      AreaPositive(w, h);
      blocks := seq(Area(w, h), _ => 0);
    }

    /** Grid::Set: replace the block of a cell of the board; a cell outside it is left alone. */
    method Set(c: Coord, v: Block)
      requires Sized(Value())
      modifies this
      ensures Value() == SetCell(old(Value()), c, v)
      ensures forall d :: Cell(Value(), d) == if d == c && InBoard(Value(), c) then v else old(Cell(Value(), d))
    {
      var b := Value();
      if 1 <= c.x <= width && 1 <= c.y <= height {
        IndexInRange(b, c);
        blocks := blocks[Index(b, c) := v];
      }
      forall d ensures Cell(Value(), d) == if d == c && InBoard(b, c) then v else Cell(b, d) {
        SetGet(b, c, v, d);
      }
    }

    /** Grid::is_pos_h_linked. */
    method IsPosHLinked(c1: Coord, c2: Coord) returns (r: bool)
      requires Sized(Value()) && InRing(Value(), c1) && InRing(Value(), c2)
      ensures r == HLinked(Value(), c1, c2)
    {
      if c1.y != c2.y {
        return false;
      }
      if c1.y == 0 || c1.y == height + 1 {
        return true;
      }
      var lo, hi := c1.x, c2.x;
      if lo > hi {
        lo, hi := hi, lo;
      }
      var x := lo + 1;
      while x < hi
        invariant lo < x <= hi || x == lo + 1
        invariant forall z :: lo < z < x ==> Cell(Value(), Coord(z, c1.y)) == 0
        decreases hi - x
      {
        if Cell(Value(), Coord(x, c1.y)) != 0 {
          return false;
        }
        x := x + 1;
      }
      return true;
    }

    /** Grid::is_pos_v_linked. */
    method IsPosVLinked(c1: Coord, c2: Coord) returns (r: bool)
      requires Sized(Value()) && InRing(Value(), c1) && InRing(Value(), c2)
      ensures r == VLinked(Value(), c1, c2)
    {
      if c1.x != c2.x {
        return false;
      }
      if c1.x == 0 || c1.x == width + 1 {
        return true;
      }
      var lo, hi := c1.y, c2.y;
      if lo > hi {
        lo, hi := hi, lo;
      }
      var y := lo + 1;
      while y < hi
        invariant lo < y <= hi || y == lo + 1
        invariant forall z :: lo < z < y ==> Cell(Value(), Coord(c1.x, z)) == 0
        decreases hi - y
      {
        if Cell(Value(), Coord(c1.x, y)) != 0 {
          return false;
        }
        y := y + 1;
      }
      return true;
    }

    /** Grid::get_pos_h_bound. */
    method GetPosHBound(c: Coord) returns (x1: U32, x2: U32)
      requires Sized(Value()) && InRing(Value(), c)
      ensures HBound(Value(), c, x1, x2)
    {
      x1, x2 := c.x, c.x;
      while x1 >= 1 && Cell(Value(), Coord(x1 - 1, c.y)) == 0
        invariant 0 <= x1 <= c.x
        invariant forall x :: x1 <= x < c.x ==> Cell(Value(), Coord(x, c.y)) == 0
      {
        x1 := x1 - 1;
      }
      while x2 <= width && Cell(Value(), Coord(x2 + 1, c.y)) == 0
        invariant c.x <= x2 <= width + 1 || x2 == c.x
        invariant forall x :: c.x < x <= x2 ==> Cell(Value(), Coord(x, c.y)) == 0
        decreases width + 1 - x2
      {
        x2 := x2 + 1;
      }
    }

    /** Grid::get_pos_v_bound. */
    method GetPosVBound(c: Coord) returns (y1: U32, y2: U32)
      requires Sized(Value()) && InRing(Value(), c)
      ensures VBound(Value(), c, y1, y2)
    {
      y1, y2 := c.y, c.y;
      while y1 >= 1 && Cell(Value(), Coord(c.x, y1 - 1)) == 0
        invariant 0 <= y1 <= c.y
        invariant forall y :: y1 <= y < c.y ==> Cell(Value(), Coord(c.x, y)) == 0
      {
        y1 := y1 - 1;
      }
      while y2 <= height && Cell(Value(), Coord(c.x, y2 + 1)) == 0
        invariant c.y <= y2 <= height + 1 || y2 == c.y
        invariant forall y :: c.y < y <= y2 ==> Cell(Value(), Coord(c.x, y)) == 0
        decreases height + 1 - y2
      {
        y2 := y2 + 1;
      }
    }

    /**
     * Grid::IsLinked: the joints of a way with at most two turns from c1 to
     * c2, or None when the two blocks do not match (the source then leaves
     * the joints alone).
     */
    method IsLinked(c1: Coord, c2: Coord) returns (joints: Option<seq<Coord>>)
      requires Sized(Value())
      ensures joints.Some? <==> Linkable(Value(), c1, c2)
      ensures joints.Some? ==> LinkPath(Value(), c1, c2, joints.value)
      ensures joints == LinkJoints(Value(), c1, c2)
    {
      var b := Value();
      LinkJointsMeaning(b, c1, c2);
      if c1 == c2 || Cell(b, c1) == 0 || Cell(b, c1) != Cell(b, c2) {
        return None;
      }
      if Surrounded(b, c1) || Surrounded(b, c2) {
        return None;
      }
      assert InBoard(b, c1) && InBoard(b, c2);
      var straight := IsPosHLinked(c1, c2);
      if !straight {
        straight := IsPosVLinked(c1, c2);
      }
      if straight {
        return Some([c1, c2]);
      }
      joints := OneJoint(c1, c2);
      if joints.Some? {
        return;
      }
      joints := TwoJointsColumn(c1, c2);
      if joints.Some? {
        return;
      }
      joints := TwoJointsRow(c1, c2);
    }

    /** The one-joint part of IsLinked: the corner in c1's column first, then the one in c1's row. */
    method OneJoint(c1: Coord, c2: Coord) returns (joints: Option<seq<Coord>>)
      requires Sized(Value()) && InBoard(Value(), c1) && InBoard(Value(), c2)
      ensures joints == if CornerVH(Value(), c1, c2) then Some([c1, Coord(c1.x, c2.y), c2])
        else if CornerHV(Value(), c1, c2) then Some([c1, Coord(c2.x, c1.y), c2]) else None
    {
      var b := Value();
      var cc := Coord(c1.x, c2.y);
      if Cell(b, cc) == 0 {
        var v := IsPosVLinked(c1, cc);
        if v {
          var h := IsPosHLinked(cc, c2);
          if h {
            return Some([c1, cc, c2]);
          }
        }
      }
      cc := Coord(c2.x, c1.y);
      if Cell(b, cc) == 0 {
        var h := IsPosHLinked(c1, cc);
        if h {
          var v := IsPosVLinked(cc, c2);
          if v {
            return Some([c1, cc, c2]);
          }
        }
      }
      return None;
    }

    /** The first two-joint loop of IsLinked: a column reachable from both rows, joined by a clear column. */
    method TwoJointsColumn(c1: Coord, c2: Coord) returns (joints: Option<seq<Coord>>)
      requires Sized(Value()) && InBoard(Value(), c1) && InBoard(Value(), c2)
      ensures joints == ColumnJoints(Value(), c1, c2)
    {
      var b := Value();
      var l1, h1 := GetPosHBound(c1);
      var l2, h2 := GetPosHBound(c2);
      var cxl, cxh := Max(l1, l2), Min(h1, h2);
      forall x: U32 | x < cxl ensures !ColumnDetour(b, c1, c2, x) {
        ColumnDetourBounds(b, c1, c2, l1, h1, l2, h2, x);
      }
      var cx := cxl;
      while cx <= cxh
        invariant cxl <= cx
        invariant forall x: U32 :: x < cx ==> !ColumnDetour(b, c1, c2, x)
        decreases cxh + 1 - cx
      {
        ColumnDetourBounds(b, c1, c2, l1, h1, l2, h2, cx);
        if cx != c1.x && cx != c2.x {
          var cc1, cc2 := Coord(cx, c1.y), Coord(cx, c2.y);
          var v := IsPosVLinked(cc1, cc2);
          if v {
            FirstColumnIs(b, c1, c2, cx);
            return Some([c1, cc1, cc2, c2]);
          }
        }
        cx := cx + 1;
      }
      forall x: U32 | cx <= x ensures !ColumnDetour(b, c1, c2, x) {
        ColumnDetourBounds(b, c1, c2, l1, h1, l2, h2, x);
      }
      FirstColumnLeast(b, c1, c2, 0);
      return None;
    }

    /** The second two-joint loop of IsLinked: a row reachable from both columns, joined by a clear row. */
    method TwoJointsRow(c1: Coord, c2: Coord) returns (joints: Option<seq<Coord>>)
      requires Sized(Value()) && InBoard(Value(), c1) && InBoard(Value(), c2)
      ensures joints == RowJoints(Value(), c1, c2)
    {
      var b := Value();
      var l1, h1 := GetPosVBound(c1);
      var l2, h2 := GetPosVBound(c2);
      var cyl, cyh := Max(l1, l2), Min(h1, h2);
      forall y: U32 | y < cyl ensures !RowDetour(b, c1, c2, y) {
        RowDetourBounds(b, c1, c2, l1, h1, l2, h2, y);
      }
      var cy := cyl;
      while cy <= cyh
        invariant cyl <= cy
        invariant forall y: U32 :: y < cy ==> !RowDetour(b, c1, c2, y)
        decreases cyh + 1 - cy
      {
        RowDetourBounds(b, c1, c2, l1, h1, l2, h2, cy);
        if cy != c1.y && cy != c2.y {
          var cc1, cc2 := Coord(c1.x, cy), Coord(c2.x, cy);
          var h := IsPosHLinked(cc1, cc2);
          if h {
            FirstRowIs(b, c1, c2, cy);
            return Some([c1, cc1, cc2, c2]);
          }
        }
        cy := cy + 1;
      }
      forall y: U32 | cy <= y ensures !RowDetour(b, c1, c2, y) {
        RowDetourBounds(b, c1, c2, l1, h1, l2, h2, y);
      }
      FirstRowLeast(b, c1, c2, 0);
      return None;
    }

    /**
     * The inner two loops of Grid::HasSolution: the first block in rows
     * c1.y and below, in row-major order, that matches c1.
     */
    method FindPartner(c1: Coord) returns (p: Option<Coord>)
      requires Sized(Value())
      ensures p == PartnerFrom(Value(), c1, c1.y, 1)
    {
      var b := Value();
      var y2 := c1.y;
      while y2 <= height
        invariant y2 <= height + 1 || y2 == c1.y
        invariant PartnerFrom(b, c1, c1.y, 1) == PartnerFrom(b, c1, y2, 1)
        decreases height + 1 - y2
      {
        var x2 := 1;
        while x2 <= width
          invariant 1 <= x2 <= width + 1
          invariant PartnerFrom(b, c1, c1.y, 1) == PartnerFrom(b, c1, y2, x2)
          decreases width + 1 - x2
        {
          var j := IsLinked(c1, Coord(x2, y2));
          if j.Some? {
            return Some(Coord(x2, y2));
          }
          x2 := x2 + 1;
        }
        y2 := y2 + 1;
      }
      return None;
    }

    /**
     * Grid::HasSolution: the first matching pair in the source's scan order;
     * by FirstSolutionMeaning, None exactly when no two blocks match.
     */
    method HasSolution() returns (sol: Option<(Coord, Coord)>)
      requires Sized(Value())
      ensures sol == FirstSolution(Value())
      ensures sol.Some? ==> Linkable(Value(), sol.value.0, sol.value.1) && sol.value.0.y <= sol.value.1.y
      ensures sol.None? <==> forall c1, c2 :: !Linkable(Value(), c1, c2)
    {
      var b := Value();
      FirstSolutionMeaning(b);
      var y1 := 1;
      while y1 <= height
        invariant 1 <= y1 <= height + 1
        invariant FirstSolution(b) == SolutionFrom(b, y1, 1)
        decreases height + 1 - y1
      {
        var x1 := 1;
        while x1 <= width
          invariant 1 <= x1 <= width + 1
          invariant FirstSolution(b) == SolutionFrom(b, y1, x1)
          decreases width + 1 - x1
        {
          var c1 := Coord(x1, y1);
          if Cell(b, c1) != 0 {
            var p := FindPartner(c1);
            if p.Some? {
              return Some((c1, p.value));
            }
          }
          x1 := x1 + 1;
        }
        y1 := y1 + 1;
      }
      return None;
    }

    /**
     * Grid::Shuffle with std::shuffle passed in: round k rearranges the
     * blocks as shuffle(k, .) does. The rounds repeat until the board has a
     * matching pair, here for at most `rounds` rounds (at least one).
     */
    method Shuffle(shuffle: (nat, seq<Block>) -> seq<Block>, rounds: nat) returns (sol: Option<(Coord, Coord)>)
      requires Sized(Value())
      requires forall k, s: seq<Block> :: multiset(shuffle(k, s)) == multiset(s)
      modifies this
      ensures Value() == Reshuffled(old(Value()), shuffle, 0, rounds)
      ensures Sized(Value()) && width == old(width) && height == old(height)
      ensures multiset(blocks) == multiset(old(blocks))
      ensures sol == FirstSolution(Value())
    {
      ghost var b0, prev := Value(), Value();
      var k := 0;
      assert |multiset(shuffle(k, blocks))| == |blocks|;
      blocks := shuffle(k, blocks);
      sol := HasSolution();
      while sol.None? && k + 1 < rounds
        invariant Value() == prev.(blocks := shuffle(k, prev.blocks))
        invariant Reshuffled(b0, shuffle, 0, rounds) == Reshuffled(prev, shuffle, k, rounds)
        invariant Sized(Value()) && width == b0.width && height == b0.height
        invariant multiset(blocks) == multiset(b0.blocks)
        invariant sol == FirstSolution(Value())
        decreases rounds - k
      {
        prev := Value();
        k := k + 1;
        assert |multiset(shuffle(k, blocks))| == |blocks|;
        blocks := shuffle(k, blocks);
        sol := HasSolution();
      }
    }

    /**
     * Grid::GetRandomSpace with its random draw passed in: draw(n) is the
     * value std::uniform_int_distribution gives on [0, n]. The result is the
     * drawn one of the ring's empty cells that are not excluded, or (0, 0)
     * when the draw falls past the last of them.
     */
    method GetRandomSpace(exclude: set<Coord>, draw: U32 -> U32) returns (c: Coord)
      requires Sized(Value())
      requires forall n: U32 :: draw(n) <= n
      ensures c == RandomSpace(Value(), exclude, draw)
      ensures var free := FreeCells(Value(), exclude);
        0 < |free| < UINT32_MOD ==> InRing(Value(), c) && Cell(Value(), c) == 0 && c !in exclude
    {
      var b := Value();
      var count := CountSpaces(b, exclude);
      var sample := draw(DrawBound(count));
      c := NthSpace(b, exclude, sample);
      FreeCellsMembers(b, exclude, c);
    }
  }
}
