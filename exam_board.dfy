/**
 * The board of the exam program (QExam/Matrix.hpp): coordinates, the
 * row-major index map, bounds-checked cell reads, 4-adjacency, and walks
 * from cell to adjacent cell.
 */
module ExamBoard {
  import opened RowMajor

  /** Matrix::Coord. */
  datatype Coord = Coord(x: int, y: int)

  /** Matrix::IsValidCoord. */
  predicate InBounds(w: int, h: int, c: Coord) {
    0 <= c.x < w && 0 <= c.y < h
  }

  /** Matrix::xy_to_index: rows one after the other, y * w + x. */
  function Idx(w: int, c: Coord): int {
    RowStart(w, c.y) + c.x
  }

  lemma IdxInRange(w: int, h: int, c: Coord)
    requires InBounds(w, h, c)
    ensures 0 <= Idx(w, c) < Area(w, h)
  {
    RowStartMono(w, c.y, h);
    RowStartMono(w, c.y + 1, h);
  }

  lemma IdxInjective(w: int, h: int, a: Coord, b: Coord)
    requires InBounds(w, h, a) && InBounds(w, h, b) && Idx(w, a) == Idx(w, b)
    ensures a == b
  {
    if a.y < b.y {
      RowStartMono(w, a.y, b.y);
    } else if b.y < a.y {
      RowStartMono(w, b.y, a.y);
    }
  }

  /**
   * A bounds-checked read: the stored value for a cell of the board, the
   * default outside it (GetGrid gives false there, GetSafety 0).
   */
  function At<T>(s: seq<T>, w: int, h: int, c: Coord, default: T): T {
    if InBounds(w, h, c) && 0 <= Idx(w, c) < |s| then s[Idx(w, c)] else default
  }

  /** On a board stored in full every in-bounds read is the stored value. */
  lemma AtStored<T>(s: seq<T>, w: int, h: int, c: Coord, default: T)
    requires |s| == Area(w, h) && InBounds(w, h, c)
    ensures 0 <= Idx(w, c) < |s| && At(s, w, h, c, default) == s[Idx(w, c)]
  {
    IdxInRange(w, h, c);
  }

  /** Outside the board a read gives the default. */
  lemma AtOutside<T>(s: seq<T>, w: int, h: int, c: Coord, default: T)
    requires !InBounds(w, h, c)
    ensures At(s, w, h, c, default) == default
  {
  }

  /** The first cell is stored first and the last cell last. */
  lemma CornerIdx(w: int, h: int)
    requires w >= 1 && h >= 1
    ensures Idx(w, Coord(0, 0)) == 0 && Idx(w, Coord(w - 1, h - 1)) == Area(w, h) - 1
  {
  }

  /** Writing one index changes the read of exactly the cell stored there. */
  lemma AtUpdate<T>(s: seq<T>, w: int, h: int, n: Coord, v: T, c: Coord, default: T)
    requires |s| == Area(w, h) && InBounds(w, h, n)
    ensures 0 <= Idx(w, n) < |s|
    ensures At(s[Idx(w, n) := v], w, h, c, default) == if c == n then v else At(s, w, h, c, default)
  {
    IdxInRange(w, h, n);
    if InBounds(w, h, c) {
      IdxInRange(w, h, c);
      if c != n && Idx(w, c) == Idx(w, n) {
        IdxInjective(w, h, c, n);
      }
    }
  }

  /** The four cells a search looks at, in the order of Matrix.cpp: left, right, up a row, down a row. */
  function Neighbours(c: Coord): seq<Coord> {
    [Coord(c.x - 1, c.y), Coord(c.x + 1, c.y), Coord(c.x, c.y - 1), Coord(c.x, c.y + 1)]
  }

  /** Cells that share a side. */
  predicate Adjacent(a: Coord, b: Coord) {
    (a.y == b.y && (a.x - b.x == 1 || b.x - a.x == 1)) || (a.x == b.x && (a.y - b.y == 1 || b.y - a.y == 1))
  }

  lemma NeighboursAreAdjacent(c: Coord)
    ensures forall k :: 0 <= k < 4 ==> Adjacent(c, Neighbours(c)[k])
    ensures forall b :: Adjacent(c, b) ==> b in Neighbours(c)
  {
    forall b | Adjacent(c, b) ensures b in Neighbours(c) {
      if b.y == c.y && b.x == c.x - 1 {
        assert b == Neighbours(c)[0];
      } else if b.y == c.y && b.x == c.x + 1 {
        assert b == Neighbours(c)[1];
      } else if b.y == c.y - 1 {
        assert b == Neighbours(c)[2];
      } else {
        assert b == Neighbours(c)[3];
      }
    }
  }

  /** A sequence of in-bounds cells, each adjacent to the next. */
  ghost predicate IsWalk(w: int, h: int, p: seq<Coord>) {
    |p| > 0
    && (forall i :: 0 <= i < |p| ==> InBounds(w, h, p[i]))
    && (forall i :: 0 <= i < |p| - 1 ==> Adjacent(p[i], p[i + 1]))
  }

  /** A cell adjacent to the start of a walk extends it at the front. */
  lemma PrependWalk(w: int, h: int, c: Coord, q: seq<Coord>)
    requires IsWalk(w, h, q) && InBounds(w, h, c) && Adjacent(c, q[0])
    ensures IsWalk(w, h, [c] + q) && ([c] + q)[|q|] == q[|q| - 1]
  {
    var p := [c] + q;
    forall i | 1 <= i < |p| ensures InBounds(w, h, p[i]) {
      assert p[i] == q[i - 1];
    }
    forall i | 1 <= i < |p| - 1 ensures Adjacent(p[i], p[i + 1]) {
      assert p[i] == q[i - 1] && p[i + 1] == q[i];
    }
  }

  /** Dropping the first cell of a longer walk leaves a walk. */
  lemma WalkTail(w: int, h: int, p: seq<Coord>)
    requires IsWalk(w, h, p) && |p| > 1
    ensures IsWalk(w, h, p[1..]) && p[1..][|p| - 2] == p[|p| - 1]
  {
    var rest := p[1..];
    forall i | 0 <= i < |rest| - 1 ensures Adjacent(rest[i], rest[i + 1]) {
      assert rest[i] == p[i + 1] && rest[i + 1] == p[i + 2];
    }
  }

  /** A board of w * h cells has at least w + h - 1 of them. */
  lemma {:induction false} SidesBelowArea(w: int, h: int)
    requires w >= 1 && h >= 1
    ensures w + h - 1 <= Area(w, h)
    decreases h
  {
    if h > 1 {
      SidesBelowArea(w, h - 1);
    }
  }

  function Dist(a: int, b: int): nat {
    if a <= b then b - a else a - b
  }

  /** One step from a toward b: first along x, then along y. */
  function Toward(a: Coord, b: Coord): (n: Coord)
    requires a != b
    ensures Adjacent(a, n)
    ensures Dist(n.x, b.x) + Dist(n.y, b.y) < Dist(a.x, b.x) + Dist(a.y, b.y)
    ensures forall w, h :: InBounds(w, h, a) && InBounds(w, h, b) ==> InBounds(w, h, n)
  {
    if a.x < b.x then Coord(a.x + 1, a.y)
    else if a.x > b.x then Coord(a.x - 1, a.y)
    else if a.y < b.y then Coord(a.x, a.y + 1)
    else Coord(a.x, a.y - 1)
  }

  /** A walk from a to b of their Manhattan distance. */
  function StraightWalk(a: Coord, b: Coord): (p: seq<Coord>)
    ensures |p| == Dist(a.x, b.x) + Dist(a.y, b.y) + 1
    ensures p[0] == a && p[|p| - 1] == b
    decreases Dist(a.x, b.x) + Dist(a.y, b.y)
  {
    if a == b then [a] else [a] + StraightWalk(Toward(a, b), b)
  }

  /** Any two cells of the board are joined by a walk of their Manhattan distance. */
  lemma {:induction false} StraightWalkIsWalk(w: int, h: int, a: Coord, b: Coord)
    requires InBounds(w, h, a) && InBounds(w, h, b)
    ensures IsWalk(w, h, StraightWalk(a, b))
    decreases Dist(a.x, b.x) + Dist(a.y, b.y)
  {
    if a != b {
      var next := Toward(a, b);
      StraightWalkIsWalk(w, h, next, b);
      PrependWalk(w, h, a, StraightWalk(next, b));
    }
  }

  /** Matrix::ForEachCoord: every cell, rows in order, each row from left to right. */
  function Cells(w: nat, h: nat): (cs: seq<Coord>)
    ensures |cs| == Area(w, h)
    ensures forall i :: 0 <= i < |cs| ==> InBounds(w, h, cs[i])
  {
    if h == 0 then [] else Cells(w, h - 1) + Row(w, h - 1)
  }

  function Row(w: nat, y: int): (r: seq<Coord>)
    ensures |r| == w && forall i :: 0 <= i < w ==> r[i] == Coord(i, y)
  {
    if w == 0 then [] else Row(w - 1, y) + [Coord(w - 1, y)]
  }

  /** ForEachCoord visits exactly the cells of the board. */
  lemma CellsAreTheBoard(w: nat, h: nat, c: Coord)
    ensures c in Cells(w, h) <==> InBounds(w, h, c)
  {
    if InBounds(w, h, c) {
      CellsInIndexOrder(w, h, c);
    }
  }

  /** The cell visited in position i of ForEachCoord is the cell stored at index i. */
  lemma {:induction false} CellsInIndexOrder(w: nat, h: nat, c: Coord)
    requires InBounds(w, h, c)
    ensures 0 <= Idx(w, c) < |Cells(w, h)| && Cells(w, h)[Idx(w, c)] == c
  {
    IdxInRange(w, h, c);
    if c.y < h - 1 {
      CellsInIndexOrder(w, h - 1, c);
    } else {
      assert |Cells(w, h - 1)| == RowStart(w, h - 1);
      assert Cells(w, h)[Idx(w, c)] == Row(w, h - 1)[c.x];
    }
  }
}
