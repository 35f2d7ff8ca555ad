/**
 * The boards of QLink/GridTest.cpp, built as the tests build them
 * (Initialize, then Set), and what the matching rule says about them.
 */
module LinkGridExamples {
  import opened StdTypes
  import opened RowMajor
  import opened LinkGrid

  /** The board Grid::Initialize(w, h) leaves. */
  function Empty(w: U32, h: U32): (b: Board)
    requires w + 2 < UINT32_MOD && h + 2 < UINT32_MOD && Area(w, h) < UINT32_MOD
    ensures Sized(b)
  {
    AreaPositive(w, h);
    Board(w, h, seq(Area(w, h), _ => 0))
  }

  /** test1Match: blocks of type 1 at (1, 1) and (1, 3) of a 3 x 3 board. */
  function Test1Board(): Board {
    SetCell(SetCell(Empty(3, 3), Coord(1, 1), 1), Coord(1, 3), 1)
  }

  /** test2Match: blocks of type 1 at (1, 1) and (2, 3). */
  function Test2Board(): Board {
    SetCell(SetCell(Empty(3, 3), Coord(1, 1), 1), Coord(2, 3), 1)
  }

  /** test3Match: test1's board with a block of type 2 between the two. */
  function Test3Board(): Board {
    SetCell(SetCell(SetCell(Empty(3, 3), Coord(1, 1), 1), Coord(1, 2), 2), Coord(1, 3), 1)
  }

  /** testHasSolution's last board: two pairs on the diagonals of a 2 x 2 board. */
  function CrossBoard(): Board {
    SetCell(SetCell(SetCell(SetCell(Empty(2, 2), Coord(1, 1), 1), Coord(1, 2), 2), Coord(2, 1), 2), Coord(2, 2), 1)
  }

  /** The cells of a 3 x 3 board are stored at these indices. */
  lemma Board3Stored(b: Board)
    requires b.width == 3 && b.height == 3 && |b.blocks| == 9
    ensures Cell(b, Coord(1, 1)) == b.blocks[0] && Cell(b, Coord(1, 2)) == b.blocks[3]
    ensures Cell(b, Coord(1, 3)) == b.blocks[6] && Cell(b, Coord(2, 3)) == b.blocks[7]
    ensures Cell(b, Coord(2, 1)) == b.blocks[1] && Cell(b, Coord(2, 2)) == b.blocks[4]
  {
    assert RowStart(3, 2) == 6 && RowStart(3, 1) == 3;
  }

  /** test1Match: the two blocks of one column link straight; an empty cell and a border cell link to nothing. */
  lemma Test1Match()
    ensures Linkable(Test1Board(), Coord(1, 1), Coord(1, 3))
    ensures !Linkable(Test1Board(), Coord(1, 2), Coord(1, 3))
    ensures !Linkable(Test1Board(), Coord(1, 0), Coord(1, 3))
  {
    var b := Test1Board();
    assert b.blocks == [1, 0, 0, 0, 0, 0, 1, 0, 0];
    Board3Stored(b);
    assert ColumnClear(b, 1, 1, 3) by {
      forall y: int | 1 < y < 3 ensures Cell(b, Coord(1, y)) == 0 {
        assert y == 2;
      }
    }
    Path2(b, Coord(1, 1), Coord(1, 3));
  }

  /** test2Match: the blocks link with one turn, at (1, 3). */
  lemma Test2Match()
    ensures Linkable(Test2Board(), Coord(1, 1), Coord(2, 3))
    ensures !Linkable(Test2Board(), Coord(1, 2), Coord(2, 3))
    ensures !Linkable(Test2Board(), Coord(1, 0), Coord(2, 3))
  {
    var b := Test2Board();
    assert b.blocks == [1, 0, 0, 0, 0, 0, 0, 1, 0];
    Board3Stored(b);
    assert ColumnClear(b, 1, 1, 3) by {
      forall y: int | 1 < y < 3 ensures Cell(b, Coord(1, y)) == 0 {
        assert y == 2;
      }
    }
    Path3(b, Coord(1, 1), Coord(1, 3), Coord(2, 3));
    assert LinkPath(b, Coord(1, 1), Coord(2, 3), [Coord(1, 1), Coord(1, 3), Coord(2, 3)]);
  }

  /** test3Match: with the column blocked, the blocks link through the border column 0. */
  lemma Test3Match()
    ensures Linkable(Test3Board(), Coord(1, 1), Coord(1, 3))
    ensures !Linkable(Test3Board(), Coord(1, 2), Coord(1, 3))
    ensures !Linkable(Test3Board(), Coord(1, 0), Coord(1, 3))
  {
    var b := Test3Board();
    assert b.blocks == [1, 0, 0, 2, 0, 0, 1, 0, 0];
    Board3Stored(b);
    var j := [Coord(1, 1), Coord(0, 1), Coord(0, 3), Coord(1, 3)];
    Path4(b, Coord(1, 1), Coord(0, 1), Coord(0, 3), Coord(1, 3));
    assert LinkPath(b, Coord(1, 1), Coord(1, 3), j);
  }

  /** testHasSolution, first board: an empty board has no matching pair. */
  lemma EmptyHasNoSolution(w: U32, h: U32, c1: Coord, c2: Coord)
    requires w + 2 < UINT32_MOD && h + 2 < UINT32_MOD && Area(w, h) < UINT32_MOD
    ensures !Linkable(Empty(w, h), c1, c2)
  {
  }

  /** testHasSolution, second board: there is a matching pair. */
  lemma Test3HasSolution()
    ensures exists c1, c2 :: Linkable(Test3Board(), c1, c2)
  {
    Test3Match();
  }

  /** What the last board of testHasSolution holds. */
  function CrossValue(c: Coord): Block {
    if c == Coord(1, 1) || c == Coord(2, 2) then 1
    else if c == Coord(1, 2) || c == Coord(2, 1) then 2
    else 0
  }

  lemma CrossBlocks()
    ensures CrossBoard() == Board(2, 2, [1, 2, 2, 1])
  {
    var e := Empty(2, 2);
    assert e.blocks == [0, 0, 0, 0];
    assert RowStart(2, 1) == 2;
    var b1 := SetCell(e, Coord(1, 1), 1);
    assert b1.blocks == [1, 0, 0, 0];
    var b2 := SetCell(b1, Coord(1, 2), 2);
    assert b2.blocks == [1, 0, 2, 0];
    var b3 := SetCell(b2, Coord(2, 1), 2);
    assert b3.blocks == [1, 2, 2, 0];
    var b := SetCell(b3, Coord(2, 2), 1);
    assert b.blocks == [1, 2, 2, 1] && b == CrossBoard();
  }

  lemma CrossCells(c: Coord)
    ensures Cell(Board(2, 2, [1, 2, 2, 1]), c) == CrossValue(c)
  {
    var b := Board(2, 2, [1, 2, 2, 1]);
    assert RowStart(2, 1) == 2;
    if InBoard(b, c) {
      assert c.x == 1 || c.x == 2;
      assert c.y == 1 || c.y == 2;
    }
  }

  /** testHasSolution, last board: each block is walled in towards its partner, so nothing matches. */
  lemma CrossHasNoSolution(c1: Coord, c2: Coord)
    ensures !Linkable(CrossBoard(), c1, c2)
  {
    var b := CrossBoard();
    CrossBlocks();
    forall c ensures Cell(b, c) == CrossValue(c) {
      CrossCells(c);
    }
    if Linkable(b, c1, c2) {
      LinkableIffCanonical(b, c1, c2);
      assert c1 != c2 && CrossValue(c1) != 0 && CrossValue(c1) == CrossValue(c2);
      CrossPair(b, c1, c2);
    }
  }

  /** No shape joins two blocks of one type on that board. */
  lemma CrossPair(b: Board, c1: Coord, c2: Coord)
    requires b.width == 2 && b.height == 2 && forall c :: Cell(b, c) == CrossValue(c)
    requires c1 != c2 && CrossValue(c1) != 0 && CrossValue(c1) == CrossValue(c2)
    ensures !Canonical(b, c1, c2)
  {
    assert !HLinked(b, c1, c2) && !VLinked(b, c1, c2);
    assert !CornerVH(b, c1, c2) by {
      assert Cell(b, Coord(c1.x, c2.y)) != 0;
    }
    assert !CornerHV(b, c1, c2) by {
      assert Cell(b, Coord(c2.x, c1.y)) != 0;
    }
    forall cx | ColumnDetour(b, c1, c2, cx) ensures false {
      CrossColumn(b, c1, c2, cx);
    }
    forall cy | RowDetour(b, c1, c2, cy) ensures false {
      CrossRow(b, c1, c2, cy);
    }
  }

  lemma CrossColumn(b: Board, c1: Coord, c2: Coord, cx: U32)
    requires b.width == 2 && b.height == 2 && forall c :: Cell(b, c) == CrossValue(c)
    requires c1 != c2 && CrossValue(c1) != 0 && CrossValue(c1) == CrossValue(c2)
    ensures !ColumnDetour(b, c1, c2, cx)
  {
  }

  lemma CrossRow(b: Board, c1: Coord, c2: Coord, cy: U32)
    requires b.width == 2 && b.height == 2 && forall c :: Cell(b, c) == CrossValue(c)
    requires c1 != c2 && CrossValue(c1) != 0 && CrossValue(c1) == CrossValue(c2)
    ensures !RowDetour(b, c1, c2, cy)
  {
  }
}
