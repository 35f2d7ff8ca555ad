/**
 * Matrix::Input of QExam/Matrix.hpp: read the height, the width, one number
 * per cell (nonzero means blocked) and the minimum safety from a stream of
 * integers, then build the Matrix.
 *
 * The stream is a sequence of integers. A read past its end gives 0, as a
 * failed extraction into an int does.
 */
module ExamInput {
  import opened StdTypes
  import opened RowMajor
  import opened ExamBoard
  import opened ExamSafety
  import opened ExamPath
  import opened ExamMatrix

  /** The i-th integer of the stream, 0 once the stream is exhausted. */
  function Token(tokens: seq<int>, i: int): int {
    if 0 <= i < |tokens| then tokens[i] else 0
  }

  /** The product w * h of two signed sides, written with Area so that it stays linear. */
  function Product(w: int, h: int): int {
    if h >= 0 then Area(w, h) else -Area(w, -h)
  }

  lemma ProductIsMul(w: int, h: int)
    ensures Product(w, h) == w * h
  {
    if h >= 0 {
      AreaIsProduct(w, h);
    } else {
      AreaIsProduct(w, -h);
    }
  }

  /** What Input hands to the constructor. */
  datatype Fields = Fields(width: int, height: int, cells: seq<bool>, minSafety: int)

  /**
   * The fields Input reads. None when width * height is negative (the
   * resize of the grid fails) or above INT_MAX (the product overflows).
   */
  function ReadFields(tokens: seq<int>): (r: Option<Fields>)
    ensures r.Some? ==> r.value.height == Token(tokens, 0) && r.value.width == Token(tokens, 1)
  {
    var height, width := Token(tokens, 0), Token(tokens, 1);
    var n := Product(width, height);
    if n < 0 || n > INT_MAX then None
    else Some(Fields(width, height, seq(n, i => Token(tokens, 2 + i) != 0), Token(tokens, 2 + n)))
  }

  /** The stream that describes a board: height, width, one 0 or 1 per cell, the minimum safety. */
  function WriteFields(f: Fields): seq<int> {
    [f.height, f.width] + seq(|f.cells|, i requires 0 <= i < |f.cells| => if f.cells[i] then 1 else 0) + [f.minSafety]
  }

  /** Reading succeeds exactly when the product of the sides is an int that is not negative; then it has that many cells. */
  lemma ReadFieldsShape(tokens: seq<int>)
    ensures var w, h := Token(tokens, 1), Token(tokens, 0);
      ReadFields(tokens).Some? <==> 0 <= w * h <= INT_MAX
    ensures ReadFields(tokens).Some? ==>
      var f := ReadFields(tokens).value;
      |f.cells| == f.width * f.height
      && (forall i :: 0 <= i < |f.cells| ==> f.cells[i] == (Token(tokens, 2 + i) != 0))
      && f.minSafety == Token(tokens, 2 + |f.cells|)
  {
    ProductIsMul(Token(tokens, 1), Token(tokens, 0));
  }

  /** Reading back a written board gives the same fields, whatever follows it in the stream. */
  lemma ReadWrite(f: Fields, rest: seq<int>)
    requires 0 <= f.width * f.height <= INT_MAX && |f.cells| == f.width * f.height
    ensures ReadFields(WriteFields(f) + rest) == Some(f)
  {
    var t := WriteFields(f) + rest;
    var n := |f.cells|;
    assert Token(t, 0) == f.height && Token(t, 1) == f.width;
    ProductIsMul(f.width, f.height);
    var g := ReadFields(t).value;
    assert g.cells == f.cells by {
      forall i | 0 <= i < n ensures g.cells[i] == f.cells[i] {
        assert t[2 + i] == if f.cells[i] then 1 else 0;
      }
    }
    assert t[2 + n] == f.minSafety;
  }

  /** A board whose product of sides fits an int also fits after the sides are clamped at zero. */
  lemma ClampedArea(w: int, h: int)
    requires 0 <= Product(w, h) <= INT_MAX
    ensures Area(Max0(w), Max0(h)) <= INT_MAX
  {
    if w <= 0 {
      RowStartZero(Max0(h));
    }
  }

  /**
   * Matrix::Input. No matrix (null) where the source's grid resize fails or
   * its product of sides overflows.
   */
  method Input(tokens: seq<int>) returns (m: Matrix?)
    ensures m == null <==> ReadFields(tokens).None?
    ensures m != null ==> fresh(m)
    ensures m != null ==>
      var f := ReadFields(tokens).value;
      m.width == Max0(f.width) && m.height == Max0(f.height) && m.minSafety == f.minSafety
      && m.grid == Resized(f.cells, Area(m.width, m.height))
      && (m.grid == [] ==> m.safety == [] && m.path == [])
      && (m.grid != [] ==> SafetyMap(m.width, m.height, m.grid, m.safety)
                           && ShortestRoute(m.width, m.height, m.safety, m.minSafety, m.path))
  {
    var height := Token(tokens, 0);
    var width := Token(tokens, 1);
    var n := width * height;
    ProductIsMul(width, height);
    if n < 0 || n > INT_MAX {
      return null;
    }
    var grid := [];
    for i := 0 to n
      invariant |grid| == i
      invariant forall j :: 0 <= j < i ==> grid[j] == (Token(tokens, 2 + j) != 0)
    {
      var b := Token(tokens, 2 + i);
      grid := grid + [b != 0];
    }
    var min := Token(tokens, 2 + n);
    assert grid == ReadFields(tokens).value.cells;
    ClampedArea(width, height);
    m := new Matrix(width, height, grid, min);
  }
}
