/**
 * Row-major storage of a rectangular board: the first cell of a row and the
 * number of cells, shared by the boards of QExam (Matrix) and QLink (Grid).
 * Both are written as repeated addition so that index arithmetic stays
 * linear; RowStartIsProduct and AreaIsProduct state that they are the
 * products.
 */
module RowMajor {

  /** The index of the first cell of row y, y * w. */
  function RowStart(w: int, y: int): (r: int)
    ensures w >= 0 ==> r >= 0
    decreases y
  {
    if y <= 0 then 0 else RowStart(w, y - 1) + w
  }

  /** The number of cells of a w-by-h board, w * h. */
  function Area(w: int, h: int): int {
    RowStart(w, h)
  }

  lemma {:induction false} RowStartIsProduct(w: int, y: int)
    requires y >= 0
    ensures RowStart(w, y) == y * w
    decreases y
  {
    if y > 0 {
      RowStartIsProduct(w, y - 1);
      assert (y - 1) * w + w == y * w;
    }
  }

  lemma AreaIsProduct(w: int, h: int)
    requires h >= 0
    ensures Area(w, h) == w * h
  {
    RowStartIsProduct(w, h);
  }

  /** Later rows start later: rows a and b are at least (b - a) * w apart. */
  lemma {:induction false} RowStartMono(w: int, a: int, b: int)
    requires 0 <= a <= b && w >= 0
    ensures RowStart(w, a) + (if a < b then w else 0) <= RowStart(w, b)
    ensures RowStart(w, a) >= 0
    decreases b, a
  {
    if a < b {
      RowStartMono(w, a, b - 1);
    } else if a > 0 {
      RowStartMono(w, a - 1, a);
    }
  }

  /** A board has cells exactly when both sides are positive. */
  lemma AreaPositive(w: int, h: int)
    requires w >= 0
    ensures Area(w, h) >= 0
    ensures Area(w, h) > 0 <==> w >= 1 && h >= 1
  {
    if h > 0 {
      RowStartMono(w, 0, h);
      if w == 0 {
        RowStartZero(h);
      }
    }
  }

  lemma {:induction false} RowStartZero(y: int)
    ensures RowStart(0, y) == 0
    decreases y
  {
    if y > 0 {
      RowStartZero(y - 1);
    }
  }

}
