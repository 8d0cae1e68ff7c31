/** The integral image: sums over rectangles of an image, from a table of the sums over its upper left parts. */
module IntegralImages {

  type Image = seq<seq<real>>

  ghost predicate IsImage(img: Image, h: nat, w: nat) {
    |img| == h && forall i :: 0 <= i < h ==> |img[i]| == w
  }

  // ---------------------------------------------------------------------
  // The plain sums.
  // ---------------------------------------------------------------------

  ghost function RowSum(row: seq<real>, c0: int, c1: int): real
    requires 0 <= c0 <= c1 <= |row|
    decreases c1 - c0
  {
    if c0 == c1 then 0.0 else RowSum(row, c0, c1 - 1) + row[c1 - 1]
  }

  /** The sum over rows r0 to r1 and columns c0 to c1 of an image. */
  ghost function RectSum(img: Image, h: nat, w: nat, r0: int, r1: int, c0: int, c1: int): real
    requires IsImage(img, h, w) && 0 <= r0 <= r1 <= h && 0 <= c0 <= c1 <= w
    decreases r1 - r0
  {
    if r0 == r1 then 0.0 else RectSum(img, h, w, r0, r1 - 1, c0, c1) + RowSum(img[r1 - 1], c0, c1)
  }

  lemma {:induction false} RowSplit(row: seq<real>, c0: int, c1: int)
    requires 0 <= c0 <= c1 <= |row|
    ensures RowSum(row, c0, c1) == RowSum(row, 0, c1) - RowSum(row, 0, c0)
    decreases c1 - c0
  {
    if c0 < c1 {
      RowSplit(row, c0, c1 - 1);
    }
  }

  lemma {:induction false} ColumnsSplit(img: Image, h: nat, w: nat, r: int, c0: int, c1: int)
    requires IsImage(img, h, w) && 0 <= r <= h && 0 <= c0 <= c1 <= w
    ensures RectSum(img, h, w, 0, r, c0, c1) == RectSum(img, h, w, 0, r, 0, c1) - RectSum(img, h, w, 0, r, 0, c0)
    decreases r
  {
    if r > 0 {
      ColumnsSplit(img, h, w, r - 1, c0, c1);
      RowSplit(img[r - 1], c0, c1);
    }
  }

  lemma {:induction false} RowsSplit(img: Image, h: nat, w: nat, r0: int, r1: int, c0: int, c1: int)
    requires IsImage(img, h, w) && 0 <= r0 <= r1 <= h && 0 <= c0 <= c1 <= w
    ensures RectSum(img, h, w, r0, r1, c0, c1) == RectSum(img, h, w, 0, r1, c0, c1) - RectSum(img, h, w, 0, r0, c0, c1)
    decreases r1 - r0
  {
    if r0 < r1 {
      RowsSplit(img, h, w, r0, r1 - 1, c0, c1);
    }
  }

  /** The sum over the first r rows and c columns. */
  ghost function Prefix(img: Image, h: nat, w: nat, r: int, c: int): real
    requires IsImage(img, h, w) && 0 <= r <= h && 0 <= c <= w
  {
    RectSum(img, h, w, 0, r, 0, c)
  }

  /** A sum over a rectangle from four prefix sums. */
  lemma FourCorners(img: Image, h: nat, w: nat, r0: int, r1: int, c0: int, c1: int)
    requires IsImage(img, h, w) && 0 <= r0 <= r1 <= h && 0 <= c0 <= c1 <= w
    ensures RectSum(img, h, w, r0, r1, c0, c1) ==
            Prefix(img, h, w, r0, c0) + Prefix(img, h, w, r1, c1) - Prefix(img, h, w, r0, c1)
            - Prefix(img, h, w, r1, c0)
  {
    RowsSplit(img, h, w, r0, r1, c0, c1);
    ColumnsSplit(img, h, w, r0, c0, c1);
    ColumnsSplit(img, h, w, r1, c0, c1);
  }

  lemma PrefixStep(img: Image, h: nat, w: nat, i: int, j: int)
    requires IsImage(img, h, w) && 0 <= i < h && 0 <= j < w
    ensures Prefix(img, h, w, i + 1, j + 1) ==
            img[i][j] - Prefix(img, h, w, i, j) + Prefix(img, h, w, i + 1, j) + Prefix(img, h, w, i, j + 1)
  {
    assert RowSum(img[i], 0, j + 1) == RowSum(img[i], 0, j) + img[i][j];
  }

  lemma {:induction false} PrefixZero(img: Image, h: nat, w: nat, r: int, c: int)
    requires IsImage(img, h, w) && 0 <= r <= h && 0 <= c <= w && (r == 0 || c == 0)
    ensures Prefix(img, h, w, r, c) == 0.0
    decreases r
  {
    if r > 0 {
      PrefixZero(img, h, w, r - 1, c);
    }
  }

  // ---------------------------------------------------------------------
  // Rectangles that may stick out of the image.
  // ---------------------------------------------------------------------

  function Clip(x: int, size: nat): (r: int)
    ensures 0 <= r <= size
  {
    if x < 0 then 0 else if x > size then size else x
  }

  function NotNegative(x: real): real {
    if x > 0.0 then x else 0.0
  }

  /** The sum over the part of a rectangle that is in the image. */
  ghost function ClippedSum(img: Image, h: nat, w: nat, row: int, col: int, width: nat, height: nat): real
    requires IsImage(img, h, w)
  {
    RectSum(img, h, w, Clip(row, h), Clip(row + height, h), Clip(col, w), Clip(col + width, w))
  }

  /** Where a side that begins at x begins for the sums: beyond the image it begins at its start. */
  function Begin(x: int, size: nat): (r: int)
    ensures 0 <= r <= size
  {
    if x > size then 0 else Clip(x, size)
  }

  /** The sum that is computed. */
  ghost function ComputedSum(img: Image, h: nat, w: nat, row: int, col: int, width: nat, height: nat): real
    requires IsImage(img, h, w)
  {
    RectSum(img, h, w, Begin(row, h), Clip(row + height, h), Begin(col, w), Clip(col + width, w))
  }

  /** Nothing is left of the rectangle that is summed up. */
  predicate NothingComputed(h: nat, w: nat, row: int, col: int, width: nat, height: nat) {
    Begin(row, h) == Clip(row + height, h) || Begin(col, w) == Clip(col + width, w)
  }

  class IntegralImage {
    var rows: nat
    var cols: nat
    var matrix: array2<real>
    ghost var img: Image

    constructor ()
      ensures Valid() && rows == cols == 0
    {
      rows, cols, img := 0, 0, [];
      matrix := new real[0, 0];
    }

    ghost predicate Valid()
      reads this, matrix
    {
      && matrix.Length0 == rows && matrix.Length1 == cols
      && IsImage(img, rows, cols)
      && forall i, j :: 0 <= i < rows && 0 <= j < cols ==> matrix[i, j] == Prefix(img, rows, cols, i + 1, j + 1)
    }

    /** Builds the table, row by row, each entry from three earlier ones. */
    method Initialize(input: Image, rows: nat, cols: nat)
      requires IsImage(input, rows, cols)
      modifies this
      ensures Valid() && img == input && this.rows == rows && this.cols == cols && fresh(matrix)
    {
      matrix := new real[rows, cols];
      this.rows, this.cols, img := rows, cols, input;
      hide Prefix;
      for i := 0 to rows
        invariant matrix.Length0 == rows && matrix.Length1 == cols && fresh(matrix)
        invariant this.rows == rows && this.cols == cols && img == input
        invariant forall r, c :: 0 <= r < i && 0 <= c < cols ==>
            matrix[r, c] == Prefix(input, rows, cols, r + 1, c + 1)
      {
        for j := 0 to cols
          invariant matrix.Length0 == rows && matrix.Length1 == cols && fresh(matrix)
          invariant this.rows == rows && this.cols == cols && img == input
          invariant forall r, c :: 0 <= r < rows && 0 <= c < cols && (r < i || (r == i && c < j)) ==>
              matrix[r, c] == Prefix(input, rows, cols, r + 1, c + 1)
        {
          var val := input[i][j];
          var a, b, c := 0.0, 0.0, 0.0;
          if i - 1 >= 0 && j - 1 >= 0 {
            a := matrix[i - 1, j - 1];
          }
          if j - 1 >= 0 {
            b := matrix[i, j - 1];
          }
          if i - 1 >= 0 {
            c := matrix[i - 1, j];
          }
          Borders(input, rows, cols, i, j);
          PrefixStep(input, rows, cols, i, j);
          matrix[i, j] := val - a + b + c;
        }
      }
    }

    /** The sum over all rows up to rowIndex and all columns up to colIndex, 0 outside of the image. */
    function GetValue(rowIndex: int, colIndex: int): (r: real)
      requires Valid()
      reads this, matrix
      ensures -1 <= rowIndex < rows && -1 <= colIndex < cols ==>
              r == Prefix(img, rows, cols, rowIndex + 1, colIndex + 1)
    {
      if 0 <= rowIndex < rows && 0 <= colIndex < cols then
        matrix[rowIndex, colIndex]
      else
        assert -1 <= rowIndex < rows && -1 <= colIndex < cols ==>
               Prefix(img, rows, cols, rowIndex + 1, colIndex + 1) == 0.0 by {
          Outside(rowIndex, colIndex);
        }
        0.0
    }

    lemma Outside(rowIndex: int, colIndex: int)
      requires Valid() && !(0 <= rowIndex < rows && 0 <= colIndex < cols)
      ensures -1 <= rowIndex < rows && -1 <= colIndex < cols ==>
              Prefix(img, rows, cols, rowIndex + 1, colIndex + 1) == 0.0
    {
      if -1 <= rowIndex < rows && -1 <= colIndex < cols {
        PrefixZero(img, rows, cols, rowIndex + 1, colIndex + 1);
      }
    }

    /** The value at a corner of a rectangle, which counts only if it is not before the first row or column. */
    function Corner(rowIndex: int, colIndex: int): (r: real)
      requires Valid()
      reads this, matrix
      ensures rowIndex < rows && colIndex < cols ==>
                r == Prefix(img, rows, cols, if rowIndex < 0 then 0 else rowIndex + 1,
                            if colIndex < 0 then 0 else colIndex + 1)
    {
      if rowIndex >= 0 && colIndex >= 0 then
        GetValue(rowIndex, colIndex)
      else
        assert rowIndex < rows && colIndex < cols ==>
            Prefix(img, rows, cols, if rowIndex < 0 then 0 else rowIndex + 1,
                   if colIndex < 0 then 0 else colIndex + 1) == 0.0 by {
          if rowIndex < rows && colIndex < cols {
            PrefixZero(img, rows, cols, if rowIndex < 0 then 0 else rowIndex + 1,
                       if colIndex < 0 then 0 else colIndex + 1);
          }
        }
        0.0
    }

    /** The sum over a rectangle, or 0 if it is negative. */
    function GetRectangleSum(rowIndex: int, colIndex: int, width: nat, height: nat): (r: real)
      requires Valid()
      reads this, matrix
      ensures r == NotNegative(ComputedSum(img, rows, cols, rowIndex, colIndex, width, height))
    {
      var w, h := width - 1, height - 1;
      var ltRow := if rowIndex <= rows then rowIndex - 1 else -1;
      var ltCol := if colIndex <= cols then colIndex - 1 else -1;
      var rbRow := if rowIndex + h < rows then rowIndex + h else rows - 1;
      var rbCol := if colIndex + w < cols then colIndex + w else cols - 1;
      var a, b, c, d := Corner(ltRow, ltCol), Corner(ltRow, rbCol), Corner(rbRow, rbCol), Corner(rbRow, ltCol);
      FourCorners(img, rows, cols, Begin(rowIndex, rows), Clip(rowIndex + height, rows),
                  Begin(colIndex, cols), Clip(colIndex + width, cols));
      NotNegative(a + c - b - d)
    }

    /** The right half of a square less its left half. */
    function HaarWaveletX(rowIndex: int, colIndex: int, side: nat): (r: real)
      requires Valid()
      reads this, matrix
      ensures rowIndex <= rows && colIndex + side / 2 <= cols ==>
                r == NotNegative(ClippedSum(img, rows, cols, rowIndex, colIndex + side / 2, side / 2, side))
                     - NotNegative(ClippedSum(img, rows, cols, rowIndex, colIndex, side / 2, side))
    {
      GetRectangleSum(rowIndex, colIndex + side / 2, side / 2, side) -
      GetRectangleSum(rowIndex, colIndex, side / 2, side)
    }

    /** The lower half of a square less its upper half. */
    function HaarWaveletY(rowIndex: int, colIndex: int, side: nat): (r: real)
      requires Valid()
      reads this, matrix
      ensures rowIndex + side / 2 <= rows && colIndex <= cols ==>
                r == NotNegative(ClippedSum(img, rows, cols, rowIndex + side / 2, colIndex, side, side / 2))
                     - NotNegative(ClippedSum(img, rows, cols, rowIndex, colIndex, side, side / 2))
    {
      GetRectangleSum(rowIndex + side / 2, colIndex, side, side / 2) -
      GetRectangleSum(rowIndex, colIndex, side, side / 2)
    }
  }

  /** For a rectangle that begins at most at the end of the image the computed sum is that of its part in the image. */
  lemma WithinIsClipped(img: Image, h: nat, w: nat, row: int, col: int, width: nat, height: nat)
    requires IsImage(img, h, w) && row <= h && col <= w
    ensures ComputedSum(img, h, w, row, col, width, height) == ClippedSum(img, h, w, row, col, width, height)
  {
  }

  ghost predicate AlwaysClipped(h: nat, w: nat, row: int, col: int, width: nat, height: nat) {
    forall img :: IsImage(img, h, w) ==>
      NotNegative(ComputedSum(img, h, w, row, col, width, height)) ==
      NotNegative(ClippedSum(img, h, w, row, col, width, height))
  }

  function Ones(h: nat, w: nat): (img: Image)
    ensures IsImage(img, h, w) && forall i, j :: 0 <= i < h && 0 <= j < w ==> img[i][j] == 1.0
  {
    seq(h, _ => seq(w, _ => 1.0))
  }

  lemma {:induction false} RowOfOnes(row: seq<real>, c0: int, c1: int)
    requires 0 <= c0 <= c1 <= |row| && forall j :: 0 <= j < |row| ==> row[j] == 1.0
    ensures RowSum(row, c0, c1) == (c1 - c0) as real
    decreases c1 - c0
  {
    if c0 < c1 {
      RowOfOnes(row, c0, c1 - 1);
    }
  }

  lemma {:induction false} OnesPositive(h: nat, w: nat, r0: int, r1: int, c0: int, c1: int)
    requires 0 <= r0 <= r1 <= h && 0 <= c0 < c1 <= w
    ensures RectSum(Ones(h, w), h, w, r0, r1, c0, c1) >= (r1 - r0) as real
    decreases r1 - r0
  {
    if r0 < r1 {
      OnesPositive(h, w, r0, r1 - 1, c0, c1);
      RowOfOnes(Ones(h, w)[r1 - 1], c0, c1);
    }
  }

  lemma {:induction false} NoColumns(img: Image, h: nat, w: nat, r0: int, r1: int, c: int)
    requires IsImage(img, h, w) && 0 <= r0 <= r1 <= h && 0 <= c <= w
    ensures RectSum(img, h, w, r0, r1, c, c) == 0.0
    decreases r1 - r0
  {
    if r0 < r1 {
      NoColumns(img, h, w, r0, r1 - 1, c);
    }
  }

  /** A rectangle that begins beyond the image has no part in it. */
  lemma BeyondIsEmpty(img: Image, h: nat, w: nat, row: int, col: int, width: nat, height: nat)
    requires IsImage(img, h, w) && (row > h || col > w)
    ensures ClippedSum(img, h, w, row, col, width, height) == 0.0
  {
    if col > w {
      NoColumns(img, h, w, Clip(row, h), Clip(row + height, h), w);
    }
  }

  lemma NothingIsZero(img: Image, h: nat, w: nat, row: int, col: int, width: nat, height: nat)
    requires IsImage(img, h, w) && NothingComputed(h, w, row, col, width, height)
    ensures ComputedSum(img, h, w, row, col, width, height) == 0.0
  {
    if Begin(col, w) == Clip(col + width, w) {
      NoColumns(img, h, w, Begin(row, h), Clip(row + height, h), Begin(col, w));
    }
  }

  /**
   * The rectangle sum is that of the part in the image, for every image, exactly if the rectangle begins at most at
   * the end of the image in both directions, or if what is summed up instead is empty.
   */
  lemma ClippedExactlyWithin(h: nat, w: nat, row: int, col: int, width: nat, height: nat)
    ensures AlwaysClipped(h, w, row, col, width, height) <==>
            (row <= h && col <= w) || NothingComputed(h, w, row, col, width, height)
  {
    if row <= h && col <= w {
      forall img | IsImage(img, h, w)
        ensures ComputedSum(img, h, w, row, col, width, height) == ClippedSum(img, h, w, row, col, width, height)
      {
        WithinIsClipped(img, h, w, row, col, width, height);
      }
    } else {
      forall img | IsImage(img, h, w)
        ensures ClippedSum(img, h, w, row, col, width, height) == 0.0
        ensures NothingComputed(h, w, row, col, width, height) ==>
                ComputedSum(img, h, w, row, col, width, height) == 0.0
      {
        BeyondIsEmpty(img, h, w, row, col, width, height);
        if NothingComputed(h, w, row, col, width, height) {
          NothingIsZero(img, h, w, row, col, width, height);
        }
      }
      if !NothingComputed(h, w, row, col, width, height) {
        OnesPositive(h, w, Begin(row, h), Clip(row + height, h), Begin(col, w), Clip(col + width, w));
        assert IsImage(Ones(h, w), h, w);
      }
    }
  }

  lemma Borders(img: Image, h: nat, w: nat, i: int, j: int)
    requires IsImage(img, h, w) && 0 <= i < h && 0 <= j < w
    ensures i == 0 ==> Prefix(img, h, w, i, j) == 0.0 && Prefix(img, h, w, i, j + 1) == 0.0
    ensures j == 0 ==> Prefix(img, h, w, i, j) == 0.0 && Prefix(img, h, w, i + 1, j) == 0.0
  {
    if i == 0 {
      PrefixZero(img, h, w, i, j);
      PrefixZero(img, h, w, i, j + 1);
    }
    if j == 0 {
      PrefixZero(img, h, w, i, j);
      PrefixZero(img, h, w, i + 1, j);
    }
  }
}
