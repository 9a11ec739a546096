/**
 * Pixel grids and the image library the renderer delegates to.
 *
 * A Mat is rectangular by construction: its dimensions and a pixel for every
 * (row, column). The library's resize and grayscale conversion are given as
 * function values; the model decides the dimensions of their results, the
 * library only the pixel values.
 */
module Image {
  import opened Ramp

  /** A decoded or captured image: three channels (BGR) or, after grayify, one. */
  datatype Mat =
    | Color(rows: nat, cols: nat, bgr: (nat, nat) -> Bgr)
    | Gray(rows: nat, cols: nat, y: (nat, nat) -> byte)

  /** `Mat::empty()`: no pixels at all. */
  predicate IsEmpty(m: Mat): (e: bool)
    ensures e <==> m.rows * m.cols == 0
  {
    m.rows == 0 || m.cols == 0
  }

  /**
   * The image library: `cv::resize(src, Size(width, height))` and
   * `cv::cvtColor(src, COLOR_BGR2GRAY)`, pixel values only.
   */
  datatype Library = Library(
    resize: (Mat, nat, nat) -> (nat, nat) -> Bgr,
    toGray: Mat -> (nat, nat) -> byte)

  /**
   * The row count `resize_image` asks for: `int((rows / cols) / 1.65 * width)`,
   * modelled by `(rows * width * 100) / (cols * 165)`. The ensures is the
   * truncation: the largest h with h * 1.65 * cols <= rows * width.
   */
  function ResizedHeight(rows: nat, cols: nat, width: nat): (h: nat)
    requires cols > 0
    ensures h * (cols * 165) <= rows * width * 100 < (h + 1) * (cols * 165)
  {
    (rows * width * 100) / (cols * 165)
  }

  /** What `cv::resize` is asked for by `resize_image`: width and height both positive. */
  predicate Resizable(m: Mat, width: int)
  {
    m.Color? && m.cols > 0 && width > 0 && ResizedHeight(m.rows, m.cols, width) > 0
  }

  /** The image `resize_image` stores: `width` columns, the computed row count. */
  function Resized(lib: Library, m: Mat, width: int): (r: Mat)
    requires Resizable(m, width)
    ensures r.Color? && !IsEmpty(r)
    ensures r.cols == width && r.rows == ResizedHeight(m.rows, m.cols, width)
  {
    var h := ResizedHeight(m.rows, m.cols, width);
    Color(h, width, lib.resize(m, width, h))
  }

  /** The image `grayify` stores: one channel, same dimensions. */
  function Grayed(lib: Library, m: Mat): (r: Mat)
    requires m.Color?
    ensures r.Gray? && r.rows == m.rows && r.cols == m.cols
  {
    Gray(m.rows, m.cols, lib.toGray(m))
  }

  /**
   * A source whose rows:cols ratio is exactly 1.65 maps to as many rows as
   * columns: a glyph cell is 1.65 times as tall as it is wide.
   */
  lemma {:induction false} SquareSourceGivesSquareGrid(rows: nat, cols: nat, width: nat)
    requires cols > 0 && rows * 100 == cols * 165
    ensures ResizedHeight(rows, cols, width) == width
  {
    var h := ResizedHeight(rows, cols, width);
    assert rows * width * 100 == width * (cols * 165) by {
      calc {
        rows * width * 100;
        == (rows * 100) * width;
        == (cols * 165) * width;
      }
    }
  }

  /** A 165-row by 100-column source rendered 100 columns wide has 100 rows. */
  lemma ResizeExample()
    ensures ResizedHeight(165, 100, 100) == 100
  {
    SquareSourceGivesSquareGrid(165, 100, 100);
  }

  /** Widening the output never shortens it. */
  lemma {:induction false} ResizedHeightMonotone(rows: nat, cols: nat, w1: nat, w2: nat)
    requires cols > 0 && w1 <= w2
    ensures ResizedHeight(rows, cols, w1) <= ResizedHeight(rows, cols, w2)
  {
    assert rows * w1 * 100 <= rows * w2 * 100 by {
      assert rows * w2 * 100 - rows * w1 * 100 == rows * (w2 - w1) * 100;
    }
    DivMonotone(rows * w1 * 100, rows * w2 * 100, cols * 165);
  }

  lemma DivMonotone(x: nat, y: nat, d: nat)
    requires x <= y && d > 0
    ensures x / d <= y / d
  {
    var qx, qy := x / d, y / d;
    assert qx * d + x % d == x;
    assert qy * d + y % d == y;
    assert (qx - qy) * d < d;
    if qx - qy >= 1 {
      assert false;
    }
  }
}
