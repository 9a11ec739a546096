/**
 * The ImgToAscii class of src/main.cpp: it owns one image, replaces it in
 * place when resizing, converting to grayscale or taking a new frame, and
 * renders it as text with the glyph ramp.
 */
module Render {
  import opened Ramp
  import opened Sgr
  import opened Image
  import opened FrameText

  /**
   * What `getRawAsciiText` returns for a resized colour image: one line per
   * row, and in colour mode one more after the reset token.
   */
  function RenderedText(lib: Library, isColor: bool, m: Mat): (text: string)
    requires m.Color?
    ensures Count(text, '\n') == m.rows + (if isColor then 1 else 0)
  {
    if isColor then
      ColorTextNewlines(m);
      ColorText(m)
    else
      GrayTextNewlines(Grayed(lib, m));
      GrayText(Grayed(lib, m))
  }

  class ImgToAscii {
    /** `img`: the image the object owns, replaced in place. */
    var img: Mat
    /** `img_width`: the requested number of output columns. */
    const imgWidth: int
    /** `isColor`: render with colour tokens rather than bare glyphs. */
    const isColor: bool
    /** The image library the object calls. */
    const lib: Library

    /**
     * `ImgToAscii(cv::Mat mat, isColor, width)`: keeps the settings and the
     * resized image. The source exits on an empty image; callers in this
     * model check for that before constructing.
     */
    constructor (mat: Mat, isColor: bool, width: int, lib: Library)
      requires !IsEmpty(mat) && Resizable(mat, width)
      ensures img == Resized(lib, mat, width)
      ensures this.isColor == isColor && imgWidth == width && this.lib == lib
    {
      this.img := mat;
      this.isColor := isColor;
      this.imgWidth := width;
      this.lib := lib;
      new;
      ResizeImage();
    }

    /** `resize_image`: replace the image by its resize to imgWidth columns and the computed row count. */
    method ResizeImage()
      requires Resizable(img, imgWidth)
      modifies this`img
      ensures img == Resized(lib, old(img), imgWidth)
    {
      var nHeight := ResizedHeight(img.rows, img.cols, imgWidth);
      img := Color(nHeight, imgWidth, lib.resize(img, imgWidth, nHeight));
    }

    /** `updateImg`: take a new frame and resize it. */
    method UpdateImg(mat: Mat)
      requires Resizable(mat, imgWidth)
      modifies this`img
      ensures img == Resized(lib, mat, imgWidth)
    {
      img := mat;
      ResizeImage();
    }

    /** `grayify`: replace the image by its one-channel conversion. */
    method Grayify()
      requires img.Color?
      modifies this`img
      ensures img == Grayed(lib, old(img))
    {
      img := Gray(img.rows, img.cols, lib.toGray(img));
    }

    /**
     * `getAsciiText`: converts the stored image to grayscale (in place) and
     * renders it, one glyph per pixel and '\n' after each row.
     */
    method GetAsciiText() returns (text: string)
      requires img.Color?
      modifies this`img
      ensures img == Grayed(lib, old(img))
      ensures text == GrayText(img)
    {
      Grayify();
      var m := img;
      ghost var lines := GlyphLines(m);
      text := "";
      var i := 0;
      while i < m.rows
        invariant 0 <= i <= m.rows
        invariant img == m
        invariant text == JoinLines(lines[..i])
      {
        var j := 0;
        while j < m.cols
          invariant 0 <= j <= m.cols
          invariant img == m
          invariant text == JoinLines(lines[..i]) + GlyphRow(m, i)[..j]
        {
          var intensity := m.y(i, j);
          var charIndex := RampIndex(intensity);
          GlyphRowStep(m, i, j, JoinLines(lines[..i]));
          text := text + [CharArray[charIndex]];
          j := j + 1;
        }
        GlyphLinesStep(m, i);
        text := text + "\n";
        i := i + 1;
      }
      assert lines[..i] == lines;
    }

    /**
     * `getColoredAsciiText`: renders the stored colour image, one `rgb_fg`
     * token per pixel with the channels in RGB order, '\n' after each row,
     * then the reset token and '\n'. The image is left as it is.
     */
    method GetColoredAsciiText() returns (text: string)
      requires img.Color?
      ensures text == ColorText(img)
    {
      var m := img;
      ghost var grid := TokenGrid(m);
      text := "";
      var i := 0;
      while i < m.rows
        invariant 0 <= i <= m.rows
        invariant text == EncodeRows(grid[..i])
      {
        var j := 0;
        assert TokenRow(m, i)[..0] == [];
        while j < m.cols
          invariant 0 <= j <= m.cols
          invariant text == EncodeRows(grid[..i]) + Encode(TokenRow(m, i)[..j])
        {
          var pixel := m.bgr(i, j);
          var intensity := ColorIntensity(pixel);
          var charIndex := RampIndex(intensity);
          TokenRowStep(m, i, j, EncodeRows(grid[..i]));
          text := text + RgbFg(pixel.r, pixel.g, pixel.b, CharArray[charIndex]);
          j := j + 1;
        }
        TokenGridStep(m, i);
        text := text + "\n";
        i := i + 1;
      }
      assert grid[..i] == grid;
      text := text + Reset + "\n";
    }

    /** `getRawAsciiText`: the colour or the grayscale rendering, by the object's setting. */
    method GetRawAsciiText() returns (text: string)
      requires img.Color?
      modifies this`img
      ensures text == RenderedText(lib, isColor, old(img))
      ensures img == if isColor then old(img) else Grayed(lib, old(img))
    {
      if isColor {
        text := GetColoredAsciiText();
      } else {
        text := GetAsciiText();
      }
    }

    /** `printAscii`: what is written to stdout, the rendering followed by `endl`. */
    method PrintAscii() returns (out: string)
      requires img.Color?
      modifies this`img
      ensures out == RenderedText(lib, isColor, old(img)) + "\n"
      ensures img == if isColor then old(img) else Grayed(lib, old(img))
    {
      var text := GetRawAsciiText();
      out := text + "\n";
    }
  }
}
