/**
 * The glyph ramp (CHAR_ARRAY) and the luminance mapping of src/main.cpp:
 * an intensity in [0, 255] selects a ramp index, bright pixels selecting the
 * dense glyphs at the front of the ramp.
 *
 * The source computes `(size - 1) - int((v / 255.0) * (size - 1))` in double
 * arithmetic; this model computes the same value with exact integers, on the
 * assumption that the double expression truncates to the same integer.
 */
module Ramp {
  /** An 8-bit channel value (uchar in the source). */
  type byte = x: int | 0 <= x < 256

  /** A three-channel pixel as stored by the image library: blue, green, red. */
  datatype Bgr = Bgr(b: byte, g: byte, r: byte)

  /** CHAR_ARRAY: 27 visible glyphs, densest first, then nine blanks (36 entries). */
  const CharArray: seq<char> :=
    ['@', '#', 'W', '$', '9', '8', '7', '6', '5',
     '4', '3', '2', '1', '0', '?', '!', 'a', 'b',
     'c', ';', ':', '+', '=', '-', ',', '.', '_',
     ' ', ' ', ' ', ' ', ' ', ' ', ' ', ' ', ' ']

  /** The last index of the ramp, `size(CHAR_ARRAY) - 1`. */
  const Last: nat := |CharArray| - 1

  /**
   * The ramp index for an intensity: `Last - floor(v * Last / 255)`. The
   * ensures pins the index down as the bucket that contains `v`.
   */
  function RampIndex(v: byte): (k: nat)
    ensures k <= Last
    ensures (Last - k) * 255 <= v * Last < (Last - k + 1) * 255
  {
    Last - (v * Last) / 255
  }

  /** The glyph printed for an intensity. */
  function Glyph(v: byte): (c: char)
    ensures c in CharArray
    ensures c != '\n' && c != '\U{1B}'
  {
    CharArray[RampIndex(v)]
  }

  /**
   * The weighted intensity of a colour pixel, `int(0.114 b + 0.587 g + 0.299 r)`,
   * in per-mille integer weights. It lies between the darkest and the
   * brightest channel, so it is always a valid intensity.
   */
  function ColorIntensity(p: Bgr): (v: byte)
    ensures Min3(p.b, p.g, p.r) <= v <= Max3(p.b, p.g, p.r)
    ensures p.b == p.g == p.r ==> v == p.r
  {
    (114 * p.b + 587 * p.g + 299 * p.r) / 1000
  }

  function Min3(a: int, b: int, c: int): int
  {
    if a <= b && a <= c then a else if b <= c then b else c
  }

  function Max3(a: int, b: int, c: int): int
  {
    if a >= b && a >= c then a else if b >= c then b else c
  }

  /** A brighter pixel never selects a sparser glyph. */
  lemma RampIndexMonotone(v: byte, w: byte)
    requires v <= w
    ensures RampIndex(w) <= RampIndex(v)
  {
  }

  /** The two ends of the ramp: black is blank, white is '@'. */
  lemma RampEnds()
    ensures RampIndex(0) == Last && CharArray[RampIndex(0)] == ' '
    ensures RampIndex(255) == 0 && CharArray[RampIndex(255)] == '@'
  {
  }

  /** The nine blanks at the end of the ramp are reached by the 66 darkest intensities, 0 to 65. */
  lemma {:induction false} BlankGlyphs(v: byte)
    ensures Glyph(v) == ' ' <==> v * Last < 9 * 255
    ensures Glyph(v) == ' ' <==> v <= 65
  {
    var k := RampIndex(v);
    if k >= 27 {
      assert (Last - k) * 255 <= 8 * 255;
    } else {
      assert Glyph(v) != ' ' by { assert CharArray[k] != ' '; }
      assert (Last - k) * 255 >= 9 * 255;
    }
  }
}
