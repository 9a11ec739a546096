/**
 * The text a frame renders to, as values: what `getAsciiText` and
 * `getColoredAsciiText` build, stated row by row, with the layout, newline
 * count and reset-token properties of each and a parser for the colour form.
 */
module FrameText {
  import opened Wrappers
  import opened Ramp
  import opened Sgr
  import opened Image

  /** `std::count(s.begin(), s.end(), c)`. */
  function Count(s: string, c: char): (n: nat)
    ensures n <= |s|
    decreases |s|
  {
    if |s| == 0 then 0 else (if s[0] == c then 1 else 0) + Count(s[1..], c)
  }

  /** Count is the multiplicity of c in s. */
  lemma {:induction false} CountIsMultiplicity(s: string, c: char)
    ensures Count(s, c) == multiset(s)[c]
    decreases |s|
  {
    if |s| > 0 {
      assert s == [s[0]] + s[1..];
      CountIsMultiplicity(s[1..], c);
    }
  }

  /** Counting distributes over concatenation. */
  lemma {:induction false} CountConcat(a: string, b: string, c: char)
    ensures Count(a + b, c) == Count(a, c) + Count(b, c)
    decreases |a|
  {
    if |a| > 0 {
      assert (a + b)[0] == a[0];
      assert (a + b)[1..] == a[1..] + b;
      CountConcat(a[1..], b, c);
    } else {
      assert a + b == b;
    }
  }

  /** A character that does not occur is counted zero times. */
  lemma {:induction false} CountAbsent(s: string, c: char)
    requires forall i :: 0 <= i < |s| ==> s[i] != c
    ensures Count(s, c) == 0
    decreases |s|
  {
    if |s| > 0 {
      CountAbsent(s[1..], c);
    }
  }

  /** Each line followed by '\n', concatenated. */
  function JoinLines(lines: seq<string>): string
  {
    if |lines| == 0 then "" else lines[0] + "\n" + JoinLines(lines[1..])
  }

  /** The glyphs of a grayscale image, one string per row, one glyph per pixel. */
  function GlyphLines(m: Mat): seq<string>
    requires m.Gray?
  {
    seq(m.rows, i requires 0 <= i < m.rows => GlyphRow(m, i))
  }

  /** The glyphs of row i, left to right. */
  function GlyphRow(m: Mat, i: nat): string
    requires m.Gray? && i < m.rows
  {
    seq(m.cols, j requires 0 <= j < m.cols => Glyph(m.y(i, j)))
  }

  /** The grayscale rendering of a one-channel image: R lines of C glyphs, each ended by '\n'. */
  function GrayText(m: Mat): (text: string)
    requires m.Gray?
    ensures |text| == m.rows * (m.cols + 1)
  {
    JoinLinesLength(GlyphLines(m), m.cols);
    JoinLines(GlyphLines(m))
  }

  /** The token of one pixel: its channels reordered to RGB and the glyph of its weighted intensity. */
  function TokenOf(p: Bgr): Fg
  {
    Fg(p.r, p.g, p.b, Glyph(ColorIntensity(p)))
  }

  /** The tokens of a colour image, row-major. */
  function TokenGrid(m: Mat): seq<seq<Fg>>
    requires m.Color?
  {
    seq(m.rows, i requires 0 <= i < m.rows => TokenRow(m, i))
  }

  /** The tokens of row i, left to right. */
  function TokenRow(m: Mat, i: nat): seq<Fg>
    requires m.Color? && i < m.rows
  {
    seq(m.cols, j requires 0 <= j < m.cols => TokenOf(m.bgr(i, j)))
  }

  /** The tokens of one row, concatenated. */
  function Encode(ts: seq<Fg>): string
  {
    if |ts| == 0 then "" else Token(ts[0]) + Encode(ts[1..])
  }

  /** Each row's tokens followed by '\n', concatenated. */
  function EncodeRows(rows: seq<seq<Fg>>): string
  {
    if |rows| == 0 then "" else Encode(rows[0]) + "\n" + EncodeRows(rows[1..])
  }

  /** The colour rendering of a three-channel image: the rows, then the reset token and '\n'. */
  function ColorText(m: Mat): (text: string)
    requires m.Color?
    ensures |text| > |Reset| && text[|text| - |Reset| - 1..] == Reset + "\n"
  {
    EncodeRows(TokenGrid(m)) + Reset + "\n"
  }

  /** The reset token starts at position k of s. */
  predicate ResetAt(s: string, k: int)
  {
    0 <= k && k + |Reset| <= |s| && s[k..k + |Reset|] == Reset
  }

  /** Every escape in s opens a colour token: it is followed by "[3". */
  predicate EscOpensToken(s: string)
  {
    forall k :: 0 <= k < |s| && s[k] == Esc ==> k + 2 < |s| && s[k + 1] == '[' && s[k + 2] == '3'
  }

  // ----- appending one line or one token (the steps of the renderer's loops)

  lemma {:induction false} JoinLinesAppend(lines: seq<string>, l: string)
    ensures JoinLines(lines + [l]) == JoinLines(lines) + l + "\n"
    decreases |lines|
  {
    if |lines| == 0 {
      assert lines + [l] == [l];
    } else {
      assert (lines + [l])[0] == lines[0];
      assert (lines + [l])[1..] == lines[1..] + [l];
      JoinLinesAppend(lines[1..], l);
      var a, b := lines[0] + "\n", JoinLines(lines[1..]);
      Assoc(a, b, l);
      Assoc(a, b + l, "\n");
    }
  }

  /** One pixel of the grayscale renderer's inner loop: the row grows by that pixel's glyph. */
  lemma GlyphRowStep(m: Mat, i: nat, j: nat, done: string)
    requires m.Gray? && i < m.rows && j < m.cols
    ensures done + GlyphRow(m, i)[..j] + [Glyph(m.y(i, j))] == done + GlyphRow(m, i)[..j + 1]
  {
    var row := GlyphRow(m, i);
    assert row[..j + 1] == row[..j] + [Glyph(m.y(i, j))];
  }

  /** The end of a row in the grayscale renderer: the finished row and '\n' extend the lines so far. */
  lemma GlyphLinesStep(m: Mat, i: nat)
    requires m.Gray? && i < m.rows
    ensures JoinLines(GlyphLines(m)[..i]) + GlyphRow(m, i)[..m.cols] + "\n" == JoinLines(GlyphLines(m)[..i + 1])
  {
    var lines := GlyphLines(m);
    assert GlyphRow(m, i)[..m.cols] == lines[i];
    assert lines[..i + 1] == lines[..i] + [lines[i]];
    JoinLinesAppend(lines[..i], lines[i]);
  }

  /** The end of a row in the colour renderer: the finished row and '\n' extend the rows so far. */
  lemma TokenGridStep(m: Mat, i: nat)
    requires m.Color? && i < m.rows
    ensures EncodeRows(TokenGrid(m)[..i]) + Encode(TokenRow(m, i)[..m.cols]) + "\n" == EncodeRows(TokenGrid(m)[..i + 1])
  {
    var grid := TokenGrid(m);
    assert TokenRow(m, i)[..m.cols] == grid[i];
    assert grid[..i + 1] == grid[..i] + [grid[i]];
    EncodeRowsAppend(grid[..i], grid[i]);
  }

  /** One pixel of the colour renderer's inner loop: the row's encoding grows by that pixel's token. */
  lemma TokenRowStep(m: Mat, i: nat, j: nat, done: string)
    requires m.Color? && i < m.rows && j < m.cols
    ensures done + Encode(TokenRow(m, i)[..j]) + Token(TokenOf(m.bgr(i, j)))
         == done + Encode(TokenRow(m, i)[..j + 1])
  {
    var row, tok := TokenRow(m, i), TokenOf(m.bgr(i, j));
    assert row[..j + 1] == row[..j] + [tok];
    EncodeAppend(row[..j], tok);
  }

  lemma {:induction false} EncodeAppend(ts: seq<Fg>, t: Fg)
    ensures Encode(ts + [t]) == Encode(ts) + Token(t)
    decreases |ts|
  {
    if |ts| == 0 {
      assert ts + [t] == [t];
    } else {
      assert (ts + [t])[0] == ts[0];
      assert (ts + [t])[1..] == ts[1..] + [t];
      EncodeAppend(ts[1..], t);
      Assoc(Token(ts[0]), Encode(ts[1..]), Token(t));
    }
  }

  lemma {:induction false} EncodeRowsAppend(rows: seq<seq<Fg>>, row: seq<Fg>)
    ensures EncodeRows(rows + [row]) == EncodeRows(rows) + Encode(row) + "\n"
    decreases |rows|
  {
    if |rows| == 0 {
      assert rows + [row] == [row];
    } else {
      assert (rows + [row])[0] == rows[0];
      assert (rows + [row])[1..] == rows[1..] + [row];
      EncodeRowsAppend(rows[1..], row);
      var a, b, c := Encode(rows[0]) + "\n", EncodeRows(rows[1..]), Encode(row);
      Assoc(a, b, c);
      Assoc(a, b + c, "\n");
    }
  }

  // ----- grayscale layout

  lemma {:induction false} JoinLinesConcat(a: seq<string>, b: seq<string>)
    ensures JoinLines(a + b) == JoinLines(a) + JoinLines(b)
    decreases |a|
  {
    if |a| == 0 {
      assert a + b == b;
    } else {
      assert (a + b)[1..] == a[1..] + b;
      JoinLinesConcat(a[1..], b);
    }
  }

  /** Lines of equal width: the joined text has width + 1 characters per line. */
  lemma {:induction false} JoinLinesLength(ls: seq<string>, width: nat)
    requires forall i :: 0 <= i < |ls| ==> |ls[i]| == width
    ensures |JoinLines(ls)| == |ls| * (width + 1)
    decreases |ls|
  {
    if |ls| > 0 {
      JoinLinesLength(ls[1..], width);
      assert |ls| * (width + 1) == (width + 1) + (|ls| - 1) * (width + 1);
    }
  }

  /** Lines without '\n': the joined text has one '\n' per line. */
  lemma {:induction false} JoinLinesNewlines(ls: seq<string>)
    requires forall i :: 0 <= i < |ls| ==> Count(ls[i], '\n') == 0
    ensures Count(JoinLines(ls), '\n') == |ls|
    decreases |ls|
  {
    if |ls| > 0 {
      CountConcat(ls[0] + "\n", JoinLines(ls[1..]), '\n');
      CountConcat(ls[0], "\n", '\n');
      JoinLinesNewlines(ls[1..]);
    }
  }

  /** Lines of equal width: line i occupies positions i * (width + 1) up to the next line. */
  lemma JoinLinesLine(ls: seq<string>, width: nat, i: nat)
    requires forall k :: 0 <= k < |ls| ==> |ls[k]| == width
    requires i < |ls|
    ensures i * (width + 1) + width + 1 <= |JoinLines(ls)|
    ensures JoinLines(ls)[i * (width + 1)..i * (width + 1) + width + 1] == ls[i] + "\n"
  {
    var before, after := ls[..i], ls[i + 1..];
    assert ls == before + ([ls[i]] + after);
    JoinLinesConcat(before, [ls[i]] + after);
    JoinLinesLength(before, width);
    assert JoinLines([ls[i]] + after) == ls[i] + "\n" + JoinLines(after);
    var s := JoinLines(ls);
    var lo := i * (width + 1);
    assert s == JoinLines(before) + (ls[i] + "\n") + JoinLines(after);
    assert |JoinLines(before)| == lo;
  }

  /** The grayscale text of an R-row image holds exactly R newlines. */
  lemma GrayTextNewlines(m: Mat)
    requires m.Gray?
    ensures Count(GrayText(m), '\n') == m.rows
  {
    var ls := GlyphLines(m);
    forall i | 0 <= i < |ls|
      ensures Count(ls[i], '\n') == 0
    {
      GlyphLineHasNoNewline(m, i);
    }
    JoinLinesNewlines(ls);
  }

  /** Line i of the grayscale text is the C glyphs of row i, left to right, then '\n'. */
  lemma GrayTextLine(m: Mat, i: nat)
    requires m.Gray? && i < m.rows
    ensures i * (m.cols + 1) + m.cols + 1 <= |GrayText(m)|
    ensures GrayText(m)[i * (m.cols + 1)..i * (m.cols + 1) + m.cols + 1] == GlyphLines(m)[i] + "\n"
  {
    JoinLinesLine(GlyphLines(m), m.cols, i);
  }

  lemma GlyphLineHasNoNewline(m: Mat, i: nat)
    requires m.Gray? && i < m.rows
    ensures Count(GlyphLines(m)[i], '\n') == 0
  {
    var line := GlyphLines(m)[i];
    forall j | 0 <= j < |line|
      ensures line[j] != '\n'
    {
      assert line[j] == Glyph(m.y(i, j));
    }
    CountAbsent(line, '\n');
  }

  /** Pixel (i, j) of a grayscale image is the glyph at column j of line i. */
  lemma GrayTextPixel(m: Mat, i: nat, j: nat)
    requires m.Gray? && i < m.rows && j < m.cols
    ensures i * (m.cols + 1) + j < |GrayText(m)|
    ensures GrayText(m)[i * (m.cols + 1) + j] == Glyph(m.y(i, j))
  {
    var ls := GlyphLines(m);
    JoinLinesLine(ls, m.cols, i);
    var lo := i * (m.cols + 1);
    SliceIndex(GrayText(m), lo, lo + m.cols + 1, j);
    assert (ls[i] + "\n")[j] == ls[i][j] == Glyph(m.y(i, j));
  }

  lemma SliceIndex(s: string, lo: nat, hi: nat, j: nat)
    requires lo <= hi <= |s| && j < hi - lo
    ensures lo + j < |s| && s[lo + j] == s[lo..hi][j]
  {
  }

  /** A single pixel of intensity 128 renders as "c\n". */
  lemma OnePixelExample(m: Mat)
    requires m.Gray? && m.rows == 1 && m.cols == 1 && m.y(0, 0) == 128
    ensures GrayText(m) == "c\n"
  {
    assert RampIndex(128) == 18;
    assert Glyph(m.y(0, 0)) == 'c';
    assert GlyphLines(m)[0] == "c";
    assert GlyphLines(m) == ["c"];
    assert JoinLines(["c"]) == "c" + "\n" + JoinLines([]);
  }

  // ----- colour layout

  lemma {:induction false} EncodeHasNoNewline(ts: seq<Fg>)
    requires forall i :: 0 <= i < |ts| ==> ts[i].glyph != '\n'
    ensures Count(Encode(ts), '\n') == 0
    decreases |ts|
  {
    if |ts| > 0 {
      var s := Token(ts[0]);
      assert s[|s| - 1] == ts[0].glyph;
      CountAbsent(s, '\n');
      CountConcat(s, Encode(ts[1..]), '\n');
      EncodeHasNoNewline(ts[1..]);
    }
  }

  lemma {:induction false} EncodeRowsNewlines(rows: seq<seq<Fg>>)
    requires forall i, j :: 0 <= i < |rows| && 0 <= j < |rows[i]| ==> rows[i][j].glyph != '\n'
    ensures Count(EncodeRows(rows), '\n') == |rows|
    decreases |rows|
  {
    if |rows| > 0 {
      EncodeHasNoNewline(rows[0]);
      CountConcat(Encode(rows[0]) + "\n", EncodeRows(rows[1..]), '\n');
      CountConcat(Encode(rows[0]), "\n", '\n');
      EncodeRowsNewlines(rows[1..]);
    }
  }

  lemma TokenGridGlyphs(m: Mat)
    requires m.Color?
    ensures forall i, j :: 0 <= i < |TokenGrid(m)| && 0 <= j < |TokenGrid(m)[i]| ==>
      TokenGrid(m)[i][j].glyph != '\n' && TokenGrid(m)[i][j].glyph != Esc
  {
    forall i, j | 0 <= i < |TokenGrid(m)| && 0 <= j < |TokenGrid(m)[i]|
      ensures TokenGrid(m)[i][j].glyph != '\n' && TokenGrid(m)[i][j].glyph != Esc
    {
      assert TokenGrid(m)[i][j] == TokenOf(m.bgr(i, j));
    }
  }

  /** The colour text of an R-row image holds R + 1 newlines: one per row and one after the reset. */
  lemma ColorTextNewlines(m: Mat)
    requires m.Color?
    ensures Count(ColorText(m), '\n') == m.rows + 1
  {
    TokenGridGlyphs(m);
    EncodeRowsNewlines(TokenGrid(m));
    CountAbsent(Reset, '\n');
    CountConcat(EncodeRows(TokenGrid(m)) + Reset, "\n", '\n');
    CountConcat(EncodeRows(TokenGrid(m)), Reset, '\n');
  }

  lemma TokenOpensToken(t: Fg)
    requires t.glyph != Esc
    ensures EscOpensToken(Token(t))
  {
    var s := Token(t);
    assert s[..|FgPrefix|] == FgPrefix;
    assert s[1] == '[' && s[2] == '3';
  }

  lemma EscOpensTokenConcat(a: string, b: string)
    requires EscOpensToken(a) && EscOpensToken(b)
    ensures EscOpensToken(a + b)
  {
    var s := a + b;
    forall k | 0 <= k < |s| && s[k] == Esc
      ensures k + 2 < |s| && s[k + 1] == '[' && s[k + 2] == '3'
    {
      if k < |a| {
        assert a[k] == Esc;
      } else {
        assert b[k - |a|] == Esc;
      }
    }
  }

  lemma {:induction false} EncodeOpensTokens(ts: seq<Fg>)
    requires forall i :: 0 <= i < |ts| ==> ts[i].glyph != Esc
    ensures EscOpensToken(Encode(ts))
    decreases |ts|
  {
    if |ts| > 0 {
      TokenOpensToken(ts[0]);
      EncodeOpensTokens(ts[1..]);
      EscOpensTokenConcat(Token(ts[0]), Encode(ts[1..]));
    }
  }

  lemma {:induction false} EncodeRowsOpensTokens(rows: seq<seq<Fg>>)
    requires forall i, j :: 0 <= i < |rows| && 0 <= j < |rows[i]| ==> rows[i][j].glyph != Esc
    ensures EscOpensToken(EncodeRows(rows))
    decreases |rows|
  {
    if |rows| > 0 {
      EncodeOpensTokens(rows[0]);
      EncodeRowsOpensTokens(rows[1..]);
      EscOpensTokenConcat(Encode(rows[0]), "\n");
      EscOpensTokenConcat(Encode(rows[0]) + "\n", EncodeRows(rows[1..]));
    }
  }

  /**
   * The reset token occurs exactly once in a colour rendering: as the last
   * thing before the final '\n'.
   */
  lemma ResetOnce(m: Mat)
    requires m.Color?
    ensures forall k :: ResetAt(ColorText(m), k) <==> k == |ColorText(m)| - |Reset| - 1
  {
    var body := EncodeRows(TokenGrid(m));
    var s := ColorText(m);
    TokenGridGlyphs(m);
    EncodeRowsOpensTokens(TokenGrid(m));
    assert s == body + (Reset + "\n");
    assert ResetAt(s, |body|) by {
      assert s[|body|..|body| + |Reset|] == Reset;
    }
    forall k | ResetAt(s, k)
      ensures k == |body|
    {
      assert s[k] == Esc by { assert s[k..k + |Reset|][0] == Reset[0]; }
      assert s[k + 2] == '0' by { assert s[k..k + |Reset|][2] == Reset[2]; }
      if k != |body| {
        assert false;
      }
    }
  }

  // ----- reading a colour rendering back

  /** Reads the tokens of one row up to its '\n'; the tokens and the rest after '\n'. */
  function ParseRow(s: string): (r: Option<(seq<Fg>, string)>)
    ensures r.Some? ==> |r.value.1| < |s|
    decreases |s|
  {
    if |s| == 0 then None
    else if s[0] == '\n' then Some(([], s[1..]))
    else
      match ParseRgbFg(s)
      case None => None
      case Some((t, rest)) =>
        match ParseRow(rest)
        case None => None
        case Some((ts, rest')) => Some(([t] + ts, rest'))
  }

  /** Reads the rows of a colour rendering up to the closing reset and '\n'. */
  function ParseColorText(s: string): Option<seq<seq<Fg>>>
    decreases |s|
  {
    if s == Reset + "\n" then Some([])
    else
      match ParseRow(s)
      case None => None
      case Some((row, rest)) =>
        match ParseColorText(rest)
        case None => None
        case Some(rows) => Some([row] + rows)
  }

  lemma {:induction false} ParseRowRoundTrip(ts: seq<Fg>, tail: string)
    ensures ParseRow(Encode(ts) + "\n" + tail) == Some((ts, tail))
    decreases |ts|
  {
    if |ts| == 0 {
      assert Encode(ts) + "\n" + tail == "\n" + tail;
    } else {
      var t := ts[0];
      var rest := Encode(ts[1..]) + "\n" + tail;
      assert Encode(ts) + "\n" + tail == Token(t) + rest;
      ParseRgbFgRoundTrip(t.r, t.g, t.b, t.glyph, rest);
      assert (Token(t) + rest)[0] == Esc;
      ParseRowRoundTrip(ts[1..], tail);
      assert [t] + ts[1..] == ts;
    }
  }

  /** An encoded row is never mistaken for the closing reset: it starts with '\n' or with a colour token. */
  lemma RowIsNotReset(row: seq<Fg>, rest: string)
    ensures Encode(row) + "\n" + rest != Reset + "\n"
  {
    var s := Encode(row) + "\n" + rest;
    if |row| == 0 {
      assert s[0] == '\n';
    } else {
      assert Encode(row) == Token(row[0]) + Encode(row[1..]);
      assert s[2] == Token(row[0])[2] == '3';
    }
  }

  lemma ParseColorTextCons(s: string, row: seq<Fg>, rest: string, rows: seq<seq<Fg>>)
    requires s != Reset + "\n" && ParseRow(s) == Some((row, rest)) && ParseColorText(rest) == Some(rows)
    ensures ParseColorText(s) == Some([row] + rows)
  {
  }

  lemma FirstRowThenRest(rows: seq<seq<Fg>>)
    requires |rows| > 0
    ensures EncodeRows(rows) + Reset + "\n" == Encode(rows[0]) + "\n" + (EncodeRows(rows[1..]) + Reset + "\n")
  {
    var a, b := Encode(rows[0]) + "\n", EncodeRows(rows[1..]);
    assert EncodeRows(rows) == a + b;
    Assoc(a, b, Reset);
    Assoc(a, b + Reset, "\n");
  }

  lemma Assoc(a: string, b: string, c: string)
    ensures (a + b) + c == a + (b + c)
  {
  }

  /**
   * Reading a colour rendering back gives its token grid: R rows of C tokens,
   * row-major, each carrying the pixel's (red, green, blue) and its glyph.
   */
  lemma {:induction false} ParseColorTextRoundTrip(rows: seq<seq<Fg>>)
    ensures ParseColorText(EncodeRows(rows) + Reset + "\n") == Some(rows)
    decreases |rows|
  {
    var s := EncodeRows(rows) + Reset + "\n";
    if |rows| == 0 {
      assert s == Reset + "\n";
    } else {
      var rest := EncodeRows(rows[1..]) + Reset + "\n";
      FirstRowThenRest(rows);
      RowIsNotReset(rows[0], rest);
      ParseRowRoundTrip(rows[0], rest);
      ParseColorTextRoundTrip(rows[1..]);
      ParseColorTextCons(s, rows[0], rest, rows[1..]);
      assert [rows[0]] + rows[1..] == rows;
    }
  }

  /** Hence the colour rendering of an image reads back as its tokens. */
  lemma ColorTextRoundTrip(m: Mat)
    requires m.Color?
    ensures ParseColorText(ColorText(m)) == Some(TokenGrid(m))
    ensures |TokenGrid(m)| == m.rows
    ensures forall i :: 0 <= i < m.rows ==> |TokenGrid(m)[i]| == m.cols
    ensures forall i, j :: 0 <= i < m.rows && 0 <= j < m.cols ==>
      var p := m.bgr(i, j);
      TokenGrid(m)[i][j] == Fg(p.r, p.g, p.b, Glyph(ColorIntensity(p)))
  {
    ParseColorTextRoundTrip(TokenGrid(m));
  }
}
