/**
 * The terminal control sequences the renderer emits: the direct-colour
 * foreground token of `rgb_fg` (SGR 38;2;r;g;b, section 8.3.117 of ECMA-48
 * with the direct-colour parameters of ITU-T T.416), the SGR reset, the
 * cursor-up sequence (CUU, section 8.3.22 of ECMA-48) and the screen clear.
 * Each encoder is paired with a parser that reads the sequence back.
 */
module Sgr {
  import opened Wrappers
  import opened Ramp
  import opened Decimal

  const Esc: char := '\U{1B}'

  /** The text of `rgb_fg` before its first decimal field. */
  const FgPrefix: string := "\U{1B}[38;2;"

  /** The `reset` constant: SGR 0, default rendition. */
  const Reset: string := "\U{1B}[0m"

  /** `\033[2J\033[H`: erase the display, cursor home. */
  const ClearScreen: string := "\U{1B}[2J\U{1B}[H"

  /** One coloured glyph: the RGB triple of its escape sequence and the glyph itself. */
  datatype Fg = Fg(r: byte, g: byte, b: byte, glyph: char)

  /**
   * `rgb_fg(r, g, b, c)`: the direct-colour foreground sequence followed by
   * the glyph.
   */
  function RgbFg(r: byte, g: byte, b: byte, c: char): (s: string)
    ensures |s| > |FgPrefix| + 5 && s[..|FgPrefix|] == FgPrefix
    ensures s[|s| - 1] == c
    ensures forall i :: 0 <= i < |s| - 1 ==> s[i] != '\n'
    ensures forall i :: 0 < i < |s| - 1 ==> s[i] != Esc
  {
    FgPrefix + Dec(r) + ";" + Dec(g) + ";" + Dec(b) + "m" + [c]
  }

  function Token(t: Fg): string
  {
    RgbFg(t.r, t.g, t.b, t.glyph)
  }

  /** `\033[nA`: move the cursor up n lines. */
  function CursorUp(n: nat): (s: string)
    ensures |s| >= 3 && s[..2] == "\U{1B}[" && s[|s| - 1] == 'A'
  {
    "\U{1B}[" + Dec(n) + "A"
  }

  /** A decimal field in [0, 255] at the head of s, ended by `sep`; the value and the rest after `sep`. */
  function ParseField(s: string, sep: char): (r: Option<(byte, string)>)
    ensures r.Some? ==> |r.value.1| < |s|
  {
    var k := DigitSpan(s);
    if k == 0 || k >= |s| || s[k] != sep || Value(s[..k]) > 255 then None
    else Some((Value(s[..k]) as byte, s[k + 1..]))
  }

  /** Reads one `rgb_fg` token at the head of s; the token and the rest of s. */
  function ParseRgbFg(s: string): (r: Option<(Fg, string)>)
    ensures r.Some? ==> |r.value.1| < |s|
  {
    if |s| < |FgPrefix| || s[..|FgPrefix|] != FgPrefix then None
    else
      match ParseField(s[|FgPrefix|..], ';')
      case None => None
      case Some((r, s1)) =>
        match ParseField(s1, ';')
        case None => None
        case Some((g, s2)) =>
          match ParseField(s2, 'm')
          case None => None
          case Some((b, s3)) =>
            if |s3| == 0 then None else Some((Fg(r, g, b, s3[0]), s3[1..]))
  }

  /** Reads back the cursor-up count of `\033[nA`. */
  function ParseCursorUp(s: string): (r: Option<nat>)
  {
    if |s| < 3 || s[..2] != "\U{1B}[" || s[|s| - 1] != 'A' then None
    else
      var digits := s[2..|s| - 1];
      if DigitSpan(digits) != |digits| || |digits| == 0 then None
      else Some(Value(digits))
  }

  lemma {:induction false} ParseFieldOfDec(n: byte, sep: char, t: string)
    requires !IsDigit(sep)
    ensures ParseField(Dec(n) + [sep] + t, sep) == Some((n, t))
  {
    var s := Dec(n) + [sep] + t;
    assert s == Dec(n) + ([sep] + t);
    DigitSpanOfDec(n, [sep] + t);
    assert s[..|Dec(n)|] == Dec(n);
    ValueOfDec(n);
    assert s[|Dec(n)| + 1..] == t;
  }

  /** The three decimal fields and the glyph of an `rgb_fg` token read back exactly. */
  lemma {:induction false} ParseRgbFgRoundTrip(r: byte, g: byte, b: byte, c: char, t: string)
    ensures ParseRgbFg(RgbFg(r, g, b, c) + t) == Some((Fg(r, g, b, c), t))
  {
    var s := RgbFg(r, g, b, c) + t;
    var tail := [c] + t;
    var s3 := Dec(b) + "m" + tail;
    var s2 := Dec(g) + ";" + s3;
    var s1 := Dec(r) + ";" + s2;
    assert s == FgPrefix + s1;
    assert s[..|FgPrefix|] == FgPrefix;
    assert s[|FgPrefix|..] == s1;
    ParseFieldOfDec(r, ';', s2);
    ParseFieldOfDec(g, ';', s3);
    ParseFieldOfDec(b, 'm', tail);
  }

  /** The cursor-up count reads back exactly. */
  lemma {:induction false} ParseCursorUpRoundTrip(n: nat)
    ensures ParseCursorUp(CursorUp(n)) == Some(n)
  {
    var s := CursorUp(n);
    assert s[2..|s| - 1] == Dec(n);
    DigitSpanOfDec(n, []);
    assert Dec(n) + [] == Dec(n);
    ValueOfDec(n);
  }
}
