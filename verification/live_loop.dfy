/**
 * The live branch of `main`: capture a first frame, build the renderer,
 * switch the terminal to raw mode, then poll-capture-draw until a quit key
 * or an empty frame, and restore the terminal.
 *
 * The keyboard and the camera are an event script: for each iteration, the
 * byte `read` returned if `poll` reported input (None otherwise), and the
 * frame `VideoCapture::read` delivers. Standard output is the sequence of
 * strings written to it.
 */
module LiveLoop {
  import opened Wrappers
  import opened Sgr
  import opened Image
  import opened FrameText
  import opened Render
  import opened RawMode
  import opened Args

  /** One iteration's inputs: the key read after a successful poll, and the captured frame. */
  datatype Event = Event(key: Option<char>, frame: Mat)

  /** A 'q' or 'Q' was read: the loop breaks before capturing. */
  predicate IsQuit(e: Event)
  {
    e.key == Some('q') || e.key == Some('Q')
  }

  /** The iteration ends the loop: a quit key, or else an empty frame. */
  predicate Stops(e: Event)
  {
    IsQuit(e) || IsEmpty(e.frame)
  }

  /**
   * A script the loop runs to completion: some event stops the loop, and
   * every frame drawn before it can be resized to the configured width.
   */
  predicate Runs(script: seq<Event>, width: int)
    decreases |script|
  {
    |script| > 0 && (Stops(script[0]) || (Resizable(script[0].frame, width) && Runs(script[1..], width)))
  }

  /** What one iteration writes: the cursor moved up by the frame's own newline count, then the frame. */
  function Draw(text: string): (d: string)
    ensures |d| > |text| + 2 && d[..2] == "\U{1B}[" && d[|d| - |text| - 1] == 'A' && d[|d| - |text|..] == text
  {
    CursorUp(Count(text, '\n')) + text
  }

  /** The text rendered for a captured frame. */
  function FrameTextOf(lib: Library, isColor: bool, width: int, frame: Mat): string
    requires Resizable(frame, width)
  {
    RenderedText(lib, isColor, Resized(lib, frame, width))
  }

  /**
   * The draws of a script: one per iteration until the first stopping event.
   * The stopping event itself draws nothing, so there are fewer draws than events.
   */
  function Draws(lib: Library, isColor: bool, width: int, script: seq<Event>): (ds: seq<string>)
    requires Runs(script, width)
    ensures |ds| < |script|
    decreases |script|
  {
    if Stops(script[0]) then []
    else [Draw(FrameTextOf(lib, isColor, width, script[0].frame))] + Draws(lib, isColor, width, script[1..])
  }

  /**
   * The image the renderer holds after drawing a frame: `updateImg` stores the
   * resized frame, and the grayscale renderer grays it in place.
   */
  function Shown(lib: Library, isColor: bool, width: int, frame: Mat): (m: Mat)
    requires Resizable(frame, width)
    ensures m.cols == width && m.rows == ResizedHeight(frame.rows, frame.cols, width)
    ensures m.Color? <==> isColor
  {
    var r := Resized(lib, frame, width);
    if isColor then r else Grayed(lib, r)
  }

  /** The image the renderer holds once a script has run: that of the last frame drawn, else `current`. */
  function LastShown(lib: Library, isColor: bool, width: int, script: seq<Event>, current: Mat): Mat
    requires Runs(script, width)
    decreases |script|
  {
    if Stops(script[0]) then current
    else LastShown(lib, isColor, width, script[1..], Shown(lib, isColor, width, script[0].frame))
  }

  /** A run that draws nothing leaves the renderer's image alone; one that draws leaves the last frame's. */
  lemma {:induction false} LastShownIsLastDrawn(lib: Library, isColor: bool, width: int, script: seq<Event>, current: Mat)
    requires Runs(script, width)
    ensures |Draws(lib, isColor, width, script)| == 0 ==> LastShown(lib, isColor, width, script, current) == current
    ensures |Draws(lib, isColor, width, script)| > 0 ==>
      var n := |Draws(lib, isColor, width, script)|;
      Resizable(script[n - 1].frame, width) &&
      LastShown(lib, isColor, width, script, current) == Shown(lib, isColor, width, script[n - 1].frame)
    decreases |script|
  {
    if !Stops(script[0]) {
      var rest := script[1..];
      var shown := Shown(lib, isColor, width, script[0].frame);
      LastShownIsLastDrawn(lib, isColor, width, rest, shown);
      assert LastShown(lib, isColor, width, script, current) == LastShown(lib, isColor, width, rest, shown);
      var n := |Draws(lib, isColor, width, rest)|;
      assert |Draws(lib, isColor, width, script)| == n + 1;
      if n > 0 {
        assert script[n] == rest[n - 1];
      }
    }
  }

  /** An iteration that draws: the draws still to come lose their head, which joins those done. */
  lemma DrawsStep(lib: Library, isColor: bool, width: int, script: seq<Event>, k: nat, done: seq<string>, all: seq<string>)
    requires k < |script| && Runs(script[k..], width) && !Stops(script[k])
    requires all == done + Draws(lib, isColor, width, script[k..])
    ensures Resizable(script[k].frame, width) && Runs(script[k + 1..], width)
    ensures all == (done + [Draw(FrameTextOf(lib, isColor, width, script[k].frame))]) + Draws(lib, isColor, width, script[k + 1..])
  {
    var rest := script[k..];
    assert rest[0] == script[k];
    assert rest[1..] == script[k + 1..];
    var d, later := Draw(FrameTextOf(lib, isColor, width, script[k].frame)), Draws(lib, isColor, width, script[k + 1..]);
    assert Draws(lib, isColor, width, rest) == [d] + later;
    assert done + ([d] + later) == (done + [d]) + later;
  }

  /** An iteration that stops: nothing is left to draw. */
  lemma DrawsStop(lib: Library, isColor: bool, width: int, script: seq<Event>, k: nat, done: seq<string>, all: seq<string>)
    requires k < |script| && Runs(script[k..], width) && Stops(script[k])
    requires all == done + Draws(lib, isColor, width, script[k..])
    ensures all == done
  {
    assert script[k..][0] == script[k];
    assert done + [] == done;
  }

  /** The renderer's final image, one iteration on: after a draw, after a stop. */
  lemma LastShownStep(lib: Library, isColor: bool, width: int, script: seq<Event>, k: nat, current: Mat)
    requires k < |script| && Runs(script[k..], width)
    ensures Stops(script[k]) ==> LastShown(lib, isColor, width, script[k..], current) == current
    ensures !Stops(script[k]) ==>
      Resizable(script[k].frame, width) && Runs(script[k + 1..], width) &&
      LastShown(lib, isColor, width, script[k..], current)
        == LastShown(lib, isColor, width, script[k + 1..], Shown(lib, isColor, width, script[k].frame))
  {
    assert script[k..][0] == script[k];
    assert script[k..][1..] == script[k + 1..];
  }

  /** How the live branch of `main` ends. */
  datatype ExitStatus = ExitSuccess | ExitFailure

  /**
   * One drawing iteration (src/main.cpp:281-287): resize the captured frame
   * into the renderer, render it, and prefix the cursor-up sequence for the
   * rendered text's own newline count.
   */
  method DrawFrame(itva: ImgToAscii, frame: Mat) returns (drawn: string)
    requires Resizable(frame, itva.imgWidth)
    modifies itva`img
    ensures drawn == Draw(FrameTextOf(itva.lib, itva.isColor, itva.imgWidth, frame))
    ensures itva.img == Shown(itva.lib, itva.isColor, itva.imgWidth, frame)
  {
    itva.UpdateImg(frame);
    var ascii := itva.GetRawAsciiText();
    var linesToClear := Count(ascii, '\n');
    drawn := CursorUp(linesToClear) + ascii;
  }

  /**
   * The `while (true)` loop of the live branch (src/main.cpp:268-288): each
   * iteration polls the keyboard, breaks on 'q' or 'Q', captures a frame,
   * breaks on an empty one, and otherwise renders it and writes it after a
   * cursor-up sequence of the frame's own newline count.
   */
  method DrawLoop(itva: ImgToAscii, script: seq<Event>) returns (out: seq<string>)
    requires Runs(script, itva.imgWidth)
    modifies itva`img
    ensures out == Draws(itva.lib, itva.isColor, itva.imgWidth, script)
    ensures itva.img == LastShown(itva.lib, itva.isColor, itva.imgWidth, script, old(itva.img))
  {
    ghost var lib, isColor, width := itva.lib, itva.isColor, itva.imgWidth;
    ghost var all := Draws(lib, isColor, width, script);
    ghost var final := LastShown(lib, isColor, width, script, itva.img);
    out := [];
    var k := 0;
    assert script[k..] == script;
    assert all == out + Draws(lib, isColor, width, script[k..]);
    while true
      invariant 0 <= k <= |script|
      invariant Runs(script[k..], width)
      invariant all == out + Draws(lib, isColor, width, script[k..])
      invariant final == LastShown(lib, isColor, width, script[k..], itva.img)
      decreases |script| - k
    {
      var e := script[k];
      LastShownStep(lib, isColor, width, script, k, itva.img);
      if e.key.Some? && (e.key.value == 'q' || e.key.value == 'Q') {
        DrawsStop(lib, isColor, width, script, k, out, all);
        break;
      }
      var frame := e.frame;
      if IsEmpty(frame) {
        DrawsStop(lib, isColor, width, script, k, out, all);
        break;
      }
      DrawsStep(lib, isColor, width, script, k, out, all);
      var drawn := DrawFrame(itva, frame);
      out := out + [drawn];
      k := k + 1;
    }
  }

  /**
   * The live branch of `main` (src/main.cpp:251-294). An empty first frame
   * makes the ImgToAscii constructor exit before raw mode is touched;
   * otherwise the loop draws each frame, and raw mode is disabled after the
   * loop, whichever way it ended.
   */
  method RunLive(config: OptionConfig, lib: Library, first: Mat, script: seq<Event>, tty: Tty, raw: RawModeState)
    returns (out: seq<string>, status: ExitStatus)
    requires !IsEmpty(first) ==> Resizable(first, config.width) && Runs(script, config.width)
    modifies tty, raw
    ensures IsEmpty(first) ==> status == ExitFailure && out == [ClearScreen]
    ensures !IsEmpty(first) ==> status == ExitSuccess
    ensures !IsEmpty(first) ==>
      out == [ClearScreen] + Draws(lib, !config.noColor, config.width, script) + [ClearScreen]
    ensures tty.attrs == old(tty.attrs)
    ensures IsEmpty(first) ==> raw.oldt == old(raw.oldt) && raw.newt == old(raw.newt)
    ensures !IsEmpty(first) ==> raw.oldt == old(tty.attrs) && raw.newt == RawAttrs(old(tty.attrs))
  {
    out := [ClearScreen];
    if IsEmpty(first) {
      return out, ExitFailure;
    }
    var itva := new ImgToAscii(first, !config.noColor, config.width, lib);
    raw.SetRawMode(true, tty);
    var drawn := DrawLoop(itva, script);
    raw.SetRawMode(false, tty);
    out := out + drawn + [ClearScreen];
    return out, ExitSuccess;
  }

  /**
   * A camera that yields N frames and then an empty one, with no quit key
   * pressed, is drawn exactly N times, frame by frame, in order.
   */
  lemma {:induction false} DrawsUntilEmptyFrame(lib: Library, isColor: bool, width: int, script: seq<Event>, n: nat)
    requires n < |script|
    requires forall i :: 0 <= i < n ==> !IsQuit(script[i]) && Resizable(script[i].frame, width)
    requires !IsQuit(script[n]) && IsEmpty(script[n].frame)
    ensures Runs(script, width)
    ensures |Draws(lib, isColor, width, script)| == n
    ensures forall i :: 0 <= i < n ==>
      Draws(lib, isColor, width, script)[i] == Draw(FrameTextOf(lib, isColor, width, script[i].frame))
    decreases n
  {
    if n > 0 {
      assert !IsEmpty(script[0].frame);
      DrawsUntilEmptyFrame(lib, isColor, width, script[1..], n - 1);
    }
  }

  /** A quit key ends the loop before that iteration's frame is captured, even a non-empty one. */
  lemma {:induction false} QuitBeforeCapture(lib: Library, isColor: bool, width: int, script: seq<Event>, n: nat)
    requires n < |script|
    requires forall i :: 0 <= i < n ==> !Stops(script[i]) && Resizable(script[i].frame, width)
    requires IsQuit(script[n])
    ensures Runs(script, width)
    ensures |Draws(lib, isColor, width, script)| == n
    decreases n
  {
    if n > 0 {
      QuitBeforeCapture(lib, isColor, width, script[1..], n - 1);
    }
  }

  /** Keys other than 'q' and 'Q' are read and ignored: the draws are as if the poll had found no input. */
  lemma {:induction false} OtherKeysIgnored(lib: Library, isColor: bool, width: int, script: seq<Event>, i: nat, c: char)
    requires Runs(script, width) && i < |script| && script[i].key == None
    requires c != 'q' && c != 'Q'
    ensures Runs(script[i := script[i].(key := Some(c))], width)
    ensures Draws(lib, isColor, width, script[i := script[i].(key := Some(c))])
         == Draws(lib, isColor, width, script)
    decreases i
  {
    var s1 := script[i := script[i].(key := Some(c))];
    if i > 0 {
      if !Stops(script[0]) {
        assert s1[1..] == script[1..][i - 1 := script[1..][i - 1].(key := Some(c))];
        OtherKeysIgnored(lib, isColor, width, script[1..], i - 1, c);
      }
    } else {
      assert s1[1..] == script[1..];
    }
  }

  /**
   * Each draw moves the cursor up by its own frame's newline count: the
   * resized height in grayscale mode, one more in colour mode (the line
   * after the reset token).
   */
  lemma DrawCursorUp(lib: Library, isColor: bool, width: int, frame: Mat)
    requires Resizable(frame, width)
    ensures ParseCursorUp(Draw(FrameTextOf(lib, isColor, width, frame))[..|CursorUp(Count(FrameTextOf(lib, isColor, width, frame), '\n'))|])
         == Some(ResizedHeight(frame.rows, frame.cols, width) + if isColor then 1 else 0)
  {
    var m := Resized(lib, frame, width);
    var text := FrameTextOf(lib, isColor, width, frame);
    if isColor {
      ColorTextNewlines(m);
    } else {
      GrayTextNewlines(Grayed(lib, m));
    }
    var up := CursorUp(Count(text, '\n'));
    assert Draw(text)[..|up|] == up;
    ParseCursorUpRoundTrip(Count(text, '\n'));
  }
}
