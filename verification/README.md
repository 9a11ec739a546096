# iascii in Dafny

iascii turns an image, or the frames of a live camera, into text art for a
terminal. It scales the image so that each pixel becomes one character
cell. In grayscale mode each pixel becomes a glyph from a 36-entry ramp, and
each row ends with a newline. In colour mode each pixel becomes a true-colour
SGR token: `ESC [ 38 ; 2 ; r ; g ; b m` (ECMA-48 section 8.3.117 with the
ITU-T T.416 direct-colour parameters), followed by the glyph. A reset token
and a newline close the colour text. The live mode puts the terminal in raw
mode. It then polls the keyboard, captures a frame, moves the cursor up
(CUU, ECMA-48 section 8.3.22) and draws the frame, until a `q`/`Q` key or an
empty frame.

This project models the core of `src/main.cpp`:

- `ramp.dfy`: the glyph ramp `CHAR_ARRAY`, the intensity-to-index formula and the weighted colour intensity.
- `decimal.dfy`: the decimal text of `std::to_string` on naturals, and its reading back.
- `sgr.dfy`: `rgb_fg`, the cursor-up sequence, the reset and clear-screen sequences, and parsers that read tokens back.
- `image.dfy`: images as rectangular pixel grids, the `resize_image` height arithmetic, and the image library as function values.
- `frame_text.dfy`: what the two renderers produce, as functions, with their layout and round-trip lemmas.
- `img_to_ascii.dfy`: the `ImgToAscii` class. Its methods replace the stored image in place and build the text in nested loops, and they are proved to produce the functions of `frame_text.dfy`.
- `args.dfy`: `parseArgs`, as a recursive scan and as the imperative loop proved equal to it.
- `raw_mode.dfy`: `setRawMode`, over a termios record and a terminal object.
- `live_loop.dfy`: the live branch of `main`, over a script of keyboard and camera events.

Arithmetic that the source does in `double` is done exactly on integers:
- The ramp index is `35 - (v * 35) / 255`.
- The colour intensity is `(114 b + 587 g + 299 r) / 1000`.
- The resize height is `(rows * width * 100) / (cols * 165)`.

Each of these truncates, as the source's `int(...)` conversions do. For the
ramp index the `double` computation agrees with the exact form on every byte.
For the colour intensity and the resize height it does not always agree;
"## Left out" says where.

The model follows the code, including these points:
- The ramp has 36 entries: 27 glyphs and nine spaces.
- The index is not clamped.
- The height is truncated, not rounded.
- The cursor-up count is the newline count of the frame about to be drawn.
- Raw mode is restored by one call after the loop, not by a scoped guard.

## Model

| member | source | states |
|---|---|---|
| Ramp.RampIndex | src/main.cpp:66-67 | the index is at most 35 and is the bucket holding the intensity: (35 - k) * 255 <= v * 35 < (36 - k) * 255 |
| Ramp.Glyph | src/main.cpp:14-18 | the glyph of an intensity is a ramp entry, never '\n' and never ESC |
| Ramp.ColorIntensity | src/main.cpp:83-85 | the per-mille weighted intensity lies between the smallest and the largest channel, so it is a byte and the colour-path index is in range; in the model a gray pixel keeps its value |
| Ramp.RampIndexMonotone | src/main.cpp:66-67 | a brighter intensity never gets a larger index |
| Ramp.RampEnds | src/main.cpp:14-18 | intensity 0 maps to index 35, a space; 255 maps to index 0, '@' |
| Ramp.BlankGlyphs | src/main.cpp:14-18 | the glyph is a space exactly when v * 35 < 9 * 255, that is for the 66 intensities 0 to 65, which reach the nine trailing spaces of the ramp |
| Decimal.Dec | src/main.cpp:53-54 | `to_string` of a natural is a non-empty string of digits with no leading zero |
| Decimal.ValueOfDec | src/main.cpp:53-54 | the digits of `to_string(n)` read back as n |
| Sgr.RgbFg | src/main.cpp:52-55 | the token starts with ESC[38;2;, ends with the glyph, has no '\n' before the glyph and no ESC after its first character |
| Sgr.ParseRgbFgRoundTrip | src/main.cpp:52-55 | reading a token back, whatever follows it, gives its red, green and blue fields and its glyph |
| Sgr.CursorUp | src/main.cpp:285 | the sequence starts with ESC '[' and ends with 'A' |
| Sgr.ParseCursorUpRoundTrip | src/main.cpp:285 | the cursor-up count reads back from the sequence |
| Image.IsEmpty | src/main.cpp:115-119 | `Mat::empty()`: an image is empty exactly when it has no pixels, rows times columns being zero; the constructor, RunLive and DrawLoop test it |
| Image.ResizedHeight | src/main.cpp:39-43 | the height is the truncated quotient: h * cols * 1.65 <= rows * width < (h + 1) * cols * 1.65 |
| Image.Resized | src/main.cpp:45-49 | the resized image is three-channel, has the requested width and the computed height |
| Image.Grayed | src/main.cpp:156-160 | the grayscale image is one-channel with the same dimensions |
| Image.SquareSourceGivesSquareGrid | src/main.cpp:39-43 | a source whose rows:cols ratio is exactly 1.65 gets as many rows as columns |
| Image.ResizeExample | src/main.cpp:39-47 | a 165 x 100 source at width 100 gets 100 rows |
| Image.ResizedHeightMonotone | src/main.cpp:39-43 | a wider output is never shorter |
| FrameText.GrayText | src/main.cpp:57-73 | the grayscale text of R x C pixels has R * (C + 1) characters |
| FrameText.GrayTextNewlines | src/main.cpp:57-73 | the grayscale text has exactly R newlines |
| FrameText.GrayTextLine | src/main.cpp:63-71 | line i of the grayscale text is the C glyphs of row i followed by '\n' |
| FrameText.GlyphLineHasNoNewline | src/main.cpp:64-69 | a glyph line holds no newline |
| FrameText.GrayTextPixel | src/main.cpp:63-71 | character i * (C + 1) + j is the glyph of pixel (i, j) |
| FrameText.OnePixelExample | src/main.cpp:57-73 | one pixel of intensity 128 renders as "c\n" |
| FrameText.TokenGridGlyphs | src/main.cpp:86-89 | no colour token carries '\n' or ESC as its glyph |
| FrameText.ColorText | src/main.cpp:75-94 | the colour text ends with the reset token and '\n' |
| FrameText.ColorTextNewlines | src/main.cpp:75-94 | the colour text of R rows has exactly R + 1 newlines |
| FrameText.ResetOnce | src/main.cpp:93 | the reset token occurs exactly once, just before the final '\n' |
| FrameText.ParseRowRoundTrip | src/main.cpp:81-91 | a row of tokens and its '\n' read back as that row |
| FrameText.ParseColorTextRoundTrip | src/main.cpp:80-93 | the encoded rows followed by the reset and '\n' read back as the rows |
| FrameText.ColorTextRoundTrip | src/main.cpp:75-94 | the colour text reads back as R rows of C tokens, row-major, token (i, j) carrying pixel[2], pixel[1], pixel[0] and the glyph of the weighted intensity |
| FrameText.Count | src/main.cpp:284 | `std::count`: the count is at most the length of the text |
| FrameText.CountIsMultiplicity | src/main.cpp:284 | the newline count is the number of occurrences of '\n' |
| Render.RenderedText | src/main.cpp:151-154 | the text rendered for a resized colour image has one '\n' per row, and one more in colour mode |
| Render.ImgToAscii.constructor | src/main.cpp:111-122 | a non-empty image is stored resized to the requested width |
| Render.ImgToAscii.ResizeImage | src/main.cpp:37-50 | the stored image is replaced by its resized copy |
| Render.ImgToAscii.UpdateImg | src/main.cpp:124-127 | the stored image becomes the new image resized |
| Render.ImgToAscii.Grayify | src/main.cpp:156-160 | the stored image is replaced by its grayscale copy |
| Render.ImgToAscii.GetAsciiText | src/main.cpp:57-73 | the stored image becomes grayscale and the text is its grayscale rendering |
| Render.ImgToAscii.GetColoredAsciiText | src/main.cpp:75-94 | the text is the colour rendering of the stored image, which is left as it is |
| Render.ImgToAscii.GetRawAsciiText | src/main.cpp:151-154 | the text is the colour or grayscale rendering by the object's mode; the image is grayed only in grayscale mode |
| Render.ImgToAscii.PrintAscii | src/main.cpp:146-149 | what is written is that rendering followed by '\n' |
| Args.Scan | src/main.cpp:196-224 | a scan never reports a missing input file; an invalid width names a position after the scan's start, the argument there, and stoi rejects it |
| Args.ScanTakesFromArgv | src/main.cpp:213-221 | an unknown option is one of the arguments scanned; a changed input file is "no file" or one of the arguments scanned |
| Args.Parse | src/main.cpp:191-233 | a run has a non-empty input file; an invalid width names a position after argv[0], the argument there, and stoi rejects it |
| Args.RunFileFromArgv | src/main.cpp:213-217 | a run's input file is "no file" or one of the arguments after the program name |
| Args.Finish | src/main.cpp:226-232 | a run has a non-empty input file; a scan that ends without one is the no-input-file error |
| Args.ParseArgs | src/main.cpp:191-233 | the imperative scan yields the same outcome as the left-to-right recursive scan |
| Args.ScanPrefix | src/main.cpp:196-224 | scanning a+b is scanning a then continuing on b with the configuration reached, or stopping where a stops |
| Args.AppendPlain | src/main.cpp:201-217 | a flag or positional argument after a finished scan applies its one effect to the configuration |
| Args.LaterPositionalOverrides | src/main.cpp:216-217 | a later positional argument replaces the input file, and the parse then runs |
| Args.LiveNeedsNoPath | src/main.cpp:213-215 | -l or --live sets live mode and the input file "no file", so the parse runs without a path |
| Args.WidthConsumesOperand | src/main.cpp:205-207 | -w N or --width N sets the width to stoi(N) and consumes N |
| Args.InvalidWidthFails | src/main.cpp:205-211 | -w X or --width X with X rejected by stoi is the invalid-width error naming X's index and X, whatever follows |
| Args.WidthLastIsUndefined | src/main.cpp:205-207 | -w or --width as the last argument has no operand: argv[argc] is a null pointer, and building stoi's string argument from it is undefined, so the outcome is Undefined |
| Args.HelpWhenReached | src/main.cpp:198-200 | -h or --help yields help as soon as it is reached, whatever follows |
| Args.UnknownOptionFails | src/main.cpp:216-222 | an argument starting with '-' that names no option is the unknown-option error |
| Args.OptionsOnlyNeedAFile | src/main.cpp:226-230 | one example, argv `iascii -nc -s -w 40`: the no-input-file error when stoi accepts "40", the invalid-width error at index 4 otherwise |
| RawMode.RawAttrs | src/main.cpp:240-241 | the raw attributes clear ICANON and ECHO, keep every other local-mode bit and leave the other fields as they were |
| RawMode.RawAttrsIdempotent | src/main.cpp:235-246 | clearing the bits twice is clearing them once, so a second enable before a disable installs the attributes the terminal already has |
| RawMode.RawModeState.SetRawMode | src/main.cpp:235-246 | enabling snapshots the terminal's attributes and installs their raw copy; disabling reinstalls the snapshot |
| RawMode.EnableThenDisable | src/main.cpp:264-290 | an enable followed by a disable leaves the terminal as it was; the snapshot is the terminal's attributes and the raw copy is theirs with ICANON and ECHO cleared |
| LiveLoop.Draw | src/main.cpp:284-286 | what one iteration writes: ESC '[', the count and 'A', then the frame's text unchanged |
| LiveLoop.Draws | src/main.cpp:268-288 | the draws of an event script, one per event up to the first stopping event, which draws nothing: fewer draws than events |
| LiveLoop.Shown | src/main.cpp:124-127 | the image held after drawing a frame has the requested width and the computed height, and is three-channel exactly in colour mode |
| LiveLoop.LastShownIsLastDrawn | src/main.cpp:268-288 | after a run the renderer holds the image of the last frame drawn, or its earlier image when nothing was drawn |
| LiveLoop.DrawFrame | src/main.cpp:281-287 | one iteration writes the cursor-up sequence for the rendered frame's own newline count, then the frame; the renderer then holds the resized frame, grayed in grayscale mode |
| LiveLoop.DrawLoop | src/main.cpp:268-288 | the loop writes exactly the draws of the event script, up to its first stopping event, and leaves the renderer holding the image of the last frame drawn |
| LiveLoop.RunLive | src/main.cpp:251-294 | the screen is cleared first; an empty first frame fails with raw mode untouched; otherwise the draws follow, then a clear, and the static snapshot holds the terminal's attributes and their raw copy; the terminal's attributes end as they began on both exit paths |
| LiveLoop.DrawsUntilEmptyFrame | src/main.cpp:268-288 | N drawable frames, no quit key, then an empty frame: exactly N draws, frame by frame, in order |
| LiveLoop.QuitBeforeCapture | src/main.cpp:269-275 | a quit key stops the loop before that iteration's frame is captured |
| LiveLoop.OtherKeysIgnored | src/main.cpp:269-274 | a key other than q/Q gives the same draws as no key at all |
| LiveLoop.DrawCursorUp | src/main.cpp:284-285 | each draw moves up by the resized height in grayscale mode and by one more in colour mode |

## Left out

- The OpenCV calls are not modelled: `imread`, `resize`, `cvtColor`, `VideoCapture` and the logger. Their pixel values come from a `Library` of function values and from the event script. The model fixes only the dimensions of their results.
- The `double` arithmetic is not modelled bit-exactly. The integer formulas above stand in for it.
- Image.ResizedHeight: computes the exact quotient `(rows * width * 100) / (cols * 165)`. The source's `double` expression `(rows / double(cols)) / 1.65 * width` can fall just below a whole number where `rows * width * 100` is a multiple of `cols * 165`, and then truncates to one lower. A 115 x 100 source at width 33, for example, gets 22 rows in the source and 23 in the model. Where that happens the model's image has one row more, and LiveLoop.DrawCursorUp's count is one higher than the source's.
- Render.ImgToAscii.GetAsciiText: the source reserves `img.rows * img.cols * 20` characters in `int` arithmetic. Past 107,374,182 pixels the product overflows, and a negative result converted to `size_t` makes `reserve` throw `std::length_error`. Nothing catches it, so the process aborts; in the live loop the terminal stays in raw mode, because the `setRawMode(false)` after the loop never runs. The model has unbounded integers and renders such a frame (a 480 x 640 camera at width 20000, say, gives 9090 x 20000 pixels).
- Render.ImgToAscii.GetColoredAsciiText: the same `int` overflow of `img.rows * img.cols * 20` in its `reserve`, with the same uncaught `length_error`, is not modelled; the model renders the frame.
- LiveLoop.RunLive: its promise that the terminal's attributes end as they began does not cover the abort above. Nor does the model cover the `int(ratio * img_width)` conversion of `resize_image`, which overflows at still larger widths; Image.ResizedHeight is unbounded.
- Ramp.ColorIntensity: computes the exact per-mille sum `(114 b + 587 g + 299 r) / 1000`. The source's `double` sum `0.114 * b + 0.587 * g + 0.299 * r` can fall just below a whole number where the exact sum is whole, and then truncates to one lower. Gray 127, for example, gives 126 in the source. Where that crosses a ramp bucket, the glyph differs by one ramp step. The model's min/max-channel bound and gray-pixel property hold of the exact sum, not of the source's `double` result.
- The path constructor of `ImgToAscii` (`imread`), `write_to_file`, `getImageName`, `disPlayImg`, `getPixelAt` and `getHeight` are left out. They are file I/O, GUI or debug accessors.
- The still-image branch of `main` (src/main.cpp:296-303) is left out: it is file loading and output around `printAscii`.
- The `printHelp` text, the stderr diagnostics and process exit are not modelled. They become outcome values.
- The failures of `poll`, `read`, `tcgetattr` and `tcsetattr` are not modelled. A key is `None` when `poll` or `read` reports nothing.
- `std::stoi` is a parameter, a partial function from text to int. Its whitespace, sign and range rules are not modelled.
- Render.ImgToAscii.constructor: requires a non-empty image. The source's exit on an empty one is modelled in LiveLoop.RunLive, which checks before constructing.
- Render.ImgToAscii.constructor: requires a positive width and a positive computed height, which the library's resize needs. The library's failure otherwise is not modelled.
- Render.ImgToAscii.UpdateImg: requires a positive width and a positive computed height, for the same reason.
- Render.ImgToAscii.ResizeImage: requires a positive width and a positive computed height, for the same reason.
- LiveLoop.RunLive: requires a script in which some event stops the loop, and every frame before it resizable. A camera that never stops, which the source loops on forever, is not modelled.
- LiveLoop.RunLive: the two writes of an iteration, the cursor-up sequence and the frame, are one element of the output.
