/**
 * `parseArgs`: a left-to-right scan of argv that fills an OptionConfig or
 * stops with help or an error. The process exits of the source are outcome
 * values here. `std::stoi` is a parameter: a partial conversion of text to
 * an int (None where it throws).
 */
module Args {
  import opened Wrappers

  /** `OptionConfig` with its default member initialisers. */
  datatype OptionConfig = OptionConfig(
    inputFile: string,
    noColor: bool,
    saveToFile: bool,
    width: int,
    isLive: bool)

  const DefaultConfig: OptionConfig := OptionConfig("", false, false, 70, false)

  /** The diagnostics after which the source exits with EXIT_FAILURE. */
  datatype ArgError =
    | InvalidWidth(index: nat, arg: string)
    | UnknownOption(arg: string)
    | NoInputFile

  /** Where a scan of argv stops. */
  datatype Scanned =
    | Scanned(config: OptionConfig)  // every argument consumed
    | Help                           // `-h`: help printed, EXIT_SUCCESS
    | Failed(error: ArgError)        // diagnostic printed, EXIT_FAILURE
    | WidthWithoutOperand            // `-w` last: stoi's string built from the null argv[argc], undefined

  /** What `parseArgs` yields: a configuration or a terminating outcome. */
  datatype ParseOutcome =
    | Run(config: OptionConfig)
    | ShowHelp
    | Exit(error: ArgError)
    | Undefined

  predicate IsHelp(arg: string) { arg == "-h" || arg == "--help" }
  predicate IsNoColor(arg: string) { arg == "-nc" || arg == "--no-color" }
  predicate IsSaveFile(arg: string) { arg == "-s" || arg == "--save-file" }
  predicate IsWidth(arg: string) { arg == "-w" || arg == "--width" }
  predicate IsLive(arg: string) { arg == "-l" || arg == "--live" }

  /** `arg[0] != '-'`; for the empty string `arg[0]` is the terminating '\0'. */
  predicate IsPositional(arg: string) { |arg| == 0 || arg[0] != '-' }

  /** An argument the scan steps over without stopping or consuming a second one. */
  predicate IsPlain(arg: string)
  {
    IsNoColor(arg) || IsSaveFile(arg) || IsLive(arg) || (IsPositional(arg) && !IsHelp(arg) && !IsWidth(arg))
  }

  /** The effect of one plain argument on the configuration. */
  function ApplyPlain(config: OptionConfig, arg: string): OptionConfig
    requires IsPlain(arg)
  {
    if IsNoColor(arg) then config.(noColor := true)
    else if IsSaveFile(arg) then config.(saveToFile := true)
    else if IsLive(arg) then config.(isLive := true, inputFile := "no file")
    else config.(inputFile := arg)
  }

  /**
   * The scan of argv from position `index` with the configuration built so
   * far. An invalid width names a position past `index` and the argument
   * there, which stoi rejects; a missing input file is never found by the
   * scan itself.
   */
  function Scan(argv: seq<string>, stoi: string -> Option<int>, index: nat, config: OptionConfig): (r: Scanned)
    ensures r.Failed? ==> !r.error.NoInputFile?
    ensures r.Failed? && r.error.InvalidWidth? ==>
      index < r.error.index < |argv| && argv[r.error.index] == r.error.arg && stoi(r.error.arg).None?
    decreases |argv| - index
  {
    if index >= |argv| then Scanned(config)
    else
      var arg := argv[index];
      if IsHelp(arg) then Help
      else if IsNoColor(arg) then Scan(argv, stoi, index + 1, config.(noColor := true))
      else if IsSaveFile(arg) then Scan(argv, stoi, index + 1, config.(saveToFile := true))
      else if IsWidth(arg) then
        if index + 1 >= |argv| then WidthWithoutOperand
        else
          match stoi(argv[index + 1])
          case None => Failed(InvalidWidth(index + 1, argv[index + 1]))
          case Some(w) => Scan(argv, stoi, index + 2, config.(width := w))
      else if IsLive(arg) then Scan(argv, stoi, index + 1, config.(isLive := true, inputFile := "no file"))
      else if IsPositional(arg) then Scan(argv, stoi, index + 1, config.(inputFile := arg))
      else Failed(UnknownOption(arg))
  }

  /** The check after the scan: a configuration without an input file is an error. */
  function Finish(s: Scanned): (r: ParseOutcome)
    ensures r.Run? ==> s == Scanned(r.config) && r.config.inputFile != ""
    ensures s.Scanned? && s.config.inputFile == "" ==> r == Exit(NoInputFile)
  {
    match s
    case Scanned(config) => if config.inputFile == "" then Exit(NoInputFile) else Run(config)
    case Help => ShowHelp
    case Failed(e) => Exit(e)
    case WidthWithoutOperand => Undefined
  }

  /**
   * `parseArgs(argc, argv)`: argv[0] is the program name, the scan starts at
   * 1. A run has an input file; an invalid width names its position and text.
   */
  function Parse(argv: seq<string>, stoi: string -> Option<int>): (r: ParseOutcome)
    ensures r.Run? ==> r.config.inputFile != ""
    ensures r.Exit? && r.error.InvalidWidth? ==>
      1 < r.error.index < |argv| && argv[r.error.index] == r.error.arg && stoi(r.error.arg).None?
  {
    Finish(Scan(argv, stoi, 1, DefaultConfig))
  }

  /** The imperative scan of the source, proved to compute Parse. */
  method ParseArgs(argv: seq<string>, stoi: string -> Option<int>) returns (outcome: ParseOutcome)
    ensures outcome == Parse(argv, stoi)
  {
    var config := DefaultConfig;
    var index := 1;
    while index < |argv|
      invariant 1 <= index
      invariant Scan(argv, stoi, index, config) == Scan(argv, stoi, 1, DefaultConfig)
      decreases |argv| - index
    {
      var arg := argv[index];
      if arg == "-h" || arg == "--help" {
        return ShowHelp;
      } else if arg == "-nc" || arg == "--no-color" {
        config := config.(noColor := true);
      } else if arg == "-s" || arg == "--save-file" {
        config := config.(saveToFile := true);
      } else if arg == "-w" || arg == "--width" {
        index := index + 1;
        if index >= |argv| {
          return Undefined;
        }
        var w := stoi(argv[index]);
        if w.None? {
          return Exit(InvalidWidth(index, argv[index]));
        }
        config := config.(width := w.value);
      } else if arg == "-l" || arg == "--live" {
        config := config.(isLive := true, inputFile := "no file");
      } else if |arg| == 0 || arg[0] != '-' {
        config := config.(inputFile := arg);
      } else {
        return Exit(UnknownOption(arg));
      }
      index := index + 1;
    }
    if config.inputFile == "" {
      return Exit(NoInputFile);
    }
    return Run(config);
  }

  /**
   * The scan is a left fold: scanning `a + b` first scans `a`; if that stops,
   * the whole scan stops the same way, and if it consumes all of `a`, the scan
   * continues into `b` with the configuration built from `a`.
   */
  lemma {:induction false} ScanPrefix(a: seq<string>, b: seq<string>, stoi: string -> Option<int>, index: nat, config: OptionConfig)
    requires index <= |a|
    ensures Scan(a, stoi, index, config).Scanned? ==>
      Scan(a + b, stoi, index, config) == Scan(a + b, stoi, |a|, Scan(a, stoi, index, config).config)
    ensures Scan(a, stoi, index, config).Help? || Scan(a, stoi, index, config).Failed? ==>
      Scan(a + b, stoi, index, config) == Scan(a, stoi, index, config)
    decreases |a| - index
  {
    if index < |a| {
      var arg := a[index];
      assert (a + b)[index] == arg;
      if IsHelp(arg) {
      } else if IsNoColor(arg) {
        ScanPrefix(a, b, stoi, index + 1, config.(noColor := true));
      } else if IsSaveFile(arg) {
        ScanPrefix(a, b, stoi, index + 1, config.(saveToFile := true));
      } else if IsWidth(arg) {
        if index + 1 < |a| {
          assert (a + b)[index + 1] == a[index + 1];
          match stoi(a[index + 1])
          case None =>
          case Some(w) =>
            ScanPrefix(a, b, stoi, index + 2, config.(width := w));
        }
      } else if IsLive(arg) {
        ScanPrefix(a, b, stoi, index + 1, config.(isLive := true, inputFile := "no file"));
      } else if IsPositional(arg) {
        ScanPrefix(a, b, stoi, index + 1, config.(inputFile := arg));
      }
    }
  }

  /** A plain argument at the end of a cleanly scanned argv updates the configuration by itself. */
  lemma AppendPlain(argv: seq<string>, arg: string, stoi: string -> Option<int>, config: OptionConfig)
    requires 1 <= |argv| && Scan(argv, stoi, 1, DefaultConfig) == Scanned(config)
    requires IsPlain(arg)
    ensures Scan(argv + [arg], stoi, 1, DefaultConfig) == Scanned(ApplyPlain(config, arg))
  {
    ScanPrefix(argv, [arg], stoi, 1, DefaultConfig);
    assert (argv + [arg])[|argv|] == arg;
  }

  /**
   * A later positional argument overrides the input file chosen before it
   * (by an earlier positional or by `-l`), and the result runs with it.
   */
  lemma LaterPositionalOverrides(argv: seq<string>, path: string, stoi: string -> Option<int>, config: OptionConfig)
    requires 1 <= |argv| && Scan(argv, stoi, 1, DefaultConfig) == Scanned(config)
    requires |path| > 0 && path[0] != '-'
    ensures Parse(argv + [path], stoi) == Run(config.(inputFile := path))
  {
    AppendPlain(argv, path, stoi, config);
  }

  /** `-l`/`--live` sets live mode and the placeholder input file, so live mode needs no path. */
  lemma LiveNeedsNoPath(argv: seq<string>, flag: string, stoi: string -> Option<int>, config: OptionConfig)
    requires 1 <= |argv| && Scan(argv, stoi, 1, DefaultConfig) == Scanned(config)
    requires IsLive(flag)
    ensures Parse(argv + [flag], stoi) == Run(config.(isLive := true, inputFile := "no file"))
  {
    AppendPlain(argv, flag, stoi, config);
  }

  /** The scan at a `-w`/`--width` that has an operand. */
  lemma ScanWidthAt(argv: seq<string>, stoi: string -> Option<int>, index: nat, config: OptionConfig)
    requires index + 1 < |argv| && IsWidth(argv[index])
    ensures stoi(argv[index + 1]).None? ==>
      Scan(argv, stoi, index, config) == Failed(InvalidWidth(index + 1, argv[index + 1]))
    ensures stoi(argv[index + 1]).Some? ==>
      Scan(argv, stoi, index, config) == Scan(argv, stoi, index + 2, config.(width := stoi(argv[index + 1]).value))
  {
  }

  /** `-w N` or `--width N` consumes the next argument as the width when stoi accepts it. */
  lemma WidthConsumesOperand(argv: seq<string>, flag: string, operand: string, n: int, stoi: string -> Option<int>, config: OptionConfig)
    requires 1 <= |argv| && Scan(argv, stoi, 1, DefaultConfig) == Scanned(config)
    requires IsWidth(flag) && stoi(operand) == Some(n)
    ensures Scan(argv + [flag, operand], stoi, 1, DefaultConfig) == Scanned(config.(width := n))
  {
    var full := argv + [flag, operand];
    ScanPrefix(argv, [flag, operand], stoi, 1, DefaultConfig);
    assert full[|argv|] == flag && full[|argv| + 1] == operand;
    ScanWidthAt(full, stoi, |argv|, config);
  }

  /** `-w X` or `--width X` with an X that stoi rejects is an error naming X, whatever follows. */
  lemma InvalidWidthFails(argv: seq<string>, flag: string, operand: string, rest: seq<string>, stoi: string -> Option<int>, config: OptionConfig)
    requires 1 <= |argv| && Scan(argv, stoi, 1, DefaultConfig) == Scanned(config)
    requires IsWidth(flag) && stoi(operand) == None
    ensures Parse(argv + [flag, operand] + rest, stoi) == Exit(InvalidWidth(|argv| + 1, operand))
  {
    var full := argv + [flag, operand] + rest;
    assert full == argv + ([flag, operand] + rest);
    ScanPrefix(argv, [flag, operand] + rest, stoi, 1, DefaultConfig);
    assert full[|argv|] == flag && full[|argv| + 1] == operand;
    ScanWidthAt(full, stoi, |argv|, config);
  }

  /** `-h`/`--help` yields help as soon as the scan reaches it, whatever follows. */
  lemma HelpWhenReached(argv: seq<string>, flag: string, rest: seq<string>, stoi: string -> Option<int>, config: OptionConfig)
    requires 1 <= |argv| && Scan(argv, stoi, 1, DefaultConfig) == Scanned(config)
    requires IsHelp(flag)
    ensures Parse(argv + [flag] + rest, stoi) == ShowHelp
  {
    var full := argv + [flag] + rest;
    assert full == argv + ([flag] + rest);
    ScanPrefix(argv, [flag] + rest, stoi, 1, DefaultConfig);
    assert full[|argv|] == flag;
  }

  /** An argument starting with '-' that names no option is an error as soon as it is reached. */
  lemma UnknownOptionFails(argv: seq<string>, arg: string, rest: seq<string>, stoi: string -> Option<int>, config: OptionConfig)
    requires 1 <= |argv| && Scan(argv, stoi, 1, DefaultConfig) == Scanned(config)
    requires |arg| > 0 && arg[0] == '-'
    requires !IsHelp(arg) && !IsNoColor(arg) && !IsSaveFile(arg) && !IsWidth(arg) && !IsLive(arg)
    ensures Parse(argv + [arg] + rest, stoi) == Exit(UnknownOption(arg))
  {
    var full := argv + [arg] + rest;
    assert full == argv + ([arg] + rest);
    ScanPrefix(argv, [arg] + rest, stoi, 1, DefaultConfig);
    assert full[|argv|] == arg;
  }

  /**
   * `-w`/`--width` as the last argument has no operand: argv[argc] is a null
   * pointer, and building stoi's string argument from it is undefined.
   */
  lemma WidthLastIsUndefined(argv: seq<string>, flag: string, stoi: string -> Option<int>, config: OptionConfig)
    requires 1 <= |argv| && Scan(argv, stoi, 1, DefaultConfig) == Scanned(config)
    requires IsWidth(flag)
    ensures Parse(argv + [flag], stoi) == Undefined
  {
    ScanPrefix(argv, [flag], stoi, 1, DefaultConfig);
    assert (argv + [flag])[|argv|] == flag;
  }

  /** With no positional argument and no `-l`, the scan ends without an input file: an error. */
  lemma OptionsOnlyNeedAFile(stoi: string -> Option<int>)
    ensures Parse(["iascii", "-nc", "-s", "-w", "40"], stoi) == if stoi("40").Some? then Exit(NoInputFile) else Exit(InvalidWidth(4, "40"))
  {
  }

  /**
   * What the scan reports comes from the arguments it scanned: an unknown
   * option is one of them, and a changed input file is "no file" (from `-l`)
   * or one of them.
   */
  lemma {:induction false} ScanTakesFromArgv(argv: seq<string>, stoi: string -> Option<int>, index: nat, config: OptionConfig)
    ensures var r := Scan(argv, stoi, index, config);
      r.Failed? && r.error.UnknownOption? ==>
        index < |argv| && r.error.arg in argv[index..] && |r.error.arg| > 0 && r.error.arg[0] == '-'
    ensures var r := Scan(argv, stoi, index, config);
      r.Scanned? && r.config.inputFile != config.inputFile ==>
        r.config.inputFile == "no file" || (index < |argv| && r.config.inputFile in argv[index..])
    decreases |argv| - index
  {
    if index < |argv| {
      var arg := argv[index];
      var next: nat := index + 1;
      if IsHelp(arg) {
      } else if IsNoColor(arg) {
        ScanTakesFromArgv(argv, stoi, next, config.(noColor := true));
      } else if IsSaveFile(arg) {
        ScanTakesFromArgv(argv, stoi, next, config.(saveToFile := true));
      } else if IsWidth(arg) {
        if index + 1 < |argv| && stoi(argv[index + 1]).Some? {
          ScanTakesFromArgv(argv, stoi, index + 2, config.(width := stoi(argv[index + 1]).value));
        }
      } else if IsLive(arg) {
        ScanTakesFromArgv(argv, stoi, next, config.(isLive := true, inputFile := "no file"));
      } else if IsPositional(arg) {
        ScanTakesFromArgv(argv, stoi, next, config.(inputFile := arg));
      }
      assert argv[index] in argv[index..];
      assert next < |argv| ==> argv[next..] == argv[index..][1..];
    }
  }

  /** A run's input file is "no file" or one of the arguments after the program name. */
  lemma RunFileFromArgv(argv: seq<string>, stoi: string -> Option<int>)
    ensures Parse(argv, stoi).Run? ==>
      var f := Parse(argv, stoi).config.inputFile;
      f == "no file" || (1 < |argv| && f in argv[1..])
  {
    ScanTakesFromArgv(argv, stoi, 1, DefaultConfig);
  }
}
