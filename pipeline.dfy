/**
 * The stages of Config::parse put together, the configuration-file dispatch of Config::config
 * and the format choice of Config::serialize. `ParseSpec` is what the Parse method of Config
 * is proved to compute; the lemmas below state what it promises.
 */
module Pipeline {
  import opened Wrappers
  import opened CNumbers
  import opened Values
  import opened Options
  import opened Logging
  import opened Tokens
  import opened Schema
  import opened Store
  import opened CommandLine
  import opened CsvFormat
  import opened JsonFormat
  import CText

  /**
   * What the engine reads from outside: the C library, the files on disk (path to content),
   * and picojson's text parser and printer.
   */
  datatype Env = Env(
    lib: CLib,
    files: map<string, string>,
    parseJson: string -> Json,
    printJson: Json -> string)

  // ---- Config::config ----

  /** The content config() reads: the whole file, or "" when the file cannot be opened. */
  function ReadFile(files: map<string, string>, path: string): (content: string)
    ensures path !in files ==> content == ""
  {
    if path in files then files[path] else ""
  }

  /** config() and serialize take a path whose extension is "csv" or "CSV" as a CSV file. */
  function IsCsvPath(path: string): (r: bool)
    ensures r <==> CText.EndsWith(path, ".csv") || CText.EndsWith(path, ".CSV")
  {
    CsvSuffix(path);
    CText.Extension(path) == "csv" || CText.Extension(path) == "CSV"
  }

  /** The extension test for CSV, written as a test of the path's ending. */
  lemma CsvSuffix(path: string)
    ensures CText.Extension(path) == "csv" <==> CText.EndsWith(path, ".csv")
    ensures CText.Extension(path) == "CSV" <==> CText.EndsWith(path, ".CSV")
  {
    assert ['.'] + "csv" == ".csv";
    CText.ExtensionIs(path, "csv");
    assert ['.'] + "CSV" == ".CSV";
    CText.ExtensionIs(path, "CSV");
  }

  /** serialize takes a path whose extension is "json" or "JSON" as a JSON file. */
  function IsJsonPath(path: string): (r: bool)
    ensures r <==> CText.EndsWith(path, ".json") || CText.EndsWith(path, ".JSON")
  {
    JsonSuffix(path);
    CText.Extension(path) == "json" || CText.Extension(path) == "JSON"
  }

  /** The extension test for JSON, written as a test of the path's ending. */
  lemma JsonSuffix(path: string)
    ensures CText.Extension(path) == "json" <==> CText.EndsWith(path, ".json")
    ensures CText.Extension(path) == "JSON" <==> CText.EndsWith(path, ".JSON")
  {
    assert ['.'] + "json" == ".json";
    CText.ExtensionIs(path, "json");
    assert ['.'] + "JSON" == ".JSON";
    CText.ExtensionIs(path, "JSON");
  }

  /**
   * Config::config(path): a ".csv"/".CSV" file is loaded as CSV (which always succeeds);
   * every other file, whatever its extension, as JSON.
   */
  function FileLoad(options: Schema, values: map<string, Value>, path: string, env: Env): (r: Loaded)
    ensures values.Keys <= r.store.values.Keys
    ensures Typed(options, values) ==> Typed(options, r.store.values)
    ensures IsCsvPath(path) ==> r.ok
  {
    var content := ReadFile(env.files, path);
    if IsCsvPath(path) then Loaded(CsvLoad(options, values, content, env.lib), true)
    else JsonLoadDocument(options, values, env.parseJson(content), env.lib)
  }

  /** The files loaded one after the other; the records are all those they report. */
  function FilesLoad(options: Schema, values: map<string, Value>, paths: seq<string>, env: Env): (r: Store)
    ensures values.Keys <= r.values.Keys
    ensures Typed(options, values) ==> Typed(options, r.values)
    decreases |paths|
  {
    if |paths| == 0 then Store(values, [])
    else
      var prev := FilesLoad(options, values, paths[..|paths| - 1], env);
      var o := FileLoad(options, prev.values, paths[|paths| - 1], env);
      Store(o.store.values, prev.records + o.store.records)
  }

  // ---- Config::parse ----

  /**
   * parse gives up after a check at this level: ERROR (NONE is never reported), unless the
   * threshold is NONE.
   */
  function Aborts(level: LogLevel, threshold: LogLevel): (r: bool)
    ensures r <==> (level == ERROR || level == NONE) && threshold != NONE
  {
    level.Rank() >= ERROR.Rank() && threshold.Rank() <= ERROR.Rank()
  }

  /** The value map parse leaves, every record it reports (before the threshold), and its result. */
  datatype Outcome = Outcome(values: map<string, Value>, records: seq<LogRecord>, ok: bool)

  /** The second stage: the configuration files named on the command line, when loading is enabled. */
  function FileStage(options: Schema, loadConfig: bool, values: map<string, Value>, argv: seq<string>, env: Env): (r: Store)
    requires |argv| >= 1 && AllCStrings(argv)
    ensures values.Keys <= r.values.Keys
    ensures Typed(options, values) ==> Typed(options, r.values)
  {
    if loadConfig then FilesLoad(options, values, ConfigPaths(argv, env.lib), env) else Store(values, [])
  }

  lemma ArgumentsAreCStrings(argv: seq<string>)
    requires AllCStrings(argv) && |argv| >= 1
    ensures AllCStrings(argv[1..])
  {
    forall t | t in argv[1..] ensures IsCString(t) {
      assert t in argv;
    }
  }

  /** The third stage: the walk over the arguments after the program name. */
  function WalkStage(options: Schema, values: map<string, Value>, argv: seq<string>, env: Env): (r: WalkState)
    requires |argv| >= 1 && AllCStrings(argv)
    ensures values.Keys <= r.store.values.Keys
  {
    ArgumentsAreCStrings(argv);
    Walk(options, WalkState(Store(values, []), NoCursor), argv[1..], env.lib)
  }

  /**
   * Config::parse(argv) on a configuration with schema `options`, program description
   * `description`, log threshold `threshold`, configuration loading `loadConfig` and value
   * map `values`: check the schema and stop on an error; otherwise set the defaults, load the
   * configuration files, walk the arguments, and validate.
   */
  function ParseSpec(options: Schema, description: string, threshold: LogLevel, loadConfig: bool,
                     values: map<string, Value>, argv: seq<string>, env: Env): Outcome
    requires |argv| >= 1 && AllCStrings(argv)
  {
    var format := FormatRecords(options, description);
    if Aborts(MaxLevel(format), threshold) then Outcome(values, format, false)
    else
      var r := ParseStages(options, threshold, loadConfig, values, argv, env);
      Outcome(r.values, format + r.records, r.ok)
  }

  /**
   * What parse returns: when the schema check aborts, false and the values untouched; with
   * the threshold NONE, true; and once it goes on, no hidden option is left among the values.
   */
  lemma ParseOutcome(options: Schema, description: string, threshold: LogLevel, loadConfig: bool,
                     values: map<string, Value>, argv: seq<string>, env: Env)
    requires |argv| >= 1 && AllCStrings(argv)
    ensures var r := ParseSpec(options, description, threshold, loadConfig, values, argv, env);
            var aborts := Aborts(MaxLevel(FormatRecords(options, description)), threshold);
            (aborts ==> !r.ok && r.values == values)
            && (threshold == NONE ==> r.ok)
            && (!aborts ==> forall k :: k in options && options[k].hidden ==> k !in r.values)
  {
    var format := FormatRecords(options, description);
    if !Aborts(MaxLevel(format), threshold) {
      var files := FileStage(options, loadConfig, Defaults(options, values), argv, env);
      var walked := WalkStage(options, files.values, argv, env).store;
      var erased := EraseHidden(options, walked.values);
      assert ParseSpec(options, description, threshold, loadConfig, values, argv, env).values == erased;
      var checks := ValidateRecords(options, walked.values);
      assert ParseSpec(options, description, threshold, loadConfig, values, argv, env).ok == !Aborts(MaxLevel(checks), threshold);
    }
  }

  /** parse reports what checkFormat found first, before anything the later stages report. */
  lemma ParseRecordsStartWithFormat(options: Schema, description: string, threshold: LogLevel, loadConfig: bool,
                                    values: map<string, Value>, argv: seq<string>, env: Env)
    requires |argv| >= 1 && AllCStrings(argv)
    ensures var format := FormatRecords(options, description);
            var r := ParseSpec(options, description, threshold, loadConfig, values, argv, env);
            |format| <= |r.records| && r.records[..|format|] == format
  {
  }

  /**
   * What parse does once the schema check lets it go on: set the defaults, load the
   * configuration files, walk the arguments, validate, and erase the hidden options.
   */
  function ParseStages(options: Schema, threshold: LogLevel, loadConfig: bool,
                       values: map<string, Value>, argv: seq<string>, env: Env): Outcome
    requires |argv| >= 1 && AllCStrings(argv)
  {
    var files := FileStage(options, loadConfig, Defaults(options, values), argv, env);
    var walked := WalkStage(options, files.values, argv, env).store;
    var checks := ValidateRecords(options, walked.values);
    Outcome(EraseHidden(options, walked.values),
            files.records + walked.records + checks,
            !Aborts(MaxLevel(checks), threshold))
  }

  /**
   * A schema with an unusable option or a shared short flag makes parse fail before it reads
   * any argument, unless the threshold is NONE: the values are untouched.
   */
  lemma SchemaErrorStopsParse(options: Schema, description: string, threshold: LogLevel, loadConfig: bool,
                              values: map<string, Value>, argv: seq<string>, env: Env)
    requires |argv| >= 1 && AllCStrings(argv)
    requires SchemaError(options) && threshold != NONE
    ensures var r := ParseSpec(options, description, threshold, loadConfig, values, argv, env);
            !r.ok && r.values == values
  {
    FormatLevel(options, description);
  }

  /**
   * After the walk every visible registered option has a value: the defaults give each one
   * and nothing later removes it. So validate never reports a visible option as undefined.
   */
  lemma VisibleOptionsAreDefined(options: Schema, description: string, threshold: LogLevel, loadConfig: bool,
                                 values: map<string, Value>, argv: seq<string>, env: Env)
    requires |argv| >= 1 && AllCStrings(argv)
    requires !Aborts(MaxLevel(FormatRecords(options, description)), threshold)
    ensures var r := ParseSpec(options, description, threshold, loadConfig, values, argv, env);
            forall k :: k in options && !options[k].hidden ==> k in r.values
  {
    var files := FileStage(options, loadConfig, Defaults(options, values), argv, env);
    var walked := WalkStage(options, files.values, argv, env).store;
    assert options.Keys <= walked.values.Keys;
  }

  /** parse succeeds exactly when the threshold is NONE or no value left after erasing hidden ones is empty. */
  lemma ParseResult(options: Schema, description: string, threshold: LogLevel, loadConfig: bool,
                    values: map<string, Value>, argv: seq<string>, env: Env)
    requires |argv| >= 1 && AllCStrings(argv)
    requires !Aborts(MaxLevel(FormatRecords(options, description)), threshold)
    ensures var r := ParseSpec(options, description, threshold, loadConfig, values, argv, env);
            r.ok <==> threshold == NONE || forall k :: k in r.values ==> !r.values[k].IsEmpty()
  {
    var files := FileStage(options, loadConfig, Defaults(options, values), argv, env);
    var walked := WalkStage(options, files.values, argv, env).store;
    VisibleOptionsAreDefined(options, description, threshold, loadConfig, values, argv, env);
    ValidateLevel(options, walked.values);
  }

  /**
   * An option without a default (of type UNKNOWN) can never be given a value: neither a
   * configuration file nor the command line stores one for it. So, unless it is hidden,
   * parse fails whenever the threshold is not NONE.
   */
  lemma OptionWithoutDefaultFails(options: Schema, description: string, threshold: LogLevel, loadConfig: bool,
                                  values: map<string, Value>, argv: seq<string>, env: Env, k: string)
    requires |argv| >= 1 && AllCStrings(argv)
    requires WellKeyed(options) && "" !in options
    requires k in options && options[k].defaultValue.Unknown? && !options[k].hidden
    requires threshold != NONE
    ensures !ParseSpec(options, description, threshold, loadConfig, values, argv, env).ok
  {
    var format := FormatRecords(options, description);
    if !Aborts(MaxLevel(format), threshold) {
      var defaults := Defaults(options, values);
      var files := FileStage(options, loadConfig, defaults, argv, env);
      ArgumentsAreCStrings(argv);
      var start := WalkState(Store(files.values, []), NoCursor);
      var walked := WalkStage(options, files.values, argv, env).store;
      assert Typed(options, defaults);
      assert files.values[k].Unknown?;
      WalkKeepsDeclaredTypes(options, start, argv[1..], env.lib);
      assert walked.values[k].Unknown?;
      ParseResult(options, description, threshold, loadConfig, values, argv, env);
    }
  }

  /** With no argument after the program name, every visible option ends with its default. */
  lemma NoArgumentsGivesDefaults(options: Schema, description: string, threshold: LogLevel, loadConfig: bool,
                                 values: map<string, Value>, argv: seq<string>, env: Env)
    requires |argv| == 1 && AllCStrings(argv)
    requires !Aborts(MaxLevel(FormatRecords(options, description)), threshold)
    ensures var r := ParseSpec(options, description, threshold, loadConfig, values, argv, env);
            forall k :: k in options && !options[k].hidden ==> k in r.values && r.values[k] == options[k].defaultValue
  {
    var defaults := Defaults(options, values);
    NoFilesWithoutArguments(options, loadConfig, defaults, argv, env);
    var files := FileStage(options, loadConfig, defaults, argv, env);
    NoWalkWithoutArguments(options, files.values, argv, env);
    var stages := ParseStages(options, threshold, loadConfig, values, argv, env);
    assert stages.values == EraseHidden(options, defaults);
    assert ParseSpec(options, description, threshold, loadConfig, values, argv, env).values == stages.values;
    forall k | k in options && !options[k].hidden
      ensures k in stages.values && stages.values[k] == options[k].defaultValue
    {
      assert k in defaults && defaults[k] == options[k].defaultValue;
    }
  }

  /** No argument after the program name names no configuration file, so the values stay. */
  lemma NoFilesWithoutArguments(options: Schema, loadConfig: bool, values: map<string, Value>, argv: seq<string>, env: Env)
    requires |argv| == 1 && AllCStrings(argv)
    ensures FileStage(options, loadConfig, values, argv, env).values == values
  {
    assert ConfigPaths(argv, env.lib) == [];
  }

  /** The walk over no arguments stores nothing. */
  lemma NoWalkWithoutArguments(options: Schema, values: map<string, Value>, argv: seq<string>, env: Env)
    requires |argv| == 1 && AllCStrings(argv)
    ensures WalkStage(options, values, argv, env).store.values == values
  {
    assert argv[1..] == [];
  }

  /**
   * Value precedence: a value given on the command line after a flag naming a visible
   * registered option wins over its default and over every configuration file, when it
   * parses as the option's type.
   */
  lemma CommandLineWins(options: Schema, description: string, threshold: LogLevel, loadConfig: bool,
                        values: map<string, Value>, argv: seq<string>, env: Env)
    requires |argv| >= 3 && AllCStrings(argv)
    requires WellKeyed(options)
    requires !Aborts(MaxLevel(FormatRecords(options, description)), threshold)
    requires var f := argv[|argv| - 2];
             var tt := GetTokenType(f, env.lib);
             && (tt == FLAG || tt == SHORTFLAG)
             && ResolveOption(options, f, tt).Some?
             && !ResolveOption(options, f, tt).value.hidden
             && GetTokenType(argv[|argv| - 1], env.lib) == VALUE
             && !ParseValue(argv[|argv| - 1], ResolveOption(options, f, tt).value.Type(), env.lib).IsEmpty()
    ensures var f := argv[|argv| - 2];
            var o := ResolveOption(options, f, GetTokenType(f, env.lib)).value;
            var r := ParseSpec(options, description, threshold, loadConfig, values, argv, env);
            o.flag in r.values && r.values[o.flag] == ParseValue(argv[|argv| - 1], o.Type(), env.lib)
  {
    var files := FileStage(options, loadConfig, Defaults(options, values), argv, env);
    WalkEndsWithFlagValue(options, files.values, argv, env);
    ParsedValues(options, description, threshold, loadConfig, values, argv, env);
  }

  /** The walk of an argument list that ends with a flag and a value of its option's type stores that value. */
  lemma WalkEndsWithFlagValue(options: Schema, values: map<string, Value>, argv: seq<string>, env: Env)
    requires |argv| >= 3 && AllCStrings(argv)
    requires WellKeyed(options)
    requires var f := argv[|argv| - 2];
             var tt := GetTokenType(f, env.lib);
             && (tt == FLAG || tt == SHORTFLAG)
             && ResolveOption(options, f, tt).Some?
             && GetTokenType(argv[|argv| - 1], env.lib) == VALUE
             && !ParseValue(argv[|argv| - 1], ResolveOption(options, f, tt).value.Type(), env.lib).IsEmpty()
    ensures var f := argv[|argv| - 2];
            var o := ResolveOption(options, f, GetTokenType(f, env.lib)).value;
            var walked := WalkStage(options, values, argv, env).store.values;
            o.flag in walked && walked[o.flag] == ParseValue(argv[|argv| - 1], o.Type(), env.lib)
  {
    var f := argv[|argv| - 2];
    var v := argv[|argv| - 1];
    var tt := GetTokenType(f, env.lib);
    var o := ResolveOption(options, f, tt).value;
    assert options[FlagName(options, f, tt)] == o && o.flag == FlagName(options, f, tt);
    var pre := argv[1..|argv| - 2];
    assert argv[1..] == pre + [f, v];
    ArgumentsAreCStrings(argv);
    assert AllCStrings(pre) by {
      forall t | t in pre ensures IsCString(t) { assert t in argv[1..]; }
    }
    FlagThenValue(options, WalkState(Store(values, []), NoCursor), pre, f, v, env.lib);
  }

  /** When the schema check lets parse go on, its values are the walked ones with hidden options erased. */
  lemma ParsedValues(options: Schema, description: string, threshold: LogLevel, loadConfig: bool,
                     values: map<string, Value>, argv: seq<string>, env: Env)
    requires |argv| >= 1 && AllCStrings(argv)
    requires !Aborts(MaxLevel(FormatRecords(options, description)), threshold)
    ensures var files := FileStage(options, loadConfig, Defaults(options, values), argv, env);
            ParseSpec(options, description, threshold, loadConfig, values, argv, env).values
              == EraseHidden(options, WalkStage(options, files.values, argv, env).store.values)
  {
  }

  // ---- Config::serialize ----

  datatype ExportFormat = JSON | CSV

  /** serialize writes JSON exactly for a ".json"/".JSON" path and CSV otherwise, whatever format it is asked for. */
  function ExportFormatFor(path: string): (f: ExportFormat)
    ensures f == JSON <==> IsJsonPath(path)
  {
    if IsJsonPath(path) then JSON else CSV
  }

  /** The text serialize returns, or None when picojson throws while the document is built. */
  function SerializeText(values: map<string, Value>, path: string, env: Env): (r: Maybe<string>)
    ensures ExportFormatFor(path) == CSV ==> r == Some(CsvText(values, env.lib))
  {
    if ExportFormatFor(path) == JSON then
      match ExportTree(values, env.lib)
      case None => None
      case Some(doc) => Some(env.printJson(doc))
    else Some(CsvText(values, env.lib))
  }

  /**
   * Saving to a ".json" path fails, with nothing written, when a value is a NaN or infinite
   * NUMBER: picojson refuses to hold it. Every other path still gets its CSV text.
   */
  lemma SerializeNonFinite(values: map<string, Value>, path: string, env: Env)
    requires exists k :: k in values && Overflows(values[k])
    ensures SerializeText(values, path, env).None? <==> ExportFormatFor(path) == JSON
  {
    ExportTreeThrows(values, env.lib);
  }

  /**
   * Saving to a ".csv" file and loading that file with config() restores every value that
   * survives CSV (see CsvRoundTrip); flags that were not saved keep their values.
   */
  lemma SaveThenLoadCsv(options: Schema, base: map<string, Value>, values: map<string, Value>, path: string, env: Env)
    requires Standard(env.lib)
    requires IsCsvPath(path)
    requires forall k :: k in values ==> CsvSafe(k) && CsvSafe(CsvField(values[k], env.lib))
    requires path in env.files && Some(env.files[path]) == SerializeText(values, path, env)
    ensures var r := FileLoad(options, base, path, env);
      && r.ok
      && (forall k :: k in values && Restorable(options, k, values[k]) ==> k in r.store.values && r.store.values[k] == values[k])
      && (forall k :: k !in values ==> (k in r.store.values <==> k in base) && (k in base ==> r.store.values[k] == base[k]))
  {
    assert !IsJsonPath(path);
    CsvRoundTrip(options, base, values, env.lib);
  }

  /**
   * Saving to a ".json" file and loading it back restores every value, for undotted flags
   * whose values all survive JSON (see JsonRoundTrip), provided picojson reads back the text
   * it printed.
   */
  lemma SaveThenLoadJson(options: Schema, base: map<string, Value>, values: map<string, Value>, path: string, env: Env)
    requires Standard(env.lib)
    requires IsJsonPath(path)
    requires forall k :: k in values ==> Undotted(k) && (values[k].Unknown? || JsonRestorable(options, k, values[k]))
    requires ExportTree(values, env.lib).Some?
    requires env.parseJson(env.printJson(ExportTree(values, env.lib).value)) == ExportTree(values, env.lib).value
    requires path in env.files && Some(env.files[path]) == SerializeText(values, path, env)
    ensures var r := FileLoad(options, base, path, env);
      && r.ok && r.store.records == []
      && (forall k :: k in values && !values[k].Unknown? ==> k in r.store.values && r.store.values[k] == values[k])
  {
    assert !IsCsvPath(path);
    JsonRoundTrip(options, base, values, env.lib);
  }
}
