/**
 * miniconf::Config: the schema `_options`, the resolved values `_optionValues`, the parse log
 * `_log` and the settings, all updated in place by its methods. Each method that runs one of
 * the engine's loops is proved to compute the specification function of the module that
 * defines that phase; what the phases promise is proved about those functions.
 */
module Miniconf {
  import opened Wrappers
  import opened KeyOrder
  import opened CNumbers
  import opened Values
  import opened Options
  import opened Logging
  import opened Tokens
  import opened Schema
  import opened Store
  import opened CommandLine
  import opened CsvFormat
  import opened JsonFormat
  import opened Pipeline
  import CText

  /** The option enableHelp registers: "--help"/"-h", a hidden BOOL that defaults to false. */
  const HelpOption := Option("help", "h", "Display the help message", Bool(false), false, true)

  /** The option enableConfig registers: "--config"/"-cfg", a hidden STRING that defaults to "". */
  const ConfigOption := Option("config", "cfg", "Input configuration file (JSON/CSV)", Str(""), false, true)

  /** The schema after Config::option(flag) and the setters chained on the option it returns (`edit`). */
  function Registered(options: Schema, flag: string, edit: Option -> Option): (r: Schema)
    ensures r.Keys == options.Keys + {flag}
    ensures forall k :: k in options && k != flag ==> r[k] == options[k]
    ensures flag in options ==> r[flag] == edit(options[flag])
    ensures flag !in options ==> r[flag] == edit(NewOption().WithFlag(flag))
  {
    var current := if flag in options then options[flag] else NewOption().WithFlag(flag);
    options[flag := edit(current)]
  }

  /**
   * Registering keeps every option stored under its own flag, as long as the setters do not
   * rename the option.
   */
  lemma RegisterKeepsWellKeyed(options: Schema, flag: string, edit: Option -> Option)
    requires WellKeyed(options)
    requires forall o :: edit(o).flag == o.flag
    ensures WellKeyed(Registered(options, flag, edit))
  {
    var r := Registered(options, flag, edit);
    forall k | k in r ensures r[k].flag == k {
      if k == flag && flag !in options {
        assert r[k] == edit(NewOption().WithFlag(flag));
      }
    }
  }

  /** option(flag) on a registered flag keeps its settings: with no setter chained it changes nothing. */
  lemma RegisterExistingKeeps(options: Schema, flag: string)
    requires flag in options
    ensures Registered(options, flag, o => o) == options
  {
    var r := Registered(options, flag, o => o);
    assert r.Keys == options.Keys;
  }

  /**
   * The schema after enableHelp(enabled): the help option is added when help is enabled and
   * absent; in every other case it is removed, so enabling help a second time removes it.
   */
  function HelpToggled(options: Schema, enabled: bool): (r: Schema)
    ensures forall k :: k != "help" ==> (k in r <==> k in options) && (k in r ==> r[k] == options[k])
    ensures "help" in r <==> enabled && "help" !in options
    ensures "help" in r ==> r["help"] == HelpOption
  {
    if enabled && "help" !in options then options["help" := HelpOption] else options - {"help"}
  }

  /**
   * The schema after enableConfig(enabled) while automatic help is `autoHelp`: the config option
   * is added when automatic help (not configuration loading) is on and it is absent; in every
   * other case it is removed.
   */
  function ConfigToggled(options: Schema, autoHelp: bool): (r: Schema)
    ensures forall k :: k != "config" ==> (k in r <==> k in options) && (k in r ==> r[k] == options[k])
    ensures "config" in r <==> autoHelp && "config" !in options
    ensures "config" in r ==> r["config"] == ConfigOption
  {
    if autoHelp && "config" !in options then options["config" := ConfigOption] else options - {"config"}
  }

  /** The schema a new Config starts with: the help and config options. */
  lemma InitialSchema()
    ensures ConfigToggled(HelpToggled(map[], true), true) == map["help" := HelpOption, "config" := ConfigOption]
  {
    var r := ConfigToggled(HelpToggled(map[], true), true);
    assert r.Keys == {"help", "config"};
  }

  /**
   * On a new Config, enableHelp(false) followed by enableConfig(true) leaves configuration
   * loading on but removes the config option: the option follows the help setting, not the
   * argument.
   */
  lemma ConfigOptionFollowsHelp()
    ensures var start := map["help" := HelpOption, "config" := ConfigOption];
            "config" !in ConfigToggled(HelpToggled(start, false), false)
            && "config" in ConfigToggled(HelpToggled(start, true) - {"config"}, true)
  {
  }

  /** Sequence concatenation is associative (regrouping records around a loop step). */
  lemma Regroup<T>(a: seq<T>, b: seq<T>, c: seq<T>)
    ensures a + (b + c) == (a + b) + c
  {
  }

  /** Regrouping the four groups of records checkFormat reports about one option after the earlier ones. */
  lemma Chain(r: seq<LogRecord>, a: seq<LogRecord>, b: seq<LogRecord>, c: seq<LogRecord>, d: seq<LogRecord>)
    ensures (((r + a) + b) + c) + d == r + ((a + b) + (c + d))
  {
  }

  /** checkFormat's outer loop: the first remaining option's records, then the rest. */
  lemma SchemaRecordsStep(options: Schema, keys: set<string>)
    requires keys != {} && keys <= options.Keys
    ensures SchemaRecords(options, keys) ==
              OptionRecords(options, options[Least(keys)]) + SchemaRecords(options, keys - {Least(keys)})
  {
  }

  /** What checkFormat reports about one option, part by part. */
  lemma OptionRecordsParts(options: Schema, o: Option)
    ensures OptionRecords(options, o) ==
              (if !o.required && o.defaultValue.IsEmpty() then [LogRecord(ERROR, o.flag, "default value is not defined")] else [])
              + DuplicateRecords(options, o, options.Keys)
              + ((if o.description == "" then [LogRecord(WARNING, o.flag, "no description text for argument")] else [])
                 + (if o.shortflag == "" then [LogRecord(WARNING, o.flag, "no short flag is provided")] else []))
  {
  }

  /** Appending no records leaves a sequence as it was. */
  lemma AppendNothing<T>(a: seq<T>)
    ensures a + [] == a && [] + a == a
  {
  }

  /** loadCSV's inner loop: applying one more pair of the line. */
  lemma ApplyNextPair(options: Schema, start: Store, done: seq<(string, string)>, pairs: seq<(string, string)>, p: nat, lib: CLib)
    requires p < |pairs|
    ensures ApplyPairs(options, start, done + pairs[..p + 1], lib)
            == ApplyPair(options, ApplyPairs(options, start, done + pairs[..p], lib), pairs[p], lib)
  {
    assert done + pairs[..p + 1] == (done + pairs[..p]) + [pairs[p]];
    assert ((done + pairs[..p]) + [pairs[p]])[..|done + pairs[..p]|] == done + pairs[..p];
  }

  /** The pair of fields 2p and 2p + 1 applied after the pairs before it. */
  lemma ApplyFieldPair(options: Schema, start: Store, done: seq<(string, string)>, fields: seq<string>, i: nat, p: nat,
                       lib: CLib, before: Store, after: Store)
    requires i == 2 * p && i < |fields|
    requires before == ApplyPairs(options, start, done + FieldPairs(fields)[..p], lib)
    requires after == ApplyPair(options, before, (fields[i], if i + 1 < |fields| then fields[i + 1] else ""), lib)
    ensures after == ApplyPairs(options, start, done + FieldPairs(fields)[..p + 1], lib)
  {
    var pairs := FieldPairs(fields);
    PairAt(fields, p);
    assert pairs[p] == (fields[i], if i + 1 < |fields| then fields[i + 1] else "");
    assert after == ApplyPair(options, before, pairs[p], lib);
    ApplyNextPair(options, start, done, pairs, p, lib);
  }

  /** parse's second loop: the walk over one more argument is one more step. */
  lemma WalkNext(options: Schema, start: WalkState, argv: seq<string>, i: nat, lib: CLib)
    requires 1 <= i < |argv| && AllCStrings(argv)
    ensures IsCString(argv[i]) && AllCStrings(argv[1..i]) && AllCStrings(argv[1..i + 1])
    ensures Walk(options, start, argv[1..i + 1], lib) == Step(options, Walk(options, start, argv[1..i], lib), argv[i], lib)
  {
    assert argv[i] in argv;
    assert forall t :: t in argv[1..i] ==> t in argv;
    assert argv[1..i + 1] == argv[1..i] + [argv[i]];
    WalkSnoc(options, start, argv[1..i], argv[i], lib);
  }

  /** The prefix of a sequence up to its length is the whole sequence. */
  lemma Whole<T>(a: seq<T>)
    ensures a[..|a|] == a
  {
  }

  /** parseJSON's member loop: one more member visited. */
  lemma MembersStep(options: Schema, acc: Loaded, owner: Json, keys: set<string>, flag: string, lib: CLib)
    requires owner.JObject? && keys <= owner.members.Keys && keys != {}
    ensures var k := Least(keys);
            MembersFrom(options, acc, owner, keys, flag, lib) ==
              if acc.ok then
                var c := JsonLoad(options, acc.store.values, owner.members[k], ChildFlag(flag, k), lib);
                MembersFrom(options, Loaded(Store(c.store.values, acc.store.records + c.store.records), c.ok), owner, keys - {k}, flag, lib)
              else MembersFrom(options, acc, owner, keys - {k}, flag, lib)
  {
  }

  /** serialize's CSV loop: the line of the least remaining flag, then the rest. */
  lemma CsvLinesStep(values: map<string, Value>, keys: set<string>, lib: CLib)
    requires keys <= values.Keys && keys != {}
    ensures CsvLines(values, keys, lib) == CsvLine(Least(keys), values[Least(keys)], lib) + CsvLines(values, keys - {Least(keys)}, lib)
  {
  }

  /** loadCSV reads the pairs of the text's lines, split at line breaks, in order. */
  lemma CsvLoadUnfold(options: Schema, values: map<string, Value>, text: string, lib: CLib)
    ensures CsvLoad(options, values, text, lib) == ApplyPairs(options, Store(values, []), LinesPairs(CText.Split(text, '\n')), lib)
  {
  }

  /** loadCSV's outer loop: the pairs of one more line, none for an empty line. */
  lemma LinesPairsNext(lines: seq<string>, i: nat)
    requires i < |lines|
    ensures lines[i] == "" ==> LinesPairs(lines[..i + 1]) == LinesPairs(lines[..i])
    ensures lines[i] != "" ==> LinesPairs(lines[..i + 1]) == LinesPairs(lines[..i]) + FieldPairs(CText.Split(lines[i], ','))
  {
    var line := lines[i];
    assert lines[..i + 1] == lines[..i] + [line];
    LinesPairsSnoc(lines[..i], line);
    if line == "" {
      assert LinePairs(line) == [];
      AppendNothing(LinesPairs(lines[..i]));
    } else {
      assert LinePairs(line) == FieldPairs(CText.Split(line, ','));
    }
  }

  /** serialize's CSV loop: writing the least remaining flag's line keeps the text a prefix of the whole. */
  lemma CsvLinesNext(text: string, values: map<string, Value>, keys: set<string>, lib: CLib)
    requires keys <= values.Keys && keys != {}
    ensures var k := Least(keys);
      text + CsvLines(values, keys, lib) ==
      (text + (k + "," + CsvField(values[k], lib) + "\n")) + CsvLines(values, keys - {k}, lib)
  {
    var k := Least(keys);
    CsvLinesStep(values, keys, lib);
    Regroup(text, CsvLine(k, values[k], lib), CsvLines(values, keys - {k}, lib));
  }

  /** The log of parse: the records of its four phases, each filtered by the threshold as it is written. */
  lemma VisiblePhases(threshold: LogLevel, log0: seq<LogRecord>, a: seq<LogRecord>, b: seq<LogRecord>, c: seq<LogRecord>)
    ensures ((log0 + Visible(threshold, a)) + Visible(threshold, b)) + Visible(threshold, c)
            == log0 + Visible(threshold, a + b + c)
  {
    VisibleAppend(threshold, a, b);
    VisibleAppend(threshold, a + b, c);
    Regroup(log0, Visible(threshold, a), Visible(threshold, b));
    Regroup(log0, Visible(threshold, a + b), Visible(threshold, c));
  }

  /** parse when the schema check fails: nothing but the schema's records, and false. */
  lemma ParseStopsEarly(options: Schema, description: string, threshold: LogLevel, loadConfig: bool,
                        values: map<string, Value>, argv: seq<string>, env: Env)
    requires |argv| >= 1 && AllCStrings(argv)
    requires Aborts(MaxLevel(FormatRecords(options, description)), threshold)
    ensures ParseSpec(options, description, threshold, loadConfig, values, argv, env)
            == Outcome(values, FormatRecords(options, description), false)
  {
  }

  /** parse when the schema check passes: the schema's records, then those of the stages. */
  lemma ParseGoesOn(options: Schema, description: string, threshold: LogLevel, loadConfig: bool,
                    values: map<string, Value>, argv: seq<string>, env: Env,
                    ok: bool, values': map<string, Value>, records: seq<LogRecord>,
                    log0: seq<LogRecord>, log1: seq<LogRecord>, log2: seq<LogRecord>, start: map<string, Value>)
    requires |argv| >= 1 && AllCStrings(argv)
    requires !Aborts(MaxLevel(FormatRecords(options, description)), threshold)
    requires start == values
    requires var s := ParseStages(options, threshold, loadConfig, start, argv, env);
             ok == s.ok && values' == s.values && records == s.records
    requires log1 == log0 + Visible(threshold, FormatRecords(options, description))
    requires log2 == log1 + Visible(threshold, records)
    ensures ok == ParseSpec(options, description, threshold, loadConfig, values, argv, env).ok
    ensures values' == ParseSpec(options, description, threshold, loadConfig, values, argv, env).values
    ensures log2 == log0 + Visible(threshold, ParseSpec(options, description, threshold, loadConfig, values, argv, env).records)
  {
    var format := FormatRecords(options, description);
    var r := ParseSpec(options, description, threshold, loadConfig, values, argv, env);
    assert r.records == format + records;
    VisibleAppend(threshold, format, records);
    Regroup(log0, Visible(threshold, format), Visible(threshold, records));
  }

  /** LoadFiles' loop: the file at j loaded on top of the ones before it. */
  lemma NextFile(options: Schema, start: map<string, Value>, paths: seq<string>, j: nat, env: Env, before: Store, after: Store)
    requires j < |paths|
    requires before == FilesLoad(options, start, paths[..j], env)
    requires var r := FileLoad(options, before.values, paths[j], env);
             after == Store(r.store.values, before.records + r.store.records)
    ensures after == FilesLoad(options, start, paths[..j + 1], env)
  {
    assert paths[..j + 1][..j] == paths[..j];
  }

  /** The maximum of the records grows one record at a time as worseLevel folds it. */
  lemma MaxLevelSnoc(records: seq<LogRecord>, x: LogRecord)
    ensures MaxLevel(records + [x]) == WorseLevel(MaxLevel(records), x.level)
  {
    assert (records + [x])[..|records|] == records;
  }

  class Config {
    var options: Schema
    var values: map<string, Value>
    var log: seq<LogRecord>
    var logLevel: LogLevel
    var verbose: bool
    var exeName: string
    var description: string
    var autoHelp: bool
    var loadConfig: bool

    /** Config(): quiet, WARNING threshold, automatic help and configuration loading on. */
    constructor ()
      ensures options == map["help" := HelpOption, "config" := ConfigOption]
      ensures values == map[] && log == []
      ensures logLevel == WARNING && !verbose && exeName == "" && description == ""
      ensures autoHelp && loadConfig
    {
      verbose := false;
      logLevel := WARNING;
      exeName := "";
      description := "";
      autoHelp := true;
      loadConfig := true;
      options := map[];
      values := map[];
      log := [];
      new;
      EnableHelp(true);
      EnableConfig(true);
      InitialSchema();
    }

    /** Config::option(flag) with the setters chained on the returned option. */
    method Register(flag: string, edit: Option -> Option)
      modifies this`options
      ensures options == Registered(old(options), flag, edit)
    {
      if flag !in options {
        options := options[flag := NewOption().WithFlag(flag)];
      }
      options := options[flag := edit(options[flag])];
    }

    /** Config::remove: unregisters the option, reporting whether there was one. */
    method Remove(flag: string) returns (found: bool)
      modifies this`options
      ensures found <==> flag in old(options)
      ensures options == old(options) - {flag}
    {
      found := FindOption(flag);
      if found {
        options := options - {flag};
      }
    }

    /** Config::findOption: whether an option is registered under the flag. */
    method FindOption(flag: string) returns (found: bool)
      ensures found <==> flag in options
    {
      found := flag in options;
    }

    /** Config::contains: whether the flag has a value. */
    method Contains(flag: string) returns (found: bool)
      ensures found <==> flag in values
    {
      found := flag in values;
    }

    /** Config::operator[] (non-const): the value under the flag, inserted UNKNOWN when missing. */
    method Index(flag: string) returns (v: Value)
      modifies this`values
      ensures flag in old(values) ==> v == old(values)[flag] && values == old(values)
      ensures flag !in old(values) ==> v == Unknown && values == old(values)[flag := Unknown]
    {
      if flag !in values {
        values := values[flag := Unknown];
      }
      v := values[flag];
    }

    /** Config::operator[] (const): std::map::at, which throws (None) for a flag without a value. */
    method At(flag: string) returns (v: Maybe<Value>)
      ensures v.Some? <==> flag in values
      ensures v.Some? ==> v.value == values[flag]
    {
      if flag in values {
        v := Some(values[flag]);
      } else {
        v := None;
      }
    }

    /** An assignment through the reference operator[] returns. */
    method Assign(flag: string, v: Value)
      modifies this`values
      ensures values == old(values)[flag := v]
    {
      values := values[flag := v];
    }

    /** Config::description(desc). */
    method SetDescription(desc: string)
      modifies this`description
      ensures description == desc
    {
      description := desc;
    }

    /** Config::verbose(value). */
    method SetVerbose(value: bool)
      modifies this`verbose
      ensures verbose == value
    {
      verbose := value;
    }

    /** Config::log(LogLevel): the threshold below which records are dropped. */
    method SetLogLevel(level: LogLevel)
      modifies this`logLevel
      ensures logLevel == level
    {
      logLevel := level;
    }

    /** Config::log(level, token, msg): the record is kept when its level reaches the threshold. */
    method Log(level: LogLevel, token: string, msg: string)
      modifies this`log
      ensures log == old(log) + Visible(logLevel, [LogRecord(level, token, msg)])
      ensures level.Rank() >= logLevel.Rank() ==> log == old(log) + [LogRecord(level, token, msg)]
      ensures level.Rank() < logLevel.Rank() ==> log == old(log)
    {
      var rec := LogRecord(level, token, msg);
      assert [rec][..0] == [];
      if level.Rank() < logLevel.Rank() {
        return;
      }
      log := log + [rec];
    }

    /** Config::enableHelp(enabled). */
    method EnableHelp(enabled: bool)
      modifies this`autoHelp, this`options
      ensures autoHelp == enabled
      ensures options == HelpToggled(old(options), enabled)
    {
      autoHelp := enabled;
      var present := FindOption("help");
      if autoHelp && !present {
        Register("help", (o: Option) => o.WithShortflag("h").WithDefault(Bool(false))
                               .WithDescription("Display the help message").WithRequired(false).WithHidden(true));
      } else {
        present := FindOption("help");
        if present {
          options := options - {"help"};
        }
      }
    }

    /** Config::enableConfig(enabled): sets configuration loading; the option follows automatic help. */
    method EnableConfig(enabled: bool)
      modifies this`loadConfig, this`options
      ensures loadConfig == enabled
      ensures options == ConfigToggled(old(options), autoHelp)
    {
      loadConfig := enabled;
      var present := FindOption("config");
      if autoHelp && !present {
        Register("config", (o: Option) => o.WithShortflag("cfg").WithDefault(Str(""))
                                 .WithDescription("Input configuration file (JSON/CSV)").WithRequired(false).WithHidden(true));
      } else {
        present := FindOption("config");
        if present {
          options := options - {"config"};
        }
      }
    }

    /** Config::setDefaultValues: every registered flag gets its option's default. */
    method SetDefaultValues()
      modifies this`values
      ensures values == Defaults(options, old(values))
    {
      var remaining := options.Keys;
      while remaining != {}
        invariant remaining <= options.Keys
        invariant values.Keys == old(values).Keys + (options.Keys - remaining)
        invariant forall k :: k in options && k !in remaining ==> values[k] == options[k].defaultValue
        invariant forall k :: k in old(values) && !(k in options && k !in remaining) ==> values[k] == old(values)[k]
        decreases remaining
      {
        var k := Least(remaining);
        values := values[k := options[k].defaultValue];
        remaining := remaining - {k};
      }
      assert values.Keys == Defaults(options, old(values)).Keys;
    }

    /** Config::translateShortflag: the first registered flag in key order with that short flag, else `s`. */
    method TranslateShortflag(s: string) returns (t: string)
      ensures t == ShortflagTarget(options, s)
    {
      var remaining := options.Keys;
      while remaining != {}
        invariant remaining <= options.Keys
        invariant TargetFrom(options, remaining, s) == ShortflagTarget(options, s)
        decreases remaining
      {
        var k := Least(remaining);
        if options[k].shortflag == s {
          return k;
        }
        remaining := remaining - {k};
      }
      t := s;
    }

    /** Config::getOption: the option a flag token names, None for a null pointer. */
    method GetOption(token: string, tt: TokenType) returns (found: Maybe<Option>)
      requires tt == FLAG ==> |token| >= 2
      requires tt == SHORTFLAG ==> |token| >= 1
      ensures found == ResolveOption(options, token, tt)
    {
      var flag := "";
      if tt == FLAG {
        flag := token[2..];
      } else if tt == SHORTFLAG {
        flag := TranslateShortflag(token[1..]);
      }
      if flag == "" {
        return None;
      }
      var registered := FindOption(flag);
      if registered {
        return Some(options[flag]);
      }
      return None;
    }

    /**
     * Config::checkFormat: reports each unusable option, shared short flag, missing description
     * and missing short flag, and returns the worst level reported.
     */
    method CheckFormat() returns (level: LogLevel)
      modifies this`log
      ensures level == MaxLevel(FormatRecords(options, description))
      ensures log == old(log) + Visible(logLevel, FormatRecords(options, description))
    {
      ghost var log0 := log;
      ghost var recs: seq<LogRecord>;
      level, recs := CheckOptions(INFO, [], log0);
      ghost var schema := SchemaRecords(options, options.Keys);
      AppendNothing(schema);
      if description == "" {
        level, recs := Report(WARNING, "", "No program description text is provided", level, recs, log0);
      }
    }

    /** The outer loop of checkFormat, over the options in key order. */
    method CheckOptions(level: LogLevel, ghost recs: seq<LogRecord>, ghost log0: seq<LogRecord>)
      returns (level': LogLevel, ghost recs': seq<LogRecord>)
      requires level == MaxLevel(recs)
      requires log == log0 + Visible(logLevel, recs)
      modifies this`log
      ensures recs' == recs + SchemaRecords(options, options.Keys)
      ensures level' == MaxLevel(recs')
      ensures log == log0 + Visible(logLevel, recs')
    {
      level', recs' := level, recs;
      var remaining := options.Keys;
      while remaining != {}
        invariant remaining <= options.Keys
        invariant recs' + SchemaRecords(options, remaining) == recs + SchemaRecords(options, options.Keys)
        invariant level' == MaxLevel(recs')
        invariant log == log0 + Visible(logLevel, recs')
        decreases remaining
      {
        var key := Least(remaining);
        ghost var before := recs';
        level', recs' := CheckOption(options[key], level', recs', log0);
        SchemaRecordsStep(options, remaining);
        Regroup(before, OptionRecords(options, options[key]), SchemaRecords(options, remaining - {key}));
        remaining := remaining - {key};
      }
      AppendNothing(recs');
    }

    /** One pass of checkFormat's outer loop: everything it reports about option `o`. */
    method CheckOption(o: Option, level: LogLevel, ghost recs: seq<LogRecord>, ghost log0: seq<LogRecord>)
      returns (level': LogLevel, ghost recs': seq<LogRecord>)
      requires level == MaxLevel(recs)
      requires log == log0 + Visible(logLevel, recs)
      modifies this`log
      ensures recs' == recs + OptionRecords(options, o)
      ensures level' == MaxLevel(recs')
      ensures log == log0 + Visible(logLevel, recs')
    {
      ghost var first := if !o.required && o.defaultValue.IsEmpty() then [LogRecord(ERROR, o.flag, "default value is not defined")] else [];
      ghost var desc := if o.description == "" then [LogRecord(WARNING, o.flag, "no description text for argument")] else [];
      ghost var short := if o.shortflag == "" then [LogRecord(WARNING, o.flag, "no short flag is provided")] else [];
      level', recs' := ReportIf(!o.required && o.defaultValue.IsEmpty(), ERROR, o.flag, "default value is not defined", level, recs, log0);
      level', recs' := CheckDuplicates(o, level', recs', log0);
      level', recs' := ReportIf(o.description == "", WARNING, o.flag, "no description text for argument", level', recs', log0);
      level', recs' := ReportIf(o.shortflag == "", WARNING, o.flag, "no short flag is provided", level', recs', log0);
      OptionRecordsParts(options, o);
      Chain(recs, first, DuplicateRecords(options, o, options.Keys), desc, short);
    }

    /** The inner loop of checkFormat: an error for each option that shares `o`'s short flag. */
    method CheckDuplicates(o: Option, level: LogLevel, ghost recs: seq<LogRecord>, ghost log0: seq<LogRecord>)
      returns (level': LogLevel, ghost recs': seq<LogRecord>)
      requires level == MaxLevel(recs)
      requires log == log0 + Visible(logLevel, recs)
      modifies this`log
      ensures recs' == recs + DuplicateRecords(options, o, options.Keys)
      ensures level' == MaxLevel(recs')
      ensures log == log0 + Visible(logLevel, recs')
    {
      level', recs' := level, recs;
      var others := options.Keys;
      while others != {}
        invariant others <= options.Keys
        invariant recs' + DuplicateRecords(options, o, others) == recs + DuplicateRecords(options, o, options.Keys)
        invariant level' == MaxLevel(recs')
        invariant log == log0 + Visible(logLevel, recs')
        decreases others
      {
        var k := Least(others);
        var o2 := options[k];
        ghost var here := if Clash(o, o2) then [LogRecord(ERROR, o.flag, "duplicate short flags (" + o2.shortflag + ")")] else [];
        ghost var tail := DuplicateRecords(options, o, others - {k});
        assert DuplicateRecords(options, o, others) == here + tail;
        ghost var prev := recs';
        if o.flag != o2.flag && o.shortflag == o2.shortflag && o.shortflag != "" {
          level', recs' := Report(ERROR, o.flag, "duplicate short flags (" + o2.shortflag + ")", level', recs', log0);
        } else {
          AppendNothing(prev);
        }
        Regroup(prev, here, tail);
        others := others - {k};
      }
    }

    /** `log(level, token, msg)`, with the records reported so far (`recs`, since the log was `log0`) kept alongside. */
    method Record(lv: LogLevel, token: string, msg: string, ghost recs: seq<LogRecord>, ghost log0: seq<LogRecord>)
      returns (ghost recs': seq<LogRecord>)
      requires log == log0 + Visible(logLevel, recs)
      modifies this`log
      ensures recs' == recs + [LogRecord(lv, token, msg)]
      ensures log == log0 + Visible(logLevel, recs')
    {
      Log(lv, token, msg);
      recs' := recs + [LogRecord(lv, token, msg)];
      VisibleAppend(logLevel, recs, [LogRecord(lv, token, msg)]);
    }

    /** A `Report` that happens only when `cond` holds. */
    method ReportIf(cond: bool, lv: LogLevel, token: string, msg: string, level: LogLevel,
                    ghost recs: seq<LogRecord>, ghost log0: seq<LogRecord>)
      returns (level': LogLevel, ghost recs': seq<LogRecord>)
      requires level == MaxLevel(recs)
      requires log == log0 + Visible(logLevel, recs)
      modifies this`log
      ensures recs' == recs + (if cond then [LogRecord(lv, token, msg)] else [])
      ensures level' == MaxLevel(recs')
      ensures log == log0 + Visible(logLevel, recs')
    {
      if cond {
        level', recs' := Report(lv, token, msg, level, recs, log0);
      } else {
        level', recs' := level, recs;
        AppendNothing(recs);
      }
    }

    /** `log(level, token, msg)` followed by `errorLv = worseLevel(errorLv, level)`. */
    method Report(lv: LogLevel, token: string, msg: string, level: LogLevel,
                  ghost recs: seq<LogRecord>, ghost log0: seq<LogRecord>)
      returns (level': LogLevel, ghost recs': seq<LogRecord>)
      requires level == MaxLevel(recs)
      requires log == log0 + Visible(logLevel, recs)
      modifies this`log
      ensures recs' == recs + [LogRecord(lv, token, msg)]
      ensures level' == MaxLevel(recs')
      ensures log == log0 + Visible(logLevel, recs')
    {
      recs' := Record(lv, token, msg, recs, log0);
      level' := WorseLevel(level, lv);
      MaxLevelSnoc(recs, LogRecord(lv, token, msg));
    }

    /**
     * Config::validate: erases the values of hidden options, reports every empty value and
     * every visible option without a value, and returns the worst level reported.
     */
    method Validate() returns (level: LogLevel)
      modifies this`values, this`log
      ensures values == EraseHidden(options, old(values))
      ensures level == MaxLevel(ValidateRecords(options, old(values)))
      ensures log == old(log) + Visible(logLevel, ValidateRecords(options, old(values)))
    {
      EraseHiddenValues();
      ghost var log0 := log;
      level := INFO;
      ghost var recs: seq<LogRecord> := [];
      level, recs := ReportInvalid(level, recs, log0);
      ghost var invalid := InvalidValueRecords(values, values.Keys);
      ghost var undefined := UndefinedRecords(options, values, options.Keys);
      AppendNothing(invalid);
      level, recs := ReportUndefined(level, recs, log0);
      assert ValidateRecords(options, old(values)) == invalid + undefined;
    }

    /** The first loop of validate: the value of every hidden option is erased. */
    method EraseHiddenValues()
      modifies this`values
      ensures values == EraseHidden(options, old(values))
    {
      var remaining := options.Keys;
      while remaining != {}
        invariant remaining <= options.Keys
        invariant values.Keys <= old(values).Keys
        invariant forall k :: k in old(values) ==> (k in values <==> !(k in options && k !in remaining && options[k].hidden))
        invariant forall k :: k in values ==> values[k] == old(values)[k]
        decreases remaining
      {
        var k := Least(remaining);
        var present := Contains(k);
        if options[k].hidden && present {
          values := values - {k};
        }
        remaining := remaining - {k};
      }
      assert values.Keys == EraseHidden(options, old(values)).Keys;
    }

    /** The second loop of validate: an error for every empty value. */
    method ReportInvalid(level: LogLevel, ghost recs: seq<LogRecord>, ghost log0: seq<LogRecord>)
      returns (level': LogLevel, ghost recs': seq<LogRecord>)
      requires level == MaxLevel(recs)
      requires log == log0 + Visible(logLevel, recs)
      modifies this`log
      ensures recs' == recs + InvalidValueRecords(values, values.Keys)
      ensures level' == MaxLevel(recs')
      ensures log == log0 + Visible(logLevel, recs')
    {
      level', recs' := level, recs;
      var scan := values.Keys;
      while scan != {}
        invariant scan <= values.Keys
        invariant recs' + InvalidValueRecords(values, scan) == recs + InvalidValueRecords(values, values.Keys)
        invariant level' == MaxLevel(recs')
        invariant log == log0 + Visible(logLevel, recs')
        decreases scan
      {
        var k := Least(scan);
        ghost var here := if values[k].IsEmpty() then [LogRecord(ERROR, k, "option contains invalid value")] else [];
        ghost var tail := InvalidValueRecords(values, scan - {k});
        assert InvalidValueRecords(values, scan) == here + tail;
        ghost var prev := recs';
        if values[k].IsEmpty() {
          level', recs' := Report(ERROR, k, "option contains invalid value", level', recs', log0);
        } else {
          AppendNothing(prev);
        }
        Regroup(prev, here, tail);
        scan := scan - {k};
      }
    }

    /** The third loop of validate: an error for every visible option without a value. */
    method ReportUndefined(level: LogLevel, ghost recs: seq<LogRecord>, ghost log0: seq<LogRecord>)
      returns (level': LogLevel, ghost recs': seq<LogRecord>)
      requires level == MaxLevel(recs)
      requires log == log0 + Visible(logLevel, recs)
      modifies this`log
      ensures recs' == recs + UndefinedRecords(options, values, options.Keys)
      ensures level' == MaxLevel(recs')
      ensures log == log0 + Visible(logLevel, recs')
    {
      level', recs' := level, recs;
      var check := options.Keys;
      while check != {}
        invariant check <= options.Keys
        invariant recs' + UndefinedRecords(options, values, check) == recs + UndefinedRecords(options, values, options.Keys)
        invariant level' == MaxLevel(recs')
        invariant log == log0 + Visible(logLevel, recs')
        decreases check
      {
        var k := Least(check);
        ghost var here := if k !in values && !options[k].hidden then [LogRecord(ERROR, k, "option is undefined")] else [];
        ghost var tail := UndefinedRecords(options, values, check - {k});
        assert UndefinedRecords(options, values, check) == here + tail;
        ghost var prev := recs';
        var present := Contains(k);
        if !present && !options[k].hidden {
          level', recs' := Report(ERROR, k, "option is undefined", level', recs', log0);
        } else {
          AppendNothing(prev);
        }
        Regroup(prev, here, tail);
        check := check - {k};
      }
    }

    // ---- configuration files ----

    /**
     * Config::loadCSV: every line's comma-separated fields are read two at a time as a flag and
     * its value; a pair with a value is parsed as the option's type (STRING for an unknown flag)
     * and stored, and reported. It returns true whatever it reads.
     */
    method LoadCsv(text: string, lib: CLib) returns (ok: bool)
      modifies this`values, this`log
      ensures ok
      ensures values == CsvLoad(options, old(values), text, lib).values
      ensures log == old(log) + Visible(logLevel, CsvLoad(options, old(values), text, lib).records)
    {
      ok := true;
      ghost var log0 := log;
      ghost var start := Store(values, []);
      ghost var recs: seq<LogRecord> := [];
      var lines := CText.Split(text, '\n');
      var i := 0;
      while i < |lines|
        invariant 0 <= i <= |lines|
        invariant Store(values, recs) == ApplyPairs(options, start, LinesPairs(lines[..i]), lib)
        invariant log == log0 + Visible(logLevel, recs)
      {
        var line := lines[i];
        ghost var done := LinesPairs(lines[..i]);
        LinesPairsNext(lines, i);
        if line != "" {
          recs := LoadPairs(CText.Split(line, ','), lib, start, done, recs, log0);
        }
        i := i + 1;
      }
      assert lines[..|lines|] == lines;
      CsvLoadUnfold(options, old(values), text, lib);
    }

    /** The inner loop of loadCSV over the fields of one line, after the pairs `done` were applied to `start`. */
    method LoadPairs(fields: seq<string>, lib: CLib, ghost start: Store, ghost done: seq<(string, string)>,
                     ghost recs: seq<LogRecord>, ghost log0: seq<LogRecord>)
      returns (ghost recs': seq<LogRecord>)
      requires Store(values, recs) == ApplyPairs(options, start, done, lib)
      requires log == log0 + Visible(logLevel, recs)
      modifies this`values, this`log
      ensures Store(values, recs') == ApplyPairs(options, start, done + FieldPairs(fields), lib)
      ensures log == log0 + Visible(logLevel, recs')
    {
      recs' := recs;
      ghost var pairs := FieldPairs(fields);
      assert pairs[..0] == [];
      AppendNothing(done);
      var i := 0;
      ghost var p := 0;
      while i < |fields|
        invariant 0 <= p <= |pairs| && i == 2 * p
        invariant Store(values, recs') == ApplyPairs(options, start, done + pairs[..p], lib)
        invariant log == log0 + Visible(logLevel, recs')
      {
        PairAt(fields, p);
        ghost var before := Store(values, recs');
        recs' := LoadFieldPair(fields, i, lib, recs', log0);
        ApplyFieldPair(options, start, done, fields, i, p, lib, before, Store(values, recs'));
        i, p := i + 2, p + 1;
      }
      PairAt(fields, p);
      assert p == |pairs|;
      Whole(pairs);
    }

    /** The fields at i and i + 1 as the p-th pair of the line. */
    method LoadFieldPair(fields: seq<string>, i: nat, lib: CLib, ghost recs: seq<LogRecord>, ghost log0: seq<LogRecord>)
      returns (ghost recs': seq<LogRecord>)
      requires i < |fields|
      requires log == log0 + Visible(logLevel, recs)
      modifies this`values, this`log
      ensures Store(values, recs') == ApplyPair(options, Store(old(values), recs), (fields[i], if i + 1 < |fields| then fields[i + 1] else ""), lib)
      ensures log == log0 + Visible(logLevel, recs')
    {
      var flag := fields[i];
      var value := if i + 1 < |fields| then fields[i + 1] else "";
      recs' := LoadPair(flag, value, lib, recs, log0);
    }

    /** One pair of loadCSV's inner loop: a pair with a value is parsed, stored and reported. */
    method LoadPair(flag: string, value: string, lib: CLib, ghost recs: seq<LogRecord>, ghost log0: seq<LogRecord>)
      returns (ghost recs': seq<LogRecord>)
      requires log == log0 + Visible(logLevel, recs)
      modifies this`values, this`log
      ensures Store(values, recs') == ApplyPair(options, Store(old(values), recs), (flag, value), lib)
      ensures log == log0 + Visible(logLevel, recs')
    {
      recs' := recs;
      if value != "" {
        var registered := FindOption(flag);
        if registered {
          values := values[flag := ParseValue(value, options[flag].Type(), lib)];
          recs' := Record(INFO, flag, "value is loaded from config", recs', log0);
        } else {
          values := values[flag := ParseValue(value, STRING, lib)];
          recs' := Record(INFO, flag, "value is not defined in config, parsed as a string value", recs', log0);
        }
      }
    }

    /** Config::getJSONValue: stores a scalar the flag accepts, or reports a WARNING and fails. */
    method GetJsonValue(v: Json, flag: string, lib: CLib) returns (ok: bool)
      modifies this`values, this`log
      ensures var r := JsonFormat.GetJsonValue(options, old(values), v, flag, lib);
              ok == r.ok && values == r.store.values && log == old(log) + Visible(logLevel, r.store.records)
    {
      var registered := FindOption(flag);
      if registered {
        ok := GetRegisteredValue(v, flag, lib);
      } else {
        ok := GetStrayValue(v, flag, lib);
      }
    }

    /** getJSONValue for a registered flag: the JSON type must match the option's. */
    method GetRegisteredValue(v: Json, flag: string, lib: CLib) returns (ok: bool)
      requires flag in options
      modifies this`values, this`log
      ensures var r := JsonFormat.GetJsonValue(options, old(values), v, flag, lib);
              ok == r.ok && values == r.store.values && log == old(log) + Visible(logLevel, r.store.records)
    {
      ghost var scalar := JsonScalar(options, v, flag, lib);
      ok := true;
      var ty := options[flag].Type();
      if ty == INT && v.JNumber? {
        assert scalar == Some(Int(lib.doubleToInt(v.d)));
        values := values[flag := Int(lib.doubleToInt(v.d))];
      } else if ty == NUMBER && v.JNumber? {
        assert scalar == Some(Number(v.d));
        values := values[flag := Number(v.d)];
      } else if ty == BOOL && v.JBool? {
        assert scalar == Some(Bool(v.b));
        values := values[flag := Bool(v.b)];
      } else if ty == STRING && v.JString? {
        assert scalar == Some(Str(v.s));
        values := values[flag := Str(v.s)];
      } else {
        assert scalar == None;
        Log(WARNING, flag, "Unable to parse the option from config file, flag = " + flag);
        ok := false;
      }
      if ok {
        assert Visible(logLevel, []) == [];
        AppendNothing(old(log));
      }
    }

    /** getJSONValue for a flag no option has: a number is kept as NUMBER, a bool as BOOL, a string as STRING. */
    method GetStrayValue(v: Json, flag: string, lib: CLib) returns (ok: bool)
      requires flag !in options
      modifies this`values, this`log
      ensures var r := JsonFormat.GetJsonValue(options, old(values), v, flag, lib);
              ok == r.ok && values == r.store.values && log == old(log) + Visible(logLevel, r.store.records)
    {
      ok := true;
      if v.JNumber? {
        values := values[flag := Number(v.d)];
      } else if v.JBool? {
        values := values[flag := Bool(v.b)];
      } else if v.JString? {
        values := values[flag := Str(v.s)];
      } else {
        Log(WARNING, flag, "Unable to parse the option from config file.");
        ok := false;
      }
      if ok {
        assert Visible(logLevel, []) == [];
        AppendNothing(old(log));
      }
    }

    /**
     * Config::parseJSON(v, flag): a scalar is stored through getJSONValue, an object's members
     * are parsed in key order under their child flags until one fails, an array fails silently
     * and null fails with a WARNING.
     */
    method ParseJson(v: Json, flag: string, lib: CLib) returns (ok: bool)
      modifies this`values, this`log
      ensures var r := JsonLoad(options, old(values), v, flag, lib);
              ok == r.ok && values == r.store.values && log == old(log) + Visible(logLevel, r.store.records)
      decreases v
    {
      match v
      case JNumber(_) =>
        ok := GetJsonValue(v, flag, lib);
      case JBool(_) =>
        ok := GetJsonValue(v, flag, lib);
      case JString(_) =>
        ok := GetJsonValue(v, flag, lib);
      case JObject(m) =>
        ok := ParseMembers(v, flag, lib);
      case JArray(_) =>
        ok := false;
        assert Visible(logLevel, []) == [];
        AppendNothing(log);
      case JNull =>
        Log(WARNING, flag, "Unable to parse JSON, abort, flag = " + flag);
        ok := false;
    }

    /** The member loop of parseJSON: `success = success && parseJSON(member, childFlag)`. */
    method ParseMembers(v: Json, flag: string, lib: CLib) returns (ok: bool)
      requires v.JObject?
      modifies this`values, this`log
      ensures var r := MembersFrom(options, Loaded(Store(old(values), []), true), v, v.members.Keys, flag, lib);
              ok == r.ok && values == r.store.values && log == old(log) + Visible(logLevel, r.store.records)
      decreases v, 0
    {
      var m := v.members;
      ok := true;
      ghost var recs: seq<LogRecord> := [];
      AppendNothing(log);
      var remaining := m.Keys;
      while remaining != {}
        invariant remaining <= m.Keys
        invariant MembersFrom(options, Loaded(Store(values, recs), ok), v, remaining, flag, lib)
                  == MembersFrom(options, Loaded(Store(old(values), []), true), v, m.Keys, flag, lib)
        invariant log == old(log) + Visible(logLevel, recs)
        decreases remaining
      {
        var k := Least(remaining);
        MembersStep(options, Loaded(Store(values, recs), ok), v, remaining, flag, lib);
        if ok {
          ghost var before := values;
          ghost var logBefore := log;
          var child := flag + (if flag == "" then "" else ".") + k;
          assert child == ChildFlag(flag, k);
          ok := ParseJson(m[k], child, lib);
          ghost var c := JsonLoad(options, before, m[k], child, lib);
          VisibleAppend(logLevel, recs, c.store.records);
          Regroup(old(log), Visible(logLevel, recs), Visible(logLevel, c.store.records));
          recs := recs + c.store.records;
        }
        remaining := remaining - {k};
      }
    }

    /** Config::loadJSON: picojson parses the text (`env.parseJson`) and parseJSON loads the tree with the empty flag. */
    method LoadJson(text: string, env: Env) returns (ok: bool)
      modifies this`values, this`log
      ensures var r := JsonLoadDocument(options, old(values), env.parseJson(text), env.lib);
              ok == r.ok && values == r.store.values && log == old(log) + Visible(logLevel, r.store.records)
    {
      var doc := env.parseJson(text);
      ok := ParseJson(doc, "", env.lib);
    }

    /**
     * Config::config(path): reads the file (empty when it cannot be opened) and loads it as
     * CSV for a ".csv"/".CSV" path and as JSON otherwise.
     */
    method LoadConfig(path: string, env: Env) returns (ok: bool)
      modifies this`values, this`log
      ensures var r := FileLoad(options, old(values), path, env);
              ok == r.ok && values == r.store.values && log == old(log) + Visible(logLevel, r.store.records)
    {
      var content := ReadFile(env.files, path);
      var extension := CText.Extension(path);
      if extension == "json" || extension == "JSON" {
        ok := LoadJson(content, env);
      } else if extension == "csv" || extension == "CSV" {
        ok := LoadCsv(content, env.lib);
      } else {
        ok := LoadJson(content, env);
      }
    }

    /**
     * Config::serialize(path, format, pretty): the text of the values, JSON for a ".json"/".JSON"
     * path and CSV otherwise; `format` and `pretty` do not change it. None where picojson throws.
     */
    method Serialize(path: string, format: ExportFormat, pretty: bool, env: Env) returns (out: Maybe<string>)
      ensures out == SerializeText(values, path, env)
    {
      var extension := CText.Extension(path);
      var chosen := format;
      if extension == "json" || extension == "JSON" {
        chosen := JSON;
      } else {
        chosen := CSV;
      }
      if chosen == JSON {
        var tree := ExportJson(env.lib);
        if tree.None? {
          return None;
        }
        return Some(env.printJson(tree.value));
      }
      var text := ExportCsv(env.lib);
      return Some(text);
    }

    /** The JSON branch of serialize: the document built value by value in key order. */
    method ExportJson(lib: CLib) returns (doc: Maybe<Json>)
      ensures doc == ExportTree(values, lib)
    {
      var root: map<string, Json> := map[];
      var remaining := values.Keys;
      while remaining != {}
        invariant remaining <= values.Keys
        invariant TreeFrom(root, values, remaining, lib) == TreeFrom(map[], values, values.Keys, lib)
        decreases remaining
      {
        var k := Least(remaining);
        var next := ExportStep(root, k, values[k], lib);
        if next.None? {
          return None;
        }
        root := next.value;
        remaining := remaining - {k};
      }
      return Some(JObject(root));
    }

    /** The CSV branch of serialize: one "flag,value" line per value in key order. */
    method ExportCsv(lib: CLib) returns (text: string)
      ensures text == CsvText(values, lib)
    {
      text := "";
      AppendNothing(CsvText(values, lib));
      var remaining := values.Keys;
      while remaining != {}
        invariant remaining <= values.Keys
        invariant text + CsvLines(values, remaining, lib) == CsvText(values, lib)
        decreases remaining
      {
        var k := Least(remaining);
        var field := Print(values[k], lib);
        if values[k].Type() == STRING && |field| >= 2 {
          field := field[1..|field| - 1];
        }
        assert field == CsvField(values[k], lib);
        CsvLinesNext(text, values, remaining, lib);
        text := text + (k + "," + field + "\n");
        remaining := remaining - {k};
      }
      AppendNothing(text);
    }

    // ---- parse ----

    /**
     * Config::parse(argv): records the program name, checks the schema and gives up on an
     * error (unless the threshold is NONE), sets the defaults, loads the configuration files
     * named on the command line, walks the arguments, and validates.
     */
    method Parse(argv: seq<string>, env: Env) returns (ok: bool)
      requires |argv| >= 1 && AllCStrings(argv)
      modifies this`exeName, this`values, this`log
      ensures exeName == CText.BaseName(argv[0])
      ensures ok == ParseSpec(options, description, logLevel, loadConfig, old(values), argv, env).ok
      ensures values == ParseSpec(options, description, logLevel, loadConfig, old(values), argv, env).values
      ensures log == old(log) + Visible(logLevel, ParseSpec(options, description, logLevel, loadConfig, old(values), argv, env).records)
    {
      exeName := CText.BaseName(argv[0]);
      var level := CheckFormat();
      if level.Rank() >= ERROR.Rank() && logLevel.Rank() <= ERROR.Rank() {
        ParseStopsEarly(options, description, logLevel, loadConfig, values, argv, env);
        return false;
      }
      ghost var log1, v1 := log, values;
      assert v1 == old(values);
      ghost var records;
      ok, records := ParseArguments(argv, env);
      ParseGoesOn(options, description, logLevel, loadConfig, old(values), argv, env, ok, values, records, old(log), log1, log, v1);
    }

    /** The rest of parse after the schema check: defaults, configuration files, arguments, validate. */
    method ParseArguments(argv: seq<string>, env: Env) returns (ok: bool, ghost records: seq<LogRecord>)
      requires |argv| >= 1 && AllCStrings(argv)
      modifies this`values, this`log
      ensures var r := ParseStages(options, logLevel, loadConfig, old(values), argv, env);
              ok == r.ok && values == r.values && records == r.records
      ensures log == old(log) + Visible(logLevel, records)
    {
      ghost var files := LoadStage(argv, env);
      ghost var walked := WalkArguments(argv, env);
      ghost var before := values;
      var level := Validate();
      ok := !(level.Rank() >= ERROR.Rank() && logLevel.Rank() <= ERROR.Rank());
      VisiblePhases(logLevel, old(log), files, walked, ValidateRecords(options, before));
      records := files + walked + ValidateRecords(options, before);
    }

    /** parse up to its first loop: the defaults, then the configuration files when enabled. */
    method LoadStage(argv: seq<string>, env: Env) returns (ghost recs: seq<LogRecord>)
      requires |argv| >= 1 && AllCStrings(argv)
      modifies this`values, this`log
      ensures Store(values, recs) == FileStage(options, loadConfig, Defaults(options, old(values)), argv, env)
      ensures log == old(log) + Visible(logLevel, recs)
    {
      SetDefaultValues();
      recs := [];
      if loadConfig {
        recs := LoadConfigFiles(argv, env);
      } else {
        AppendNothing(log);
      }
    }

    /** The first loop of parse: each value after a "--config" or "-cfg" is loaded as a configuration file. */
    method LoadConfigFiles(argv: seq<string>, env: Env) returns (ghost recs: seq<LogRecord>)
      requires |argv| >= 1 && AllCStrings(argv)
      modifies this`values, this`log
      ensures Store(values, recs) == FilesLoad(options, old(values), ConfigPaths(argv, env.lib), env)
      ensures log == old(log) + Visible(logLevel, recs)
    {
      var paths := ScanConfigPaths(argv, env.lib);
      recs := LoadFiles(paths, env);
    }

    /** The tests of parse's first loop: the argument after each "--config" or "-cfg" that is a value. */
    static method ScanConfigPaths(argv: seq<string>, lib: CLib) returns (paths: seq<string>)
      requires |argv| >= 1 && AllCStrings(argv)
      ensures paths == ConfigPaths(argv, lib)
    {
      paths := [];
      var i := 1;
      while i < |argv| - 1
        invariant 1 <= i && (i <= |argv| - 1 || i == 1)
        invariant paths == ConfigPathsBelow(argv, i, lib)
      {
        assert argv[i + 1] in argv;
        var flag := argv[i];
        var ttype := GetTokenType(argv[i + 1], lib);
        if (flag == "--config" || flag == "-cfg") && ttype == VALUE {
          paths := paths + [argv[i + 1]];
        }
        i := i + 1;
      }
    }

    /** config(path) for each of `paths` in turn. */
    method LoadFiles(paths: seq<string>, env: Env) returns (ghost recs: seq<LogRecord>)
      modifies this`values, this`log
      ensures Store(values, recs) == FilesLoad(options, old(values), paths, env)
      ensures log == old(log) + Visible(logLevel, recs)
    {
      recs := [];
      AppendNothing(log);
      var j := 0;
      while j < |paths|
        invariant 0 <= j <= |paths|
        invariant Store(values, recs) == FilesLoad(options, old(values), paths[..j], env)
        invariant log == old(log) + Visible(logLevel, recs)
      {
        ghost var before := Store(values, recs);
        recs := LoadFile(paths[j], env, recs, old(log));
        NextFile(options, old(values), paths, j, env, before, Store(values, recs));
        j := j + 1;
      }
      Whole(paths);
    }

    /** One file of LoadFiles: config(path) on the current values. */
    method LoadFile(path: string, env: Env, ghost recs: seq<LogRecord>, ghost log0: seq<LogRecord>)
      returns (ghost recs': seq<LogRecord>)
      requires log == log0 + Visible(logLevel, recs)
      modifies this`values, this`log
      ensures var r := FileLoad(options, old(values), path, env);
              values == r.store.values && recs' == recs + r.store.records
      ensures log == log0 + Visible(logLevel, recs')
    {
      ghost var r := FileLoad(options, values, path, env);
      var _ := LoadConfig(path, env);
      VisibleAppend(logLevel, recs, r.store.records);
      Regroup(log0, Visible(logLevel, recs), Visible(logLevel, r.store.records));
      recs' := recs + r.store.records;
    }

    /** The second loop of parse: every argument after the program name, one step of the walk each. */
    method WalkArguments(argv: seq<string>, env: Env) returns (ghost recs: seq<LogRecord>)
      requires |argv| >= 1 && AllCStrings(argv)
      modifies this`values, this`log
      ensures Store(values, recs) == WalkStage(options, old(values), argv, env).store
      ensures log == old(log) + Visible(logLevel, recs)
    {
      ghost var start := WalkState(Store(values, []), NoCursor);
      recs := [];
      AppendNothing(log);
      var cursor := NoCursor;
      var i := 1;
      assert argv[1..1] == [];
      while i < |argv|
        invariant 1 <= i <= |argv|
        invariant Walk(options, start, argv[1..i], env.lib) == WalkState(Store(values, recs), cursor)
        invariant log == old(log) + Visible(logLevel, recs)
      {
        WalkNext(options, start, argv, i, env.lib);
        cursor, recs := StepArgument(argv[i], cursor, env.lib, recs, old(log));
        i := i + 1;
      }
      assert argv[1..i] == argv[1..];
    }

    /**
     * One argument of parse's second loop: a flag selects its option (the wildcard for an
     * unregistered long flag) and sets a BOOL option to true; a value is stored for the
     * selected option when it parses; the empty argument is an error.
     */
    method StepArgument(token: string, cursor: Cursor, lib: CLib, ghost recs: seq<LogRecord>, ghost log0: seq<LogRecord>)
      returns (cursor': Cursor, ghost recs': seq<LogRecord>)
      requires IsCString(token)
      requires log == log0 + Visible(logLevel, recs)
      modifies this`values, this`log
      ensures Step(options, WalkState(Store(old(values), recs), cursor), token, lib) == WalkState(Store(values, recs'), cursor')
      ensures log == log0 + Visible(logLevel, recs')
    {
      var tt := GetTokenType(token, lib);
      if tt == EMPTY {
        recs' := Record(ERROR, token, "unknown input", recs, log0);
        cursor' := cursor;
      } else if tt == FLAG || tt == SHORTFLAG {
        var found := GetOption(token, tt);
        recs' := recs;
        if found.None? {
          recs' := Record(WARNING, token, "unrecognized flag", recs', log0);
          if tt == FLAG {
            cursor' := Cursor(token[2..], STRING);
          } else {
            cursor' := NoCursor;
          }
        } else {
          cursor' := Cursor(found.value.flag, found.value.Type());
        }
        if cursor'.Cursor? && cursor'.ty == BOOL {
          values := values[cursor'.flag := Bool(true)];
        }
      } else {
        cursor' := NoCursor;
        match cursor
        case NoCursor =>
          recs' := Record(WARNING, token, "unassociated argument is not stored", recs, log0);
        case Cursor(flag, ty) =>
          var v := ParseValue(token, ty, lib);
          if v.IsEmpty() {
            recs' := Record(WARNING, token, "unvalid value type is provided", recs, log0);
          } else {
            values := values[flag := v];
            recs' := Record(INFO, token, "value parsed successfully", recs, log0);
          }
      }
    }
  }
}
