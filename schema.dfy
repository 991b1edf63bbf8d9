/**
 * The parts of Config that read the schema `_options`: short-flag translation and option
 * lookup, the format check run before parsing, default values, and the validation run after
 * parsing. Each loop over a std::map becomes a recursion that visits the least remaining key
 * first; the Config methods that run the loops are proved to compute these functions.
 */
module Schema {
  import opened Wrappers
  import opened KeyOrder
  import opened Values
  import opened Options
  import opened Logging
  import opened Tokens

  type Schema = map<string, Option>

  // ---- translateShortflag and getOption ----

  /**
   * The search loop of Config::translateShortflag over the keys not visited yet: the first of
   * them, in key order, whose option has short flag `s`, or `s` itself when there is none.
   */
  function TargetFrom(options: Schema, keys: set<string>, s: string): (r: string)
    requires keys <= options.Keys
    ensures r == s || (r in keys && options[r].shortflag == s)
    decreases keys
  {
    if keys == {} then s
    else
      var k := Least(keys);
      if options[k].shortflag == s then k else TargetFrom(options, keys - {k}, s)
  }

  /** Config::translateShortflag: a registered flag whose short flag is `s`, or `s` itself. */
  function ShortflagTarget(options: Schema, s: string): (r: string)
    ensures r == s || (r in options && options[r].shortflag == s)
  {
    TargetFrom(options, options.Keys, s)
  }

  lemma {:induction false} TargetFromIsLeast(options: Schema, keys: set<string>, s: string)
    requires keys <= options.Keys
    ensures (exists k :: k in keys && options[k].shortflag == s) ==>
              var t := TargetFrom(options, keys, s);
              t in keys && options[t].shortflag == s &&
              forall k :: k in keys && options[k].shortflag == s ==> Below(t, k)
    ensures (forall k :: k in keys ==> options[k].shortflag != s) ==> TargetFrom(options, keys, s) == s
    decreases keys
  {
    if keys != {} {
      var m := Least(keys);
      if options[m].shortflag != s {
        TargetFromIsLeast(options, keys - {m}, s);
      }
    }
  }

  /** The target is the smallest registered key with that short flag, and `s` when no option has it. */
  lemma ShortflagTargetIsLeast(options: Schema, s: string)
    ensures (exists k :: k in options && options[k].shortflag == s) ==>
              var t := ShortflagTarget(options, s);
              t in options && options[t].shortflag == s &&
              forall k :: k in options && options[k].shortflag == s ==> Below(t, k)
    ensures (forall k :: k in options ==> options[k].shortflag != s) ==> ShortflagTarget(options, s) == s
  {
    TargetFromIsLeast(options, options.Keys, s);
  }

  /** The flag name Config::getOption looks up: the text after "--", or the short flag translated. */
  function FlagName(options: Schema, token: string, tt: TokenType): (r: string)
    requires tt == FLAG ==> |token| >= 2
    requires tt == SHORTFLAG ==> |token| >= 1
    ensures tt == FLAG ==> token == token[..2] + r
    ensures tt == SHORTFLAG ==> r == token[1..] || (r in options && options[r].shortflag == token[1..])
    ensures tt != FLAG && tt != SHORTFLAG ==> r == ""
  {
    if tt == FLAG then token[2..]
    else if tt == SHORTFLAG then ShortflagTarget(options, token[1..])
    else ""
  }

  /** Config::getOption: the registered option the token names, if its name is non-empty and registered. */
  function ResolveOption(options: Schema, token: string, tt: TokenType): (r: Maybe<Option>)
    requires tt == FLAG ==> |token| >= 2
    requires tt == SHORTFLAG ==> |token| >= 1
    ensures r.Some? <==> FlagName(options, token, tt) != "" && FlagName(options, token, tt) in options
    ensures r.Some? ==> r.value == options[FlagName(options, token, tt)]
  {
    var flag := FlagName(options, token, tt);
    if flag != "" && flag in options then Some(options[flag]) else None
  }

  /**
   * A lone "-" is a short flag whose text is empty, so it names the first option, in key
   * order, that has no short flag.
   */
  lemma LoneDashNamesFirstWithoutShortflag(options: Schema)
    requires "" !in options
    ensures ResolveOption(options, "-", SHORTFLAG).Some? <==> exists k :: k in options && options[k].shortflag == ""
    ensures ResolveOption(options, "-", SHORTFLAG).Some? ==>
              var o := ResolveOption(options, "-", SHORTFLAG).value;
              o.shortflag == "" &&
              exists k :: k in options && o == options[k] &&
                forall k' :: k' in options && options[k'].shortflag == "" ==> Below(k, k')
  {
    assert "-"[1..] == "";
    var t := ShortflagTarget(options, "");
    assert FlagName(options, "-", SHORTFLAG) == t;
    ShortflagTargetIsLeast(options, "");
  }

  // ---- checkFormat ----

  /** Two different flags that share a non-empty short flag. */
  function Clash(o: Option, o2: Option): (r: bool)
    ensures r ==> o.shortflag != "" && o2.shortflag != "" && o != o2
  {
    o.flag != o2.flag && o.shortflag == o2.shortflag && o.shortflag != ""
  }

  /** The inner loop of checkFormat: an error for every option with another flag but the same non-empty short flag. */
  function DuplicateRecords(options: Schema, o: Option, keys: set<string>): (r: seq<LogRecord>)
    requires keys <= options.Keys
    ensures forall x :: x in r ==> x.level == ERROR
    ensures |r| > 0 <==> exists k :: k in keys && Clash(o, options[k])
    decreases keys
  {
    if keys == {} then []
    else
      var k := Least(keys);
      var o2 := options[k];
      (if Clash(o, o2) then [LogRecord(ERROR, o.flag, "duplicate short flags (" + o2.shortflag + ")")] else [])
        + DuplicateRecords(options, o, keys - {k})
  }

  /** What checkFormat reports about one option, in the order it reports it. */
  function OptionRecords(options: Schema, o: Option): (r: seq<LogRecord>)
    ensures forall x :: x in r ==> x.level == ERROR || x.level == WARNING
  {
    (if !o.required && o.defaultValue.IsEmpty() then [LogRecord(ERROR, o.flag, "default value is not defined")] else [])
    + DuplicateRecords(options, o, options.Keys)
    + OptionWarnings(o)
  }

  /** The two warnings checkFormat may give about one option. */
  function OptionWarnings(o: Option): (r: seq<LogRecord>)
    ensures forall x :: x in r ==> x.level == WARNING
    ensures |r| > 0 <==> o.description == "" || o.shortflag == ""
  {
    (if o.description == "" then [LogRecord(WARNING, o.flag, "no description text for argument")] else [])
    + (if o.shortflag == "" then [LogRecord(WARNING, o.flag, "no short flag is provided")] else [])
  }

  /** The outer loop of checkFormat over the options not visited yet. */
  function SchemaRecords(options: Schema, keys: set<string>): (r: seq<LogRecord>)
    requires keys <= options.Keys
    ensures forall x :: x in r ==> x.level == ERROR || x.level == WARNING
    decreases keys
  {
    if keys == {} then []
    else
      var k := Least(keys);
      OptionRecords(options, options[k]) + SchemaRecords(options, keys - {k})
  }

  /** Everything Config::checkFormat reports, in order. */
  function FormatRecords(options: Schema, description: string): (r: seq<LogRecord>)
    ensures forall x :: x in r ==> x.level == ERROR || x.level == WARNING
  {
    SchemaRecords(options, options.Keys)
    + (if description == "" then [LogRecord(WARNING, "", "No program description text is provided")] else [])
  }

  /** An option nobody can use (optional without a default) or two flags sharing a short flag. */
  predicate SchemaError(options: Schema)
  {
    exists k :: k in options && OptionError(options, options[k])
  }

  /** `o` is optional but has no default, or another flag shares its short flag. */
  predicate OptionError(options: Schema, o: Option)
  {
    (!o.required && o.defaultValue.IsEmpty()) || exists k :: k in options && Clash(o, options[k])
  }

  /** Something undocumented: a missing option description or short flag, or no program description. */
  predicate SchemaWarning(options: Schema, description: string)
  {
    description == "" || exists k :: k in options && (options[k].description == "" || options[k].shortflag == "")
  }

  lemma OptionRecordsLevels(options: Schema, o: Option)
    ensures HasLevel(OptionRecords(options, o), ERROR) <==> OptionError(options, o)
    ensures HasLevel(OptionRecords(options, o), WARNING) <==> o.description == "" || o.shortflag == ""
  {
    var e := if !o.required && o.defaultValue.IsEmpty() then [LogRecord(ERROR, o.flag, "default value is not defined")] else [];
    var d := DuplicateRecords(options, o, options.Keys);
    var w := OptionWarnings(o);
    var all := OptionRecords(options, o);
    assert all == (e + d) + w;
    assert HasLevel(all, ERROR) <==> |e + d| > 0 by {
      if |e + d| > 0 { assert all[0] in all; }
    }
    assert HasLevel(all, WARNING) <==> |w| > 0 by {
      if |w| > 0 { assert all[|e + d|] in all; }
    }
  }

  lemma HasLevelAppend(a: seq<LogRecord>, b: seq<LogRecord>, level: LogLevel)
    ensures HasLevel(a + b, level) <==> HasLevel(a, level) || HasLevel(b, level)
  {
    if HasLevel(a + b, level) {
      var x :| x in a + b && x.level == level;
      assert x in a || x in b;
    }
  }

  lemma {:induction false} SchemaRecordsLevels(options: Schema, keys: set<string>, level: LogLevel)
    requires keys <= options.Keys
    ensures HasLevel(SchemaRecords(options, keys), level) <==>
              exists k :: k in keys && HasLevel(OptionRecords(options, options[k]), level)
    decreases keys
  {
    if keys != {} {
      var m := Least(keys);
      SchemaRecordsLevels(options, keys - {m}, level);
      HasLevelAppend(OptionRecords(options, options[m]), SchemaRecords(options, keys - {m}), level);
    }
  }

  /**
   * checkFormat returns ERROR exactly when the schema has an unusable option or a short flag
   * shared by two flags; otherwise WARNING exactly when some description or short flag is
   * missing; otherwise INFO.
   */
  lemma FormatLevel(options: Schema, description: string)
    ensures MaxLevel(FormatRecords(options, description)) ==
              if SchemaError(options) then ERROR
              else if SchemaWarning(options, description) then WARNING
              else INFO
  {
    FormatHasError(options, description);
    FormatHasWarning(options, description);
    MaxLevelClassifies(FormatRecords(options, description));
  }

  lemma FormatHasError(options: Schema, description: string)
    ensures HasLevel(FormatRecords(options, description), ERROR) <==> SchemaError(options)
  {
    var s := SchemaRecords(options, options.Keys);
    var p := if description == "" then [LogRecord(WARNING, "", "No program description text is provided")] else [];
    assert FormatRecords(options, description) == s + p;
    HasLevelAppend(s, p, ERROR);
    SchemaRecordsLevels(options, options.Keys, ERROR);
    forall k | k in options
      ensures HasLevel(OptionRecords(options, options[k]), ERROR) <==> OptionError(options, options[k])
    {
      OptionRecordsLevels(options, options[k]);
    }
  }

  lemma FormatHasWarning(options: Schema, description: string)
    ensures HasLevel(FormatRecords(options, description), WARNING) <==> SchemaWarning(options, description)
  {
    var s := SchemaRecords(options, options.Keys);
    var p := if description == "" then [LogRecord(WARNING, "", "No program description text is provided")] else [];
    assert FormatRecords(options, description) == s + p;
    HasLevelAppend(s, p, WARNING);
    if description == "" {
      assert p[0] in p;
    }
    SchemaRecordsLevels(options, options.Keys, WARNING);
    forall k | k in options
      ensures HasLevel(OptionRecords(options, options[k]), WARNING) <==> options[k].description == "" || options[k].shortflag == ""
    {
      OptionRecordsLevels(options, options[k]);
    }
  }

  /** Every value stored under a registered flag is empty or of the option's declared type. */
  predicate Typed(options: Schema, values: map<string, Value>)
  {
    forall k :: k in values && k in options ==> values[k].Unknown? || values[k].Type() == options[k].Type()
  }

  // ---- setDefaultValues ----

  /** Config::setDefaultValues: every registered flag set to its default; other values kept. */
  function Defaults(options: Schema, values: map<string, Value>): (r: map<string, Value>)
    ensures r.Keys == values.Keys + options.Keys
    ensures forall k :: k in options ==> r[k] == options[k].defaultValue
    ensures forall k :: k in values && k !in options ==> r[k] == values[k]
  {
    map k | k in values.Keys + options.Keys :: if k in options then options[k].defaultValue else values[k]
  }

  // ---- validate ----

  /** The first loop of Config::validate: the value of every hidden option erased. */
  function EraseHidden(options: Schema, values: map<string, Value>): (r: map<string, Value>)
    ensures r.Keys <= values.Keys
    ensures forall k :: k in values ==> (k in r <==> !(k in options && options[k].hidden))
    ensures forall k :: k in r ==> r[k] == values[k]
  {
    map k | k in values && !(k in options && options[k].hidden) :: values[k]
  }

  /** The second loop: an error for every value that is empty. */
  function InvalidValueRecords(values: map<string, Value>, keys: set<string>): (r: seq<LogRecord>)
    requires keys <= values.Keys
    ensures forall x :: x in r ==> x.level == ERROR
    ensures |r| > 0 <==> exists k :: k in keys && values[k].IsEmpty()
    decreases keys
  {
    if keys == {} then []
    else
      var k := Least(keys);
      (if values[k].IsEmpty() then [LogRecord(ERROR, k, "option contains invalid value")] else [])
        + InvalidValueRecords(values, keys - {k})
  }

  /** The third loop: an error for every visible option that has no value. */
  function UndefinedRecords(options: Schema, values: map<string, Value>, keys: set<string>): (r: seq<LogRecord>)
    requires keys <= options.Keys
    ensures forall x :: x in r ==> x.level == ERROR
    ensures |r| > 0 <==> exists k :: k in keys && k !in values && !options[k].hidden
    decreases keys
  {
    if keys == {} then []
    else
      var k := Least(keys);
      (if k !in values && !options[k].hidden then [LogRecord(ERROR, k, "option is undefined")] else [])
        + UndefinedRecords(options, values, keys - {k})
  }

  /** Everything Config::validate reports about the values left once hidden ones are erased. */
  function ValidateRecords(options: Schema, values: map<string, Value>): (r: seq<LogRecord>)
    ensures forall x :: x in r ==> x.level == ERROR
  {
    var kept := EraseHidden(options, values);
    InvalidValueRecords(kept, kept.Keys) + UndefinedRecords(options, kept, options.Keys)
  }

  /**
   * validate returns ERROR exactly when, once hidden values are erased, some value is empty or
   * some visible option has no value; otherwise INFO.
   */
  lemma ValidateLevel(options: Schema, values: map<string, Value>)
    ensures var kept := EraseHidden(options, values);
            MaxLevel(ValidateRecords(options, values)) ==
              if (exists k :: k in kept && kept[k].IsEmpty()) || (exists k :: k in options && !options[k].hidden && k !in kept)
              then ERROR else INFO
  {
    var kept := EraseHidden(options, values);
    var a := InvalidValueRecords(kept, kept.Keys);
    var b := UndefinedRecords(options, kept, options.Keys);
    var r := ValidateRecords(options, values);
    assert r == a + b;
    if |r| > 0 {
      assert r[0] in r;
      assert MaxLevel(r).Rank() >= 2;
    } else {
      assert r == [];
    }
  }
}
