# miniconf in Dafny

A model of the core of miniconf, a small C++ configuration and command-line argument manager.
The model covers three parts:

- **Value** (`Values`): the tagged container of one option value, which is UNKNOWN, INT, NUMBER, BOOL or STRING.
  The pure datatype `Value` is its content.
  The class `ValueVar` is the C++ object with its tag and heap buffer, so that copy and move semantics can be stated.
- **Option** (`Options`): one option of the schema.
  It has a flag, a short flag, a description, a default value (whose tag is the option's declared type), a required bit and a hidden bit.
  The chained setters are functions that return the updated record.
- **Config** (`Miniconf.Config`): the engine.
  The class holds the schema `_options`, the resolved values `_optionValues` and the log `_log`, plus the settings.
  Its methods change these fields in place.

`Config::parse` runs in phases:

1. The schema check, `checkFormat` (`Schema`). parse stops on an ERROR unless the log threshold is NONE.
2. The default values.
3. The configuration files named after `--config` / `-cfg`. These go through `config`, which dispatches to `loadCSV` (`CsvFormat`) or to `loadJSON` / `parseJSON` / `getJSONValue` (`JsonFormat`).
4. The walk over the command-line arguments (`CommandLine`), built on `getTokenType` and `parseValue` (`Tokens`).
5. `validate` (`Schema`).

`Pipeline.ParseSpec` puts the phases together.
`Config.Parse` is proved to compute it: its resulting values and result, plus the log records that pass the threshold.
The engine's loops over options, values, files, arguments and CSV lines each have their own method, proved against the specification function of that phase.
Three inner loops are modelled as recursive functions and have no method of their own: serialize's tokenising of a flag (src/miniconf.cpp:887-891, `CText.Split`), its walk down a dotted path (src/miniconf.cpp:895-912, `JsonFormat.InsertPath`), and loadCSV's split of a line into fields (`CText.Split`).
The properties of the phases are lemmas about those functions.

Conventions:

- `std::map` visits its keys in `std::string` order (`KeyOrder`), so every map loop is a recursion that takes the least remaining key first.
- The C library's conversions are modelled in `CNumbers`: sscanf `%d`, the strtod whole-token test, the 32-bit `int`, and printf `%d`.
  The model also knows which bit patterns of a `double` are infinities or NaNs (`NonFinite`).
  picojson's `value(double)` constructor throws `std::overflow_error` for those, so serialize to JSON throws for such a NUMBER (`JsonFormat.ExportTreeThrows`).
  The engine receives them as parameters (`CLib`).
  Lemmas that need their C meaning require `Standard(lib)`.
- Files on disk and picojson's text parser and printer are parameters as well (`Pipeline.Env`).

Behaviour of the code that the model keeps:

- Take a schema where every option is stored under its own flag and no option is stored under the empty flag.
  There, an option registered without a default (type UNKNOWN) never receives a value. Neither a configuration file nor the command line stores one for it.
  So parse fails whenever such a visible option exists and the threshold is not NONE (`Pipeline.OptionWithoutDefaultFails`, which requires `WellKeyed(options)` and `"" !in options`).
  Both conditions matter.
  An option registered under "" can receive a value: with argv `prog -- x`, `getOption` finds no option for the empty flag, so the wildcard takes that flag and stores "x" under "".
  An option whose flag was changed with `flag()` is still selected by its registration key, but the walk stores its value under the new flag, so it can give a value to the option registered under that flag.
  Every visible registered option has an entry after parse, so validate never reports one as undefined (`Pipeline.VisibleOptionsAreDefined`).
  That entry can still be UNKNOWN: a CSV line `n,abc` for an INT option `n` stores UNKNOWN, and validate then fails for it.
- `Value::print` of an UNKNOWN value returns the empty string.
- An integer is the platform's 32-bit `int`.
  `parseValue` for INT reads a leading integer with `sscanf("%d")`, so "42abc" gives 42.
- A moved-from Value keeps its tag and has no buffer, so it is empty. It does not become UNKNOWN.
- `loadCSV` always returns true.
  The statement that would clear its status for a flag without a value comes after the `continue` that skips that pair.
- `serialize` chooses JSON only for a ".json"/".JSON" path and CSV for every other path. Its format argument is not used.
- `enableHelp(true)` on a configuration that already has the help option removes that option.
  `enableConfig` adds or removes the config option according to the help setting, not its own argument.

## Model

| member | source | states |
|---|---|---|
| KeyOrder.BelowReflexive | src/miniconf.h:402 | every key is at or below itself in std::string order |
| KeyOrder.BelowAntisymmetric | src/miniconf.h:402 | two keys each at or below the other are equal, so map keys have one order |
| KeyOrder.BelowTransitive | src/miniconf.h:402 | the std::string key order is transitive |
| KeyOrder.BelowTotal | src/miniconf.h:402 | any two keys are comparable, so a map's iteration order is determined |
| KeyOrder.LeastExists | src/miniconf.h:402 | every non-empty key set has a first key |
| KeyOrder.LeastUnique | src/miniconf.h:402 | the first key of a set is unique |
| KeyOrder.Least | src/miniconf.h:402 | the key std::map::begin() designates is the least key of the set |
| KeyOrder.PrefixBelow | src/miniconf.h:402 | a prefix of a key comes no later than the key in std::string order |
| CText.CStr | src/miniconf.cpp:113-116 | a `const char*` sees the longest prefix without NUL; the character after it is the NUL |
| CText.IndexOf | src/miniconf.cpp:1006-1007 | the position of the first separator, or the length when there is none |
| CText.Split | src/miniconf.cpp:996-1007 | getline splitting gives at least one piece, and no piece holds the separator |
| CText.SplitJoin | src/miniconf.cpp:996-1007 | splitting pieces joined by a separator they lack gives the pieces back |
| CText.JoinSplit | src/miniconf.cpp:996-1007 | joining the pieces of a text gives the text back |
| CText.SplitAfter | src/miniconf.cpp:996-1007 | a piece followed by the separator is split off as the first piece |
| CText.IndexOfPrefix | src/miniconf.cpp:996-1007 | the first separator after a separator-free prefix is at the prefix's length |
| CText.AfterLast | src/miniconf.cpp:608-613 | the suffix after the last stop character holds no stop character and is preceded by one when shorter |
| CText.Extension | src/miniconf.cpp:968-973 | the extension is the text after the last '.', contains no '.', and is "" for a path without '.' |
| CText.SplitKeepsOut | src/miniconf.cpp:996-1007 | a character that is not in a text is in none of the pieces getline reads from it |
| CText.ExtensionIs | src/miniconf.cpp:968-973 | for a dot-free e, the extension is e exactly when the path ends with '.' followed by e |
| CText.BaseName | src/miniconf.cpp:608-613 | the program name is the suffix of argv[0] after its last '/' or '\\', or all of it |
| CNumbers.LeadingDigits | src/miniconf.cpp:514 | the digits sscanf can read are all digits and are followed by a non-digit |
| CNumbers.SkipSpace | src/miniconf.cpp:514 | sscanf skips exactly the leading white space |
| CNumbers.ToInt32 | src/miniconf.cpp:514 | a value that fits a 32-bit int is stored unchanged |
| CNumbers.Digits | src/miniconf.cpp:166-168 | the printed digits are decimal and their value is the number |
| CNumbers.FormatInt | src/miniconf.cpp:166-168 | printf("%d") writes a non-empty text of a sign and digits, starting with no white space |
| CNumbers.FormatIntFits | src/miniconf.cpp:159-168 | printf("%d") of a 32-bit int writes at most eleven characters, so the 31-byte buffer of print never cuts it |
| CNumbers.LowerAll | src/miniconf.cpp:460-466 | lower-casing keeps the length |
| CNumbers.LowerAllEach | src/miniconf.cpp:460-466 | each character of the lower-cased text is the lower-case form of the character in the same place |
| CNumbers.LeadingDigitsOf | src/miniconf.cpp:514 | sscanf reads exactly the digit run in front of a non-digit |
| CNumbers.ScanFormattedInt | src/miniconf.cpp:514 | sscanf("%d") reads back what printf("%d") wrote, whatever non-digit follows |
| CNumbers.ScanDigitsAfterSign | src/miniconf.cpp:514 | a sign followed by digits scans as the signed value of the digits |
| CNumbers.ScanIntNeedsDigit | src/miniconf.cpp:514-515 | a text without any digit gives sscanf("%d") nothing to read |
| CNumbers.ScanInt | src/miniconf.cpp:512-516 | sscanf("%d") reads a text that starts with a digit, and nothing from a text that starts with anything but white space, a sign or a digit |
| CNumbers.StrtodWhole | src/miniconf.cpp:463-466 | strtod converts a token whole only when it holds a non-space character, and never a token that starts with "--" |
| CNumbers.SignIsNoSubject | src/miniconf.cpp:463-466 | a second '-' after the sign leaves strtod no number to read |
| Values.Value.Type | src/miniconf.cpp:188-191 | the tag is UNKNOWN exactly for the UNKNOWN value |
| Values.Value.GetString | src/miniconf.cpp:151-154 | getString reads the text up to its first NUL, all of it when there is none |
| Values.FromCString | src/miniconf.cpp:113-116 | a `const char*` value is a STRING of the text before the first NUL |
| Values.Print | src/miniconf.cpp:157-185 | UNKNOWN prints as "", INT as printf("%d"), NUMBER as printf("%f") cut to at most 30 characters by snprintf's 31-byte limit, BOOL as "true"/"false", STRING quoted |
| Values.PrintedIntReadsBack | src/miniconf.cpp:157-185 | the printed form of an INT is read back by sscanf("%d") as the same number |
| Values.PrintType | src/miniconf.cpp:206-231 | the type name identifies the tag: no two tags share a name |
| Values.TypeName | src/miniconf.cpp:206-231 | every type name is an upper-case word of at least three letters, and "BOOLEAN" names exactly BOOL |
| Values.ValueVar.Current | src/miniconf.cpp:194-197 | the object's content has its tag, and isEmpty agrees with it |
| Values.ValueVar.constructor | src/miniconf.cpp:15-16 | Value() has the UNKNOWN tag, no buffer, and is empty |
| Values.ValueVar.Of | src/miniconf.cpp:46-49 | a typed constructor holds its argument and is not empty |
| Values.ValueVar.Copy | src/miniconf.cpp:18-21 | a copy has the same tag and content |
| Values.ValueVar.Move | src/miniconf.cpp:23-26 | a move takes over the buffer and leaves the source empty with its tag |
| Values.ValueVar.AssignCopy | src/miniconf.cpp:29-33 | copy assignment gives the other's tag and content |
| Values.ValueVar.AssignMove | src/miniconf.cpp:35-38 | move assignment takes the other's tag and buffer and leaves the other empty |
| Values.ValueVar.Assign | src/miniconf.cpp:51-55 | assigning a typed value makes the object hold it |
| Values.ValueVar.GetInt | src/miniconf.cpp:62-65 | getInt on an INT returns its payload |
| Values.ValueVar.GetNumber | src/miniconf.cpp:84-87 | getNumber on a NUMBER returns its payload |
| Values.ValueVar.GetBoolean | src/miniconf.cpp:107-110 | getBoolean on a BOOL returns its payload |
| Values.ValueVar.GetString | src/miniconf.cpp:151-154 | getString on a STRING returns the text up to its first NUL |
| Values.CopyIsIndependent | src/miniconf.cpp:18-21 | assigning to a copy leaves the original unchanged |
| Options.Option.WithFlag | src/miniconf.cpp:267-271 | sets only the flag and keeps the type |
| Options.Option.WithShortflag | src/miniconf.cpp:273-277 | sets only the short flag and keeps the type |
| Options.Option.WithDescription | src/miniconf.cpp:279-283 | sets only the description and keeps the type |
| Options.Option.WithDefault | src/miniconf.cpp:285-319 | sets only the default, and the option's type becomes the default's tag |
| Options.Option.WithRequired | src/miniconf.cpp:321-325 | sets only the required bit and keeps the type |
| Options.Option.WithHidden | src/miniconf.cpp:327-331 | sets only the hidden bit and keeps the type |
| Options.NewOption | src/miniconf.cpp:261-262 | a new option is optional, visible, untyped, and has empty texts |
| Logging.WorseLevel | src/miniconf.cpp:537-540 | worseLevel returns one of its arguments, at least as severe as both |
| Logging.MaxLevel | src/miniconf.cpp:542-574 | the folded level bounds every record's level and is INFO or some record's level |
| Logging.Visible | src/miniconf.cpp:422-426 | the log keeps at most the records reported |
| Logging.VisibleMembers | src/miniconf.cpp:422-426 | the log keeps exactly the records at or above the threshold |
| Logging.VisibleAppend | src/miniconf.cpp:422-426 | filtering two phases' records is filtering each phase in turn |
| Logging.MaxLevelAppend | src/miniconf.cpp:537-540 | the worst level of two phases is the worse of their worst levels |
| Logging.MaxLevelClassifies | src/miniconf.cpp:537-540 | the worst level is ERROR iff there is an error, otherwise WARNING iff there is a warning, otherwise INFO |
| Logging.LogLevel.Rank | src/miniconf.h:219-224 | a level's position in the enum is at most 3 |
| Logging.RankOrder | src/miniconf.h:219-224 | the enum orders INFO before WARNING before ERROR before NONE, and no two levels share a position |
| Tokens.GetTokenType | src/miniconf.cpp:453-471 | only the empty token is EMPTY; a long flag starts with "--" and a short flag with '-' |
| Tokens.TokenClasses | src/miniconf.cpp:453-471 | a token is a value iff it is non-empty and has no leading '-' or converts whole by strtod; otherwise a long or short flag by its second character |
| Tokens.LowerDigits | src/miniconf.cpp:460-466 | lower-casing leaves digits alone |
| Tokens.NoLetterInDigits | src/miniconf.cpp:460-466 | a digit run has no exponent mark |
| Tokens.DigitsAreMantissa | src/miniconf.cpp:460-466 | a digit run is a decimal mantissa |
| Tokens.DigitsAreFloatSubject | src/miniconf.cpp:460-466 | a digit run is a complete strtod subject |
| Tokens.NegativeDigitsConvertWhole | src/miniconf.cpp:460-466 | a minus sign and digits convert whole by strtod |
| Tokens.NegativeIntIsValue | src/miniconf.cpp:460-466 | every negative integer written by printf is a value, not a short flag |
| Tokens.ParseValue | src/miniconf.cpp:510-535 | parseValue yields UNKNOWN or a value of the requested type |
| Tokens.ParseStringVerbatim | src/miniconf.cpp:531-533 | STRING keeps the token itself (up to a NUL), and the empty token gives the empty string rather than UNKNOWN |
| Tokens.ParseBoolExactly | src/miniconf.cpp:524-530 | BOOL is false exactly for the five false spellings and true for any other text |
| Tokens.IsFalseWord | src/miniconf.cpp:525 | a false spelling has one or five letters, starts with 'f' or 'F', and lower-cases to "f" or "false" |
| Tokens.FalseWordsLower | src/miniconf.cpp:525 | the five false spellings lower-case to "false" or "f" |
| Tokens.ParseFailsOnlyOnNumbers | src/miniconf.cpp:510-535 | parseValue fails exactly for type UNKNOWN or for an unreadable INT or NUMBER |
| Tokens.ParseIntPrefix | src/miniconf.cpp:512-516 | an INT reads the leading integer and ignores what follows |
| Schema.TargetFromIsLeast | src/miniconf.cpp:473-486 | the search loop finds the first remaining key with the short flag, or gives the short flag back |
| Schema.ShortflagTargetIsLeast | src/miniconf.cpp:473-486 | translateShortflag gives the least flag with that short flag, or the short flag itself when none has it |
| Schema.TargetFrom | src/miniconf.cpp:477-485 | the search gives back the short flag itself or a remaining key whose option has that short flag |
| Schema.ShortflagTarget | src/miniconf.cpp:473-486 | translateShortflag returns the short flag itself or a registered flag whose option has that short flag |
| Schema.FlagName | src/miniconf.cpp:495-500 | a long flag names the text after "--", a short flag its translation, and any other token the empty name |
| Schema.ResolveOption | src/miniconf.cpp:493-508 | getOption finds an option exactly when the named flag is non-empty and registered, and then it is that option |
| Schema.LoneDashNamesFirstWithoutShortflag | src/miniconf.cpp:493-508 | a lone "-" selects the first option, in key order, that has no short flag |
| Schema.DuplicateRecords | src/miniconf.cpp:552-558 | the inner loop reports errors only, and some iff another flag shares the option's non-empty short flag |
| Schema.Clash | src/miniconf.cpp:554 | two options clash only when both have a short flag and they are different options |
| Schema.OptionRecords | src/miniconf.cpp:545-568 | one option yields only errors and warnings |
| Schema.OptionWarnings | src/miniconf.cpp:560-567 | warnings are reported iff the description or the short flag is missing |
| Schema.SchemaRecords | src/miniconf.cpp:545-568 | the outer loop reports only errors and warnings |
| Schema.FormatRecords | src/miniconf.cpp:542-574 | checkFormat reports only errors and warnings |
| Schema.OptionRecordsLevels | src/miniconf.cpp:545-568 | an option gets an error iff it is unusable or shares a short flag, and a warning iff a text is missing |
| Schema.HasLevelAppend | src/miniconf.cpp:545-568 | a level occurs in two phases' records iff it occurs in one of them |
| Schema.SchemaRecordsLevels | src/miniconf.cpp:545-568 | a level occurs in the outer loop's records iff it occurs for some option |
| Schema.FormatLevel | src/miniconf.cpp:542-574 | checkFormat returns ERROR iff the schema has an unusable option or a shared short flag, else WARNING iff something is undocumented, else INFO |
| Schema.FormatHasError | src/miniconf.cpp:542-574 | checkFormat reports an error iff the schema has an error |
| Schema.FormatHasWarning | src/miniconf.cpp:542-574 | checkFormat reports a warning iff something is undocumented |
| Schema.Defaults | src/miniconf.cpp:402-407 | every registered flag gets its default; other values are kept |
| Schema.EraseHidden | src/miniconf.cpp:582-586 | exactly the values of hidden options are erased; the others are kept unchanged |
| Schema.InvalidValueRecords | src/miniconf.cpp:589-594 | errors only, and some iff a value is empty |
| Schema.UndefinedRecords | src/miniconf.cpp:597-602 | errors only, and some iff a visible option has no value |
| Schema.ValidateRecords | src/miniconf.cpp:577-604 | validate reports only errors |
| Schema.ValidateLevel | src/miniconf.cpp:577-604 | validate returns ERROR iff, after erasing hidden values, a value is empty or a visible option has none, else INFO |
| CommandLine.FlagCursor | src/miniconf.cpp:657-665 | a flag selects its registered option; an unregistered long flag selects a STRING wildcard named after it; otherwise nothing |
| CommandLine.FlagStep | src/miniconf.cpp:657-669 | a flag selects its option and sets a selected BOOL option to true, changing nothing else |
| CommandLine.ValueStep | src/miniconf.cpp:670-687 | a value is stored for the selected option iff it parses, and the selection ends |
| CommandLine.Walk | src/miniconf.cpp:652-689 | the walk never removes a value |
| CommandLine.WalkSnoc | src/miniconf.cpp:652-689 | walking one more argument is one more step |
| CommandLine.Step | src/miniconf.cpp:653-688 | one argument appends at most one record, never removes a value, changes only the values of the selected flags, ends the selection on a value, and leaves the values and selection alone on the empty argument |
| CommandLine.WalkWritesOnlyNamedFlags | src/miniconf.cpp:652-689 | the walk stores only under a registered flag or an unregistered long flag's text, and never an empty value |
| CommandLine.WalkKeepsDeclaredTypes | src/miniconf.cpp:652-689 | under a registered flag the walk stores only values of the option's type |
| CommandLine.FlagThenValue | src/miniconf.cpp:657-683 | a flag followed by a value of its option's type stores that value |
| CommandLine.BoolFlagSetsTrue | src/miniconf.cpp:667-669 | a flag naming a BOOL option sets it to true by itself |
| CommandLine.UnregisteredLongFlag | src/miniconf.cpp:659-665 | an unregistered long flag stores the next value as a STRING under the flag's text |
| CommandLine.UnregisteredShortFlag | src/miniconf.cpp:659-665 | an unregistered short flag selects nothing, so the next value is not stored |
| CommandLine.NoFlagsNoChange | src/miniconf.cpp:670-687 | arguments without flags change no value |
| CommandLine.ConfigPathsBelow | src/miniconf.cpp:640-649 | the loaded paths are exactly the values after a "--config" or "-cfg" |
| CommandLine.ConfigPathsMembers | src/miniconf.cpp:640-648 | a path is loaded iff some argument after the program name is "--config" or "-cfg" and the path is the value right after it |
| CsvFormat.FieldPairs | src/miniconf.cpp:1003-1011 | n fields give (n + 1) / 2 flag/value pairs |
| CsvFormat.PairAt | src/miniconf.cpp:1003-1011 | pair p holds fields 2p and 2p + 1, with "" for a missing value |
| CsvFormat.FieldPairsFrom | src/miniconf.cpp:1003-1007 | each pair's flag is one of the fields, and its value is a field or "" |
| CsvFormat.LinePairs | src/miniconf.cpp:998-1011 | a line gives pairs iff it is non-empty; no flag or value holds a comma, nor a line break when the line holds none |
| CsvFormat.LinesPairsSnoc | src/miniconf.cpp:996-1023 | the pairs of one more line follow those of the lines before |
| CsvFormat.LinesPairsSafe | src/miniconf.cpp:996-1011 | the pairs read from the lines hold no comma, and no line break when the lines hold none |
| CsvFormat.CsvPairs | src/miniconf.cpp:996-1011 | every flag and value read from a CSV text is free of commas and line breaks |
| CsvFormat.ApplyPairs | src/miniconf.cpp:1003-1022 | applying pairs only appends records and never removes a value |
| CsvFormat.ApplyPair | src/miniconf.cpp:1008-1021 | a pair without a value changes nothing; any other pair adds one record |
| CsvFormat.PairApplied | src/miniconf.cpp:1013-1021 | a pair with a value stores under its flag a value of the flag's type or UNKNOWN, keeps every other value, and appends one INFO record for the flag |
| CsvFormat.ApplyPairsKeepTyped | src/miniconf.cpp:1013-1021 | a registered flag only receives values of its option's type, or UNKNOWN |
| CsvFormat.CsvLoad | src/miniconf.cpp:992-1025 | loading a CSV text keeps the value map typed |
| CsvFormat.ApplyPairsAppend | src/miniconf.cpp:996-1023 | applying two runs of pairs is applying one after the other |
| CsvFormat.LoadOnlyInforms | src/miniconf.cpp:1013-1021 | loading a CSV text reports only INFO records |
| CsvFormat.LoadedCount | src/miniconf.cpp:1008-1021 | each pair adds at most one record, and every pair adds one iff all pairs have a value |
| CsvFormat.LoadKeepsTypes | src/miniconf.cpp:1013-1021 | a loaded value has the flag's type (STRING for an unknown flag) or is UNKNOWN |
| CsvFormat.MissingValueIsDropped | src/miniconf.cpp:1008-1011 | the line "a," is dropped silently and loadCSV still succeeds |
| CsvFormat.CsvField | src/miniconf.cpp:936-943 | serialize writes a STRING without quotes and any other value as printed |
| CsvFormat.CsvLine | src/miniconf.cpp:943 | a written line is the flag, a comma, the field and a line break |
| CsvFormat.LineReadsBack | src/miniconf.cpp:943 | a written line without its line break reads back as the one pair of the flag and its field |
| CsvFormat.CsvLinesShape | src/miniconf.cpp:933-946 | the CSV text is empty iff there are no values, and otherwise ends with a line break |
| CsvFormat.WrittenPairs | src/miniconf.cpp:933-946 | each written pair is a flag and its written field |
| CsvFormat.ReadWrittenLines | src/miniconf.cpp:933-946 | reading the written lines back gives the written pairs when no text holds a comma or line break |
| CsvFormat.LoadWrittenPairs | src/miniconf.cpp:1003-1022 | loading the written pairs stores each non-empty field, parsed, and leaves other flags alone |
| CsvFormat.FieldReadsBack | src/miniconf.cpp:936-943 | a restorable value's field parses back as the value |
| CsvFormat.IntFieldReadsBack | src/miniconf.cpp:512-516 | the printed form of an int, parsed as an INT, is that int |
| CsvFormat.CStrOfDigits | src/miniconf.cpp:936-943 | a printed integer has no NUL |
| CsvFormat.CsvRoundTrip | src/miniconf.cpp:933-946 | loading what serialize wrote restores every INT, BOOL and non-empty STRING of the loaded type, and keeps unwritten flags |
| JsonFormat.JsonScalar | src/miniconf.cpp:1028-1061 | a registered flag takes only a scalar of its option's type; an unknown flag takes any number, boolean or string; null, arrays and objects are refused |
| JsonFormat.GetJsonValue | src/miniconf.cpp:1028-1061 | getJSONValue succeeds iff the scalar is accepted and stores it; otherwise it changes nothing and reports one WARNING |
| JsonFormat.ChildFlag | src/miniconf.cpp:1063-1081 | a member's flag is its key under the empty flag, else the parent flag, '.', and the key |
| JsonFormat.JsonLoad | src/miniconf.cpp:1063-1081 | parseJSON never removes a value and keeps the value map typed |
| JsonFormat.JsonLoadDocument | src/miniconf.cpp:1063-1088 | loading a document never removes a value and keeps the map typed; an array fails without a record and null fails with one WARNING |
| JsonFormat.MembersFrom | src/miniconf.cpp:1063-1081 | the member loop never removes a value and keeps the value map typed |
| JsonFormat.MembersStopAtFailure | src/miniconf.cpp:1063-1081 | once a member failed, the remaining members change nothing and report nothing |
| JsonFormat.EmptyObjectLoads | src/miniconf.cpp:1063-1081 | the empty object loads successfully and changes nothing |
| JsonFormat.JsonOf | src/miniconf.cpp:902-909 | UNKNOWN assigns nothing, a NaN or infinite NUMBER makes picojson throw, and every other value has a JSON scalar form |
| JsonFormat.InsertPath | src/miniconf.cpp:893-913 | the nested assignment adds exactly the first token of a dotted flag to the object; it always throws for a leaf picojson cannot convert, and never throws for two tokens without a value to assign |
| JsonFormat.ExportStep | src/miniconf.cpp:883-926 | writing one value adds at most its flag's first token to the root; an undotted flag throws only for a NaN or infinite NUMBER, and one already written is left as it was |
| JsonFormat.ExportStepThrows | src/miniconf.cpp:905-919 | a NaN or infinite NUMBER throws unless its flag is undotted and already written |
| JsonFormat.TreeFrom | src/miniconf.cpp:883-927 | the loop keeps every member written so far, and never throws when no flag is dotted and no value is a NaN or infinite NUMBER |
| JsonFormat.TreeThrows | src/miniconf.cpp:883-927 | the loop throws when any remaining value is a NaN or infinite NUMBER, because no earlier flag writes an undotted flag's member |
| JsonFormat.ExportTree | src/miniconf.cpp:881-929 | the document is an object, and it is built without a throw when no flag is dotted and no value is a NaN or infinite NUMBER |
| JsonFormat.ExportTreeThrows | src/miniconf.cpp:881-929 | serialize to JSON throws whenever one value is a NaN or infinite NUMBER, whatever the flags |
| JsonFormat.ExportFlat | src/miniconf.cpp:914-924 | with undotted flags and finite NUMBERs serialize never throws and writes each value that has a JSON form under its own flag |
| JsonFormat.ExportStepFlat | src/miniconf.cpp:914-924 | an undotted flag not yet written, with a value other than a NaN or infinite NUMBER, is added as one member |
| JsonFormat.FlatMembersSplit | src/miniconf.cpp:914-924 | the members of undotted flags are written one flag after the other |
| JsonFormat.ExportThrowsUnderScalar | src/miniconf.cpp:893-913 | values under "a" and "a.b" make serialize throw |
| JsonFormat.DottedUnderScalar | src/miniconf.cpp:893-913 | a value other than UNKNOWN under "a.b", with "a" already written as a scalar, makes the nested assignment throw |
| JsonFormat.DottedUnknownLeaf | src/miniconf.cpp:893-913 | an UNKNOWN value under "a.b" never throws: it creates the object "a" when "a" is absent and otherwise changes nothing |
| JsonFormat.ExportUnknownUnderScalar | src/miniconf.cpp:881-929 | with "a" = 1 and "a.b" UNKNOWN, serialize writes the document {"a": 1} |
| JsonFormat.ScalarReadsBack | src/miniconf.cpp:1028-1061 | a restorable value's JSON form loads back as the value |
| JsonFormat.LoadFlat | src/miniconf.cpp:1063-1081 | members that are accepted scalars load, each under its own key, without a record |
| JsonFormat.JsonRoundTrip | src/miniconf.cpp:881-929 | loading the exported document of undotted flags, with finite NUMBERs, succeeds silently and restores every value |
| Pipeline.ReadFile | src/miniconf.cpp:961-966 | a file that cannot be opened reads as "" |
| Pipeline.FileLoad | src/miniconf.cpp:959-990 | config never removes a value, keeps the map typed, and always succeeds on a CSV path |
| Pipeline.IsCsvPath | src/miniconf.cpp:968-984 | config loads a path as CSV iff it ends with ".csv" or ".CSV" |
| Pipeline.CsvSuffix | src/miniconf.cpp:968-980 | the extension is "csv" (or "CSV") iff the path ends with ".csv" (or ".CSV") |
| Pipeline.FilesLoad | src/miniconf.cpp:640-649 | loading files in turn never removes a value and keeps the map typed |
| Pipeline.FileStage | src/miniconf.cpp:640-649 | the configuration-file stage never removes a value and keeps the map typed |
| Pipeline.ArgumentsAreCStrings | src/miniconf.cpp:653 | the arguments after the program name are C strings |
| Pipeline.WalkStage | src/miniconf.cpp:652-689 | the argument walk never removes a value |
| Pipeline.SchemaErrorStopsParse | src/miniconf.cpp:617-622 | a schema error makes parse fail before reading any argument, unless the threshold is NONE |
| Pipeline.Aborts | src/miniconf.cpp:618 | parse aborts iff checkFormat gave ERROR or worse and the threshold is not NONE |
| Pipeline.ParseOutcome | src/miniconf.cpp:606-709 | an aborted parse fails and changes no value; with the threshold NONE parse succeeds; otherwise no hidden option keeps a value |
| Pipeline.ParseRecordsStartWithFormat | src/miniconf.cpp:617-622 | parse's records begin with checkFormat's records |
| Pipeline.VisibleOptionsAreDefined | src/miniconf.cpp:606-709 | after parse every visible registered option has a value |
| Pipeline.ParseResult | src/miniconf.cpp:606-709 | parse succeeds iff the threshold is NONE or no value left is empty |
| Pipeline.OptionWithoutDefaultFails | src/miniconf.cpp:606-709 | a visible option without a default makes parse fail unless the threshold is NONE |
| Pipeline.NoArgumentsGivesDefaults | src/miniconf.cpp:606-709 | with no arguments every visible option ends with its default |
| Pipeline.NoFilesWithoutArguments | src/miniconf.cpp:640-649 | with only the program name no configuration file is loaded |
| Pipeline.NoWalkWithoutArguments | src/miniconf.cpp:652-689 | with only the program name the walk changes no value |
| Pipeline.CommandLineWins | src/miniconf.cpp:606-709 | a command-line value for a visible option wins over its default and over every configuration file |
| Pipeline.WalkEndsWithFlagValue | src/miniconf.cpp:652-689 | arguments ending with a flag and a value of its type store that value |
| Pipeline.ParsedValues | src/miniconf.cpp:606-709 | parse's values are the walked values with hidden options erased |
| Pipeline.ExportFormatFor | src/miniconf.cpp:861-878 | serialize writes JSON exactly for a ".json"/".JSON" path |
| Pipeline.IsJsonPath | src/miniconf.cpp:862-869 | serialize writes JSON for a path iff it ends with ".json" or ".JSON" |
| Pipeline.JsonSuffix | src/miniconf.cpp:862-868 | the extension is "json" (or "JSON") iff the path ends with ".json" (or ".JSON") |
| Pipeline.SerializeText | src/miniconf.cpp:856-957 | a CSV path gets the CSV text of the values |
| Pipeline.SerializeNonFinite | src/miniconf.cpp:856-929 | with a NaN or infinite NUMBER among the values, serialize fails exactly for a JSON path |
| Pipeline.SaveThenLoadCsv | src/miniconf.cpp:856-957 | saving to a ".csv" file and loading it restores every value CSV keeps and leaves other flags alone |
| Pipeline.SaveThenLoadJson | src/miniconf.cpp:856-957 | saving to a ".json" file and loading it restores every value, for undotted flags and finite NUMBERs |
| Miniconf.Registered | src/miniconf.cpp:387-391 | option(flag) adds the flag if absent, keeps an existing option, and changes no other option |
| Miniconf.RegisterKeepsWellKeyed | src/miniconf.cpp:387-391 | registering keeps every option under its own flag |
| Miniconf.RegisterExistingKeeps | src/miniconf.cpp:387-391 | re-registering a flag with no setter changes nothing |
| Miniconf.HelpToggled | src/miniconf.cpp:803-817 | the help option is present afterwards iff help is enabled and it was absent; nothing else changes |
| Miniconf.ConfigToggled | src/miniconf.cpp:786-801 | the config option is present afterwards iff automatic help is on and it was absent; nothing else changes |
| Miniconf.InitialSchema | src/miniconf.cpp:368-378 | a new Config's schema holds exactly the help and config options |
| Miniconf.ConfigOptionFollowsHelp | src/miniconf.cpp:786-817 | the config option follows the help setting, not enableConfig's argument |
| Miniconf.ParseStopsEarly | src/miniconf.cpp:617-622 | parse after a failed schema check reports the schema's records, changes no value and fails |
| Miniconf.ParseGoesOn | src/miniconf.cpp:633-708 | parse after a passed schema check has the result, values and log of its stages |
| Miniconf.NextFile | src/miniconf.cpp:640-649 | loading the next file extends the files loaded so far |
| Miniconf.WalkNext | src/miniconf.cpp:652-689 | walking argument i extends the walk of the arguments before it by one step |
| Miniconf.ApplyFieldPair | src/miniconf.cpp:1003-1022 | applying the next pair of fields extends the pairs applied so far |
| Miniconf.ApplyNextPair | src/miniconf.cpp:1003-1022 | applying one more pair is one more application after the pairs before it |
| Miniconf.LinesPairsNext | src/miniconf.cpp:996-1011 | an empty line adds no pairs, and any other line adds the pairs of its fields |
| Miniconf.SchemaRecordsStep | src/miniconf.cpp:545-568 | checkFormat visits the least remaining option first |
| Miniconf.OptionRecordsParts | src/miniconf.cpp:545-568 | checkFormat reports one option's default error, duplicate errors and warnings, in that order |
| Miniconf.MembersStep | src/miniconf.cpp:1066-1071 | parseJSON visits the least remaining member first and skips the rest after a failure |
| Miniconf.CsvLinesStep | src/miniconf.cpp:933-946 | serialize writes the least remaining flag's line first |
| Miniconf.CsvLinesNext | src/miniconf.cpp:933-946 | the text written so far, followed by the remaining lines, is that text with the least flag's line, followed by the rest |
| Miniconf.MaxLevelSnoc | src/miniconf.cpp:537-540 | the worst level grows one record at a time as worseLevel folds it |
| Miniconf.VisiblePhases | src/miniconf.cpp:422-426 | the log after three phases, each filtered in turn, is the filter of all their records |
| Miniconf.Config.constructor | src/miniconf.cpp:368-378 | a new Config is quiet, has the WARNING threshold, help and config loading on, and only the help and config options |
| Miniconf.Config.Register | src/miniconf.cpp:387-391 | option(flag) leaves the schema `Registered` describes |
| Miniconf.Config.Remove | src/miniconf.cpp:393-400 | remove unregisters the flag and reports whether it was registered |
| Miniconf.Config.FindOption | src/miniconf.cpp:488-491 | findOption is true iff the flag is registered |
| Miniconf.Config.Contains | src/miniconf.cpp:824-827 | contains is true iff the flag has a value |
| Miniconf.Config.Index | src/miniconf.cpp:829-832 | operator[] returns the value, inserting UNKNOWN for a missing flag |
| Miniconf.Config.At | src/miniconf.cpp:834-836 | const operator[] returns the value and throws for a missing flag |
| Miniconf.Config.Assign | src/miniconf.cpp:829-832 | assigning through operator[] sets that flag's value only |
| Miniconf.Config.SetDescription | src/miniconf.cpp:781-784 | sets the program description |
| Miniconf.Config.SetVerbose | src/miniconf.cpp:819-822 | sets verbose mode |
| Miniconf.Config.SetLogLevel | src/miniconf.cpp:409-412 | sets the log threshold |
| Miniconf.Config.Log | src/miniconf.cpp:422-451 | a record is appended to the log iff its level reaches the threshold |
| Miniconf.Config.EnableHelp | src/miniconf.cpp:803-817 | sets automatic help and adds or removes the help option as `HelpToggled` states |
| Miniconf.Config.EnableConfig | src/miniconf.cpp:786-801 | sets configuration loading and adds or removes the config option as `ConfigToggled` states |
| Miniconf.Config.SetDefaultValues | src/miniconf.cpp:402-407 | every registered flag gets its default, as `Defaults` states |
| Miniconf.Config.TranslateShortflag | src/miniconf.cpp:473-486 | the loop finds the least flag with that short flag, else the short flag |
| Miniconf.Config.GetOption | src/miniconf.cpp:493-508 | getOption returns the option the token names, or null |
| Miniconf.Config.CheckFormat | src/miniconf.cpp:542-574 | checkFormat logs the schema's records and returns their worst level |
| Miniconf.Config.CheckOptions | src/miniconf.cpp:545-568 | the outer loop logs every option's records in key order and folds their worst level |
| Miniconf.Config.CheckOption | src/miniconf.cpp:545-568 | one pass logs the option's records and folds their level |
| Miniconf.Config.CheckDuplicates | src/miniconf.cpp:552-558 | the inner loop logs an error for each flag sharing the short flag |
| Miniconf.Config.Record | src/miniconf.cpp:422-426 | one record is reported and logged by the threshold |
| Miniconf.Config.Report | src/miniconf.cpp:549-550 | a record is logged and its level folded into the worst level |
| Miniconf.Config.ReportIf | src/miniconf.cpp:548-551 | a record is logged and folded only when its condition holds |
| Miniconf.Config.Validate | src/miniconf.cpp:577-604 | validate erases hidden values, logs its errors and returns their worst level |
| Miniconf.Config.EraseHiddenValues | src/miniconf.cpp:582-586 | the first loop erases exactly the hidden options' values |
| Miniconf.Config.ReportInvalid | src/miniconf.cpp:589-594 | the second loop logs an error per empty value |
| Miniconf.Config.ReportUndefined | src/miniconf.cpp:597-602 | the third loop logs an error per visible option without a value |
| Miniconf.Config.LoadCsv | src/miniconf.cpp:992-1025 | loadCSV returns true and leaves the values and log `CsvLoad` describes |
| Miniconf.Config.LoadPairs | src/miniconf.cpp:1003-1022 | the inner loop applies every pair of the line's fields |
| Miniconf.Config.LoadFieldPair | src/miniconf.cpp:1004-1007 | the fields at i and i + 1 are applied as one pair |
| Miniconf.Config.LoadPair | src/miniconf.cpp:1008-1021 | a pair with a value is parsed, stored and reported; one without is skipped |
| Miniconf.Config.GetJsonValue | src/miniconf.cpp:1028-1061 | getJSONValue stores an accepted scalar and succeeds, or warns and fails |
| Miniconf.Config.GetRegisteredValue | src/miniconf.cpp:1030-1043 | a registered flag stores a scalar of its type, or warns and fails |
| Miniconf.Config.GetStrayValue | src/miniconf.cpp:1046-1059 | an unknown flag stores a number, bool or string, or warns and fails |
| Miniconf.Config.ParseJson | src/miniconf.cpp:1063-1081 | parseJSON leaves the values, log and status `JsonLoad` describes |
| Miniconf.Config.ParseMembers | src/miniconf.cpp:1066-1071 | the member loop loads the members in key order until one fails |
| Miniconf.Config.LoadJson | src/miniconf.cpp:1083-1088 | loadJSON loads the parsed document with the empty flag |
| Miniconf.Config.LoadConfig | src/miniconf.cpp:959-990 | config loads a CSV path as CSV and any other as JSON, as `FileLoad` describes |
| Miniconf.Config.Serialize | src/miniconf.cpp:856-957 | serialize returns the text `SerializeText` describes, whatever format is asked for, including the throw for a NaN or infinite NUMBER on a JSON path |
| Miniconf.Config.ExportJson | src/miniconf.cpp:881-929 | the loop builds exactly the exported document, value by value in key order, and reports a throw exactly where serialize throws (a non-object on a dotted path, or a NaN or infinite NUMBER) |
| Miniconf.Config.ExportCsv | src/miniconf.cpp:933-946 | the CSV branch writes one line per value in key order |
| Miniconf.Config.Parse | src/miniconf.cpp:606-709 | parse records the program name and leaves the result, values and log `ParseSpec` describes |
| Miniconf.Config.ParseArguments | src/miniconf.cpp:633-708 | the stages after the schema check leave the result, values and log of `ParseStages` |
| Miniconf.Config.LoadStage | src/miniconf.cpp:633-649 | the defaults and then the configuration files, when loading is enabled |
| Miniconf.Config.LoadConfigFiles | src/miniconf.cpp:640-649 | the first loop loads every configuration file named on the command line, in order |
| Miniconf.Config.ScanConfigPaths | src/miniconf.cpp:641-648 | the first loop's tests select exactly the paths after "--config" or "-cfg" |
| Miniconf.Config.LoadFiles | src/miniconf.cpp:640-649 | the files are loaded one after the other |
| Miniconf.Config.LoadFile | src/miniconf.cpp:646 | one config(path) call on the current values |
| Miniconf.Config.WalkArguments | src/miniconf.cpp:652-689 | the second loop walks every argument after the program name |
| Miniconf.Config.StepArgument | src/miniconf.cpp:653-688 | one argument is one step of the walk: a flag selects, a value is stored, the empty argument is an error |

## Left out

- Printing and other I/O are not modelled. This covers `Config::print`, `Config::log(FILE*)`, the help and usage texts, and verbose output to stdout.
  The log is kept as records (level, token, message) rather than formatted lines.
- The file write at the end of `serialize` is not modelled; the model returns the text it would write.
  Files on disk are a map from path to content, and a path that cannot be opened reads as "".
- picojson's text parser and printer are parameters of the model (`Env.parseJson`, `Env.printJson`). The JSON round trip assumes the parser reads back what the printer wrote.
- Floating point is not modelled. A NUMBER holds an opaque bit pattern; only whether it is an infinity or a NaN is read from it.
  `sscanf("%lf")`, the `"%f"` conversion of `snprintf(tempStr, 31, "%f", …)` and the casts between `int` and `double` are parameters (`CLib`); only "every int survives the trip through double" is assumed of them.
  `Value::print` cuts the `"%f"` text to 30 characters (src/miniconf.cpp:159, 171), and the model keeps that cut.
- The byte size `_size` of a Value and its raw allocation are not modelled. Copying an UNKNOWN value allocates a zero-byte buffer, which the model does not distinguish from none.
- Option's setters mutate the option in place and return a reference for chaining. The model has them as functions on the option's value.
  `Config::option(flag)` is modelled with the chained setters passed as a function (`Register`).
- The non-const `operator[]` returns a reference that callers can assign through. The model splits it into `Index` (lookup or insert) and `Assign` (a write through the reference).
- The destructors are not modelled.
- The help display of parse is not modelled: when the help value is true and automatic help is on, parse prints the help text (src/miniconf.cpp:692-694, 711-779) and then continues with validation. The model leaves out only the printing.
- Tokens.GetTokenType: its own contract is weaker than the source's classification. The full classification is the lemma `Tokens.TokenClasses`, under the C meaning of strtod (`Standard(lib)`).
- JsonFormat.JsonRoundTrip: covers undotted flags only. Dotted flags build nested objects, and a value under "a" with another (not UNKNOWN) under "a.b" makes serialize throw (`ExportThrowsUnderScalar`).
  It also excludes NaN and infinite NUMBERs, for which serialize throws (`ExportTreeThrows`).
- CsvFormat.CsvRoundTrip: does not cover NUMBER values, because their text form is floating point. It also does not cover empty strings, which loadCSV skips.
- The source's UNKNOWN token type, which only the empty argument gets, is named EMPTY.
