/**
 * The CSV side of the configuration file format: Config::loadCSV, which reads "flag,value"
 * lines into the value map, and the CSV branch of Config::serialize, which writes the value
 * map as such lines. The functions here are the specifications the LoadCsv and Serialize
 * methods of Config are proved against.
 */
module CsvFormat {
  import opened CNumbers
  import opened Values
  import opened Options
  import opened Logging
  import opened Tokens
  import opened Schema
  import opened Store
  import CText
  import KeyOrder

  // ---- reading ----

  /**
   * The (flag, value) pairs that the inner loop of loadCSV reads from the comma-separated
   * fields of one line: fields 0 and 1, then 2 and 3, and so on; a flag without a field
   * after it gets the empty value.
   */
  function FieldPairs(fields: seq<string>): (r: seq<(string, string)>)
    ensures |r| == (|fields| + 1) / 2
    decreases |fields|
  {
    if |fields| == 0 then []
    else if |fields| == 1 then [(fields[0], "")]
    else [(fields[0], fields[1])] + FieldPairs(fields[2..])
  }

  /** Every pair is made of the line's fields, the value being "" when the last flag has none. */
  lemma {:induction false} FieldPairsFrom(fields: seq<string>)
    ensures forall p :: p in FieldPairs(fields) ==> p.0 in fields && (p.1 in fields || p.1 == "")
    decreases |fields|
  {
    if |fields| >= 2 {
      FieldPairsFrom(fields[2..]);
      assert forall f :: f in fields[2..] ==> f in fields;
    }
  }

  /** The pair at index p of a line holds the fields at 2p and 2p + 1; there is one while 2p is a field index. */
  lemma {:induction false} PairAt(fields: seq<string>, p: nat)
    ensures p < |FieldPairs(fields)| <==> 2 * p < |fields|
    ensures 2 * p < |fields| ==>
              FieldPairs(fields)[p] == (fields[2 * p], if 2 * p + 1 < |fields| then fields[2 * p + 1] else "")
    decreases p
  {
    if p > 0 && |fields| >= 2 {
      PairAt(fields[2..], p - 1);
      if 2 * p < |fields| {
        assert FieldPairs(fields)[p] == FieldPairs(fields[2..])[p - 1];
      }
    }
  }

  /**
   * The pairs of one line; an empty line has none and any other at least one. Flags and
   * values hold no comma, and no line break when the line has none.
   */
  function LinePairs(line: string): (r: seq<(string, string)>)
    ensures |r| == 0 <==> |line| == 0
    ensures forall p :: p in r ==> ',' !in p.0 && ',' !in p.1
    ensures '\n' !in line ==> forall p :: p in r ==> '\n' !in p.0 && '\n' !in p.1
  {
    if line == "" then []
    else if '\n' in line then
      FieldPairsFrom(CText.Split(line, ','));
      FieldPairs(CText.Split(line, ','))
    else
      CText.SplitKeepsOut(line, ',', '\n');
      FieldPairsFrom(CText.Split(line, ','));
      FieldPairs(CText.Split(line, ','))
  }

  /** The pairs of the lines, in order. */
  function LinesPairs(lines: seq<string>): seq<(string, string)>
    decreases |lines|
  {
    if |lines| == 0 then [] else LinePairs(lines[0]) + LinesPairs(lines[1..])
  }

  /** No flag or value read from lines holds a comma, nor a line break when no line holds one. */
  lemma {:induction false} LinesPairsSafe(lines: seq<string>)
    ensures forall p :: p in LinesPairs(lines) ==> ',' !in p.0 && ',' !in p.1
    ensures (forall l :: l in lines ==> '\n' !in l) ==> forall p :: p in LinesPairs(lines) ==> '\n' !in p.0 && '\n' !in p.1
    decreases |lines|
  {
    if |lines| > 0 {
      assert lines[0] in lines;
      assert forall l :: l in lines[1..] ==> l in lines;
      LinesPairsSafe(lines[1..]);
    }
  }

  /**
   * The pairs loadCSV visits in a text: the lines are its '\n'-separated pieces. No flag or
   * value it reads holds a comma or a line break.
   */
  function CsvPairs(text: string): (r: seq<(string, string)>)
    ensures forall p :: p in r ==> CsvSafe(p.0) && CsvSafe(p.1)
  {
    LinesPairsSafe(CText.Split(text, '\n'));
    LinesPairs(CText.Split(text, '\n'))
  }

  lemma {:induction false} LinesPairsSnoc(lines: seq<string>, line: string)
    ensures LinesPairs(lines + [line]) == LinesPairs(lines) + LinePairs(line)
    decreases |lines|
  {
    if |lines| == 0 {
      assert [] + [line] == [line];
    } else {
      assert (lines + [line])[1..] == lines[1..] + [line];
      LinesPairsSnoc(lines[1..], line);
    }
  }

  /** The type a configuration value is parsed as: the option's, or STRING for an unknown flag. */
  function StoredType(options: Schema, flag: string): DataType
  {
    if flag in options then options[flag].Type() else STRING
  }

  /** One pair: skipped when its value is empty (and only then), otherwise applied as `PairApplied` states. */
  function ApplyPair(options: Schema, st: Store, pair: (string, string), lib: CLib): (r: Store)
    ensures pair.1 == "" ==> r == st
    ensures pair.1 != "" ==> |r.records| == |st.records| + 1
  {
    var (flag, value) := pair;
    if value == "" then st
    else
      var msg := if flag in options then "value is loaded from config"
                 else "value is not defined in config, parsed as a string value";
      st.Put(flag, ParseValue(value, StoredType(options, flag), lib)).Note(INFO, flag, msg)
  }

  /**
   * A pair with a value is parsed as the flag's type, stored under the flag and nowhere else,
   * and reported with one INFO record about the flag.
   */
  lemma PairApplied(options: Schema, st: Store, pair: (string, string), lib: CLib)
    requires pair.1 != ""
    ensures var r := ApplyPair(options, st, pair, lib);
      && r.values.Keys == st.values.Keys + {pair.0}
      && (r.values[pair.0].Unknown? || r.values[pair.0].Type() == StoredType(options, pair.0))
      && (forall k :: k in st.values && k != pair.0 ==> r.values[k] == st.values[k])
      && |r.records| == |st.records| + 1 && r.records[..|st.records|] == st.records
      && r.records[|st.records|].level == INFO && r.records[|st.records|].token == pair.0
  {
  }

  /** The pairs applied one after the other. */
  function ApplyPairs(options: Schema, st: Store, pairs: seq<(string, string)>, lib: CLib): (r: Store)
    ensures |r.records| >= |st.records| && r.records[..|st.records|] == st.records
    ensures st.values.Keys <= r.values.Keys
    decreases |pairs|
  {
    if |pairs| == 0 then st
    else ApplyPair(options, ApplyPairs(options, st, pairs[..|pairs| - 1], lib), pairs[|pairs| - 1], lib)
  }

  /** A registered flag is only ever given a value of its option's type (or UNKNOWN). */
  lemma {:induction false} ApplyPairsKeepTyped(options: Schema, st: Store, pairs: seq<(string, string)>, lib: CLib)
    ensures Typed(options, st.values) ==> Typed(options, ApplyPairs(options, st, pairs, lib).values)
    decreases |pairs|
  {
    if |pairs| > 0 {
      ApplyPairsKeepTyped(options, st, pairs[..|pairs| - 1], lib);
    }
  }

  /** Config::loadCSV(text) on the value map `values`: the new map and the records reported. */
  function CsvLoad(options: Schema, values: map<string, Value>, text: string, lib: CLib): (r: Store)
    ensures Typed(options, values) ==> Typed(options, r.values)
  {
    ApplyPairsKeepTyped(options, Store(values, []), CsvPairs(text), lib);
    ApplyPairs(options, Store(values, []), CsvPairs(text), lib)
  }

  lemma {:induction false} ApplyPairsAppend(options: Schema, st: Store, a: seq<(string, string)>, b: seq<(string, string)>, lib: CLib)
    ensures ApplyPairs(options, st, a + b, lib) == ApplyPairs(options, ApplyPairs(options, st, a, lib), b, lib)
    decreases |b|
  {
    if |b| == 0 {
      assert a + b == a;
    } else {
      assert (a + b)[..|a + b| - 1] == a + b[..|b| - 1];
      ApplyPairsAppend(options, st, a, b[..|b| - 1], lib);
    }
  }

  /** Loading a CSV text reports nothing but INFO records: it never warns or fails. */
  lemma {:induction false} LoadOnlyInforms(options: Schema, st: Store, pairs: seq<(string, string)>, lib: CLib)
    ensures forall x :: x in ApplyPairs(options, st, pairs, lib).records[|st.records|..] ==> x.level == INFO
    decreases |pairs|
  {
    if |pairs| > 0 {
      var before := ApplyPairs(options, st, pairs[..|pairs| - 1], lib);
      LoadOnlyInforms(options, st, pairs[..|pairs| - 1], lib);
      var r := ApplyPairs(options, st, pairs, lib);
      assert r.records[|st.records|..] == before.records[|st.records|..] + r.records[|before.records|..];
    }
  }

  /** A pair with a value adds one record, a pair without one none. */
  lemma {:induction false} LoadedCount(options: Schema, st: Store, pairs: seq<(string, string)>, lib: CLib)
    ensures |ApplyPairs(options, st, pairs, lib).records| <= |st.records| + |pairs|
    ensures |ApplyPairs(options, st, pairs, lib).records| == |st.records| + |pairs| <==>
              forall p :: p in pairs ==> p.1 != ""
    decreases |pairs|
  {
    if |pairs| > 0 {
      var init := pairs[..|pairs| - 1];
      LoadedCount(options, st, init, lib);
      assert pairs == init + [pairs[|pairs| - 1]];
    }
  }

  /**
   * A value loaded for a registered option has the option's type or is UNKNOWN (an unreadable
   * number); one loaded for an unknown flag is a string. So loading keeps the typing of the
   * value map.
   */
  lemma {:induction false} LoadKeepsTypes(options: Schema, st: Store, pairs: seq<(string, string)>, lib: CLib)
    requires forall k :: k in st.values ==> st.values[k].Unknown? || st.values[k].Type() == StoredType(options, k)
    ensures var r := ApplyPairs(options, st, pairs, lib);
      forall k :: k in r.values ==> r.values[k].Unknown? || r.values[k].Type() == StoredType(options, k)
    decreases |pairs|
  {
    if |pairs| > 0 {
      LoadKeepsTypes(options, st, pairs[..|pairs| - 1], lib);
    }
  }

  // ---- status ----

  /**
   * loadCSV returns true whatever the text: the statement that would clear its status for a
   * pair without a value follows the `continue` that skips that pair. The line "a," names flag
   * a without a value; the pair is dropped silently, without a record.
   */
  lemma MissingValueIsDropped(options: Schema, values: map<string, Value>, lib: CLib)
    ensures CsvPairs("a,") == [("a", "")]
    ensures CsvLoad(options, values, "a,", lib) == Store(values, [])
  {
    assert CText.Split("a,", '\n') == ["a,"];
    assert CText.Split("a,", ',') == ["a", ""] by {
      CText.SplitAfter("a", ',', "");
      assert "a" + [','] + "" == "a,";
    }
    assert LinesPairs(["a,"]) == LinePairs("a,") + LinesPairs([]);
    var pairs := [("a", "")];
    assert pairs[..0] == [];
  }

  // ---- writing ----

  /** The text serialize writes after the comma: print(), without the quotes of a STRING. */
  function CsvField(v: Value, lib: CLib): (f: string)
    ensures v.Str? ==> f == v.GetString()
    ensures !v.Str? ==> f == Print(v, lib)
  {
    var p := Print(v, lib);
    if v.Str? && |p| >= 2 then p[1..|p| - 1] else p
  }

  /** The line of one value: the flag, a comma, the field and std::endl. */
  function CsvLine(flag: string, v: Value, lib: CLib): (r: string)
    ensures |flag| + 2 <= |r| && r[|r| - 1] == '\n' && r[..|flag|] == flag && r[|flag|] == ','
  {
    flag + "," + CsvField(v, lib) + "\n"
  }

  /** Without its line break, a written line reads back as its one pair when neither part holds a comma. */
  lemma LineReadsBack(flag: string, v: Value, lib: CLib)
    requires ',' !in flag && ',' !in CsvField(v, lib)
    ensures var line := CsvLine(flag, v, lib); LinePairs(line[..|line| - 1]) == [(flag, CsvField(v, lib))]
  {
    var f := CsvField(v, lib);
    var line := flag + "," + f;
    assert CsvLine(flag, v, lib)[..|line|] == line;
    CText.SplitAfter(flag, ',', f);
    assert CText.Split(f, ',') == [f];
    assert flag + [','] + f == line;
  }

  /** The lines of the values under `keys`, in key order. */
  function CsvLines(values: map<string, Value>, keys: set<string>, lib: CLib): string
    requires keys <= values.Keys
    decreases keys
  {
    if keys == {} then ""
    else
      var k := KeyOrder.Least(keys);
      CsvLine(k, values[k], lib) + CsvLines(values, keys - {k}, lib)
  }

  /** The CSV branch of Config::serialize: one line per value, in key order. */
  function CsvText(values: map<string, Value>, lib: CLib): string
  {
    CsvLines(values, values.Keys, lib)
  }

  /**
   * The lines of some values are empty only when there are no values, and otherwise end with
   * the line break of the last line.
   */
  lemma {:induction false} CsvLinesShape(values: map<string, Value>, keys: set<string>, lib: CLib)
    requires keys <= values.Keys
    ensures CsvLines(values, keys, lib) == "" <==> keys == {}
    ensures keys != {} ==> CText.EndsWith(CsvLines(values, keys, lib), "\n")
    decreases keys
  {
    if keys != {} {
      var k := KeyOrder.Least(keys);
      var line := CsvLine(k, values[k], lib);
      var rest := CsvLines(values, keys - {k}, lib);
      CsvLinesShape(values, keys - {k}, lib);
      assert CsvLines(values, keys, lib) == line + rest;
      LinesEndWithBreak(line, rest);
    }
  }

  /** A line ending in a break, followed by lines that are empty or end in one, ends in one. */
  lemma LinesEndWithBreak(line: string, rest: string)
    requires |line| > 0 && line[|line| - 1] == '\n'
    requires rest == "" || CText.EndsWith(rest, "\n")
    ensures line + rest != "" && CText.EndsWith(line + rest, "\n")
  {
    if rest != "" {
      assert (line + rest)[|line + rest| - 1] == rest[|rest| - 1];
    } else {
      assert line + rest == line;
    }
  }

  /** The pairs of the values under `keys`, in key order, as CsvText writes them. */
  function WrittenPairs(values: map<string, Value>, keys: set<string>, lib: CLib): (r: seq<(string, string)>)
    requires keys <= values.Keys
    ensures forall p :: p in r ==> p.0 in keys && p.1 == CsvField(values[p.0], lib)
    decreases keys
  {
    if keys == {} then []
    else
      var k := KeyOrder.Least(keys);
      [(k, CsvField(values[k], lib))] + WrittenPairs(values, keys - {k}, lib)
  }

  /** Neither a comma nor a line break: a text that survives as one CSV field. */
  predicate CsvSafe(s: string)
  {
    ',' !in s && '\n' !in s
  }

  /** Reading back the written lines gives the written pairs, when no flag or field breaks a line. */
  lemma {:induction false} ReadWrittenLines(values: map<string, Value>, keys: set<string>, lib: CLib)
    requires keys <= values.Keys
    requires forall k :: k in keys ==> CsvSafe(k) && CsvSafe(CsvField(values[k], lib))
    ensures CsvPairs(CsvLines(values, keys, lib)) == WrittenPairs(values, keys, lib)
    decreases keys
  {
    if keys == {} {
      assert CText.Split("", '\n') == [""];
    } else {
      var k := KeyOrder.Least(keys);
      var f := CsvField(values[k], lib);
      var line := k + "," + f;
      var rest := CsvLines(values, keys - {k}, lib);
      assert CsvLines(values, keys, lib) == line + ['\n'] + rest;
      CText.SplitAfter(line, '\n', rest);
      CText.SplitAfter(k, ',', f);
      assert CText.Split(f, ',') == [f];
      assert CText.Split(line, ',') == [k, f];
      assert LinePairs(line) == [(k, f)];
      var lines := CText.Split(rest, '\n');
      assert ([line] + lines)[1..] == lines;
      assert LinesPairs([line] + lines) == [(k, f)] + LinesPairs(lines);
      ReadWrittenLines(values, keys - {k}, lib);
    }
  }

  /** Applying the written pairs stores each non-empty field, parsed, and leaves other flags alone. */
  lemma {:induction false} LoadWrittenPairs(options: Schema, st: Store, values: map<string, Value>, keys: set<string>, lib: CLib)
    requires keys <= values.Keys
    ensures var r := ApplyPairs(options, st, WrittenPairs(values, keys, lib), lib);
      && (forall k :: k in keys && CsvField(values[k], lib) != "" ==>
            k in r.values && r.values[k] == ParseValue(CsvField(values[k], lib), StoredType(options, k), lib))
      && (forall k :: k !in keys ==> (k in r.values <==> k in st.values) && (k in st.values ==> r.values[k] == st.values[k]))
    decreases keys
  {
    if keys != {} {
      var k0 := KeyOrder.Least(keys);
      var head := [(k0, CsvField(values[k0], lib))];
      var tail := WrittenPairs(values, keys - {k0}, lib);
      ApplyPairsAppend(options, st, head, tail, lib);
      assert head[..0] == [];
      var mid := ApplyPairs(options, st, head, lib);
      assert mid == ApplyPair(options, st, head[0], lib);
      LoadWrittenPairs(options, mid, values, keys - {k0}, lib);
    }
  }

  /** A value that CSV writes and reads back unchanged under `flag`. */
  predicate Restorable(options: Schema, flag: string, v: Value)
  {
    && (v.Int? || v.Bool? || (v.Str? && v.s != "" && '\0' !in v.s))
    && v.Type() == StoredType(options, flag)
  }

  lemma FieldReadsBack(options: Schema, flag: string, v: Value, lib: CLib)
    requires forall t :: lib.scanInt(t) == ScanInt(t)
    requires Restorable(options, flag, v)
    ensures ParseValue(CsvField(v, lib), StoredType(options, flag), lib) == v
  {
    var f := CsvField(v, lib);
    match v
    case Int(i) =>
      assert f == FormatInt(i);
      IntFieldReadsBack(i, lib);
    case Bool(b) =>
      assert f == (if b then "true" else "false");
      assert CText.CStr(f) == f;
    case Str(t) =>
      assert f == t;
      assert CText.CStr(f) == f;
  }

  /** The printed form of an int, read back as an INT, is that int. */
  lemma IntFieldReadsBack(i: int32, lib: CLib)
    requires forall t :: lib.scanInt(t) == ScanInt(t)
    ensures ParseValue(FormatInt(i), INT, lib) == Int(i)
  {
    var f := FormatInt(i);
    assert CText.CStr(f) == f by { CStrOfDigits(f); }
    assert ScanInt(f).Some? && ScanInt(f).value == i by {
      ScanFormattedInt(i, "");
      assert f + "" == f;
    }
    assert lib.scanInt(f) == ScanInt(f);
  }

  lemma {:induction false} CStrOfDigits(s: string)
    requires forall k :: 0 <= k < |s| ==> s[k] == '-' || IsDigit(s[k])
    ensures CText.CStr(s) == s
    decreases |s|
  {
    if |s| > 0 {
      CStrOfDigits(s[1..]);
      assert [s[0]] + s[1..] == s;
    }
  }

  /**
   * The CSV round trip: loading what serialize wrote restores every INT, BOOL and non-empty
   * STRING value whose type is the one its flag is loaded as, provided no flag and no written
   * field contains a comma or a line break; flags that were not written keep their values.
   */
  lemma CsvRoundTrip(options: Schema, base: map<string, Value>, values: map<string, Value>, lib: CLib)
    requires Standard(lib)
    requires forall k :: k in values ==> CsvSafe(k) && CsvSafe(CsvField(values[k], lib))
    ensures var r := CsvLoad(options, base, CsvText(values, lib), lib).values;
      && (forall k :: k in values && Restorable(options, k, values[k]) ==> k in r && r[k] == values[k])
      && (forall k :: k !in values ==> (k in r <==> k in base) && (k in base ==> r[k] == base[k]))
  {
    ReadWrittenLines(values, values.Keys, lib);
    LoadWrittenPairs(options, Store(base, []), values, values.Keys, lib);
    forall k | k in values && Restorable(options, k, values[k])
      ensures CsvField(values[k], lib) != ""
      ensures ParseValue(CsvField(values[k], lib), StoredType(options, k), lib) == values[k]
    {
      FieldReadsBack(options, k, values[k], lib);
    }
  }
}
