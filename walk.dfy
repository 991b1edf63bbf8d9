/**
 * The command-line walk of Config::parse: each argument after the program name is classified
 * and either selects the option that the next value is for, or is such a value.
 * `Walk` is the specification the Parse method is proved against; the lemmas below state what
 * the walk promises about the values it leaves behind.
 */
module CommandLine {
  import opened Wrappers
  import opened CNumbers
  import opened Values
  import opened Options
  import opened Logging
  import opened Tokens
  import opened Schema
  import opened Store

  /**
   * `currentOption`: nothing, or the option the next value is for, kept by the flag it is
   * stored under and its declared type. An unregistered long flag selects the wildcard
   * option, a STRING option named after the flag's text.
   */
  datatype Cursor = NoCursor | Cursor(flag: string, ty: DataType)

  datatype WalkState = WalkState(store: Store, cursor: Cursor)

  predicate AllCStrings(tokens: seq<string>)
  {
    forall t :: t in tokens ==> IsCString(t)
  }

  /**
   * One iteration of the walk, on argument `token`. It reports at most one record, keeps every
   * stored flag, and changes a value only under the flag selected before it (a value
   * argument) or by it (a BOOL flag). A value argument ends the selection; the empty
   * argument changes neither the selection nor the values.
   */
  function Step(options: Schema, w: WalkState, token: string, lib: CLib): (r: WalkState)
    requires IsCString(token)
    ensures |w.store.records| <= |r.store.records| <= |w.store.records| + 1
    ensures r.store.records[..|w.store.records|] == w.store.records
    ensures w.store.values.Keys <= r.store.values.Keys
    ensures forall k :: Changed(w.store.values, r.store.values, k) ==>
              (w.cursor.Cursor? && k == w.cursor.flag) || (r.cursor.Cursor? && k == r.cursor.flag)
    ensures GetTokenType(token, lib) == VALUE ==> r.cursor == NoCursor
    ensures GetTokenType(token, lib) == EMPTY ==> r.cursor == w.cursor && r.store.values == w.store.values
  {
    match GetTokenType(token, lib)
    case EMPTY => WalkState(w.store.Note(ERROR, token, "unknown input"), w.cursor)
    case VALUE => ValueStep(w, token, lib)
    case FLAG => FlagStep(options, w, token, FLAG)
    case SHORTFLAG => FlagStep(options, w, token, SHORTFLAG)
  }

  /**
   * The option a flag selects: the registered option it names; for an unregistered long flag
   * the wildcard, a STRING option named after the flag's text; otherwise none.
   */
  function FlagCursor(options: Schema, token: string, tt: TokenType): (c: Cursor)
    requires tt == FLAG || tt == SHORTFLAG
    requires tt == FLAG ==> |token| >= 2
    requires tt == SHORTFLAG ==> |token| >= 1
    ensures ResolveOption(options, token, tt).Some? ==>
              c == Cursor(ResolveOption(options, token, tt).value.flag, ResolveOption(options, token, tt).value.Type())
    ensures ResolveOption(options, token, tt).None? ==> c == if tt == FLAG then Cursor(token[2..], STRING) else NoCursor
  {
    match ResolveOption(options, token, tt)
    case Some(o) => Cursor(o.flag, o.Type())
    case None => if tt == FLAG then Cursor(token[2..], STRING) else NoCursor
  }

  /** A flag: select its option, warn when it is not registered, and set a BOOL option to true at once. */
  function FlagStep(options: Schema, w: WalkState, token: string, tt: TokenType): (r: WalkState)
    requires tt == FLAG || tt == SHORTFLAG
    requires tt == FLAG ==> |token| >= 2
    requires tt == SHORTFLAG ==> |token| >= 1
    ensures r.cursor == FlagCursor(options, token, tt)
    ensures r.store.values == if r.cursor.Cursor? && r.cursor.ty == BOOL then w.store.values[r.cursor.flag := Bool(true)]
                              else w.store.values
  {
    var found := ResolveOption(options, token, tt);
    var st := if found.Some? then w.store else w.store.Note(WARNING, token, "unrecognized flag");
    var cursor := FlagCursor(options, token, tt);
    if cursor.Cursor? && cursor.ty == BOOL then WalkState(st.Put(cursor.flag, Bool(true)), cursor)
    else WalkState(st, cursor)
  }

  /** A value: stored for the selected option when it parses as the option's type; the selection ends. */
  function ValueStep(w: WalkState, token: string, lib: CLib): (r: WalkState)
    ensures r.cursor == NoCursor
    ensures r.store.values ==
              if w.cursor.Cursor? && !ParseValue(token, w.cursor.ty, lib).IsEmpty()
              then w.store.values[w.cursor.flag := ParseValue(token, w.cursor.ty, lib)]
              else w.store.values
  {
    match w.cursor
    case NoCursor => WalkState(w.store.Note(WARNING, token, "unassociated argument is not stored"), NoCursor)
    case Cursor(flag, ty) =>
      var v := ParseValue(token, ty, lib);
      if v.IsEmpty() then WalkState(w.store.Note(WARNING, token, "unvalid value type is provided"), NoCursor)
      else WalkState(w.store.Put(flag, v).Note(INFO, token, "value parsed successfully"), NoCursor)
  }

  /** The walk over `tokens`, argument by argument. */
  function Walk(options: Schema, w: WalkState, tokens: seq<string>, lib: CLib): (r: WalkState)
    requires AllCStrings(tokens)
    ensures w.store.values.Keys <= r.store.values.Keys
  {
    if |tokens| == 0 then w
    else Step(options, Walk(options, w, tokens[..|tokens| - 1], lib), tokens[|tokens| - 1], lib)
  }

  lemma WalkSnoc(options: Schema, w: WalkState, tokens: seq<string>, t: string, lib: CLib)
    requires AllCStrings(tokens) && IsCString(t)
    ensures AllCStrings(tokens + [t])
    ensures Walk(options, w, tokens + [t], lib) == Step(options, Walk(options, w, tokens, lib), t, lib)
  {
    assert (tokens + [t])[..|tokens|] == tokens;
  }

  // ---- what the walk stores, and where ----

  predicate Changed(before: map<string, Value>, after: map<string, Value>, k: string)
  {
    k in after && (k !in before || after[k] != before[k])
  }

  /** A key the walk may store under: a registered option's flag, or the text of a long flag among the tokens. */
  predicate Named(options: Schema, tokens: seq<string>, k: string, lib: CLib)
  {
    || (exists key :: key in options && options[key].flag == k)
    || (exists t :: t in tokens && IsCString(t) && GetTokenType(t, lib) == FLAG && t[2..] == k)
  }

  /**
   * The walk stores a value only under the flag of a registered option or under the text
   * after "--" of an unregistered long flag it was given, and never stores an empty value.
   */
  lemma {:induction false} WalkWritesOnlyNamedFlags(options: Schema, w: WalkState, tokens: seq<string>, lib: CLib)
    requires AllCStrings(tokens)
    requires w.cursor == NoCursor
    ensures var r := Walk(options, w, tokens, lib);
            forall k :: Changed(w.store.values, r.store.values, k) ==>
              Named(options, tokens, k, lib) && !r.store.values[k].IsEmpty()
    ensures var r := Walk(options, w, tokens, lib);
            r.cursor.Cursor? ==> Named(options, tokens, r.cursor.flag, lib)
    decreases |tokens|
  {
    if |tokens| > 0 {
      var init := tokens[..|tokens| - 1];
      var t := tokens[|tokens| - 1];
      assert tokens == init + [t];
      WalkWritesOnlyNamedFlags(options, w, init, lib);
      var p := Walk(options, w, init, lib);
      var r := Walk(options, w, tokens, lib);
      assert r == Step(options, p, t, lib);
      forall k | Named(options, init, k, lib)
        ensures Named(options, tokens, k, lib)
      {
        if !exists key :: key in options && options[key].flag == k {
          var u :| u in init && IsCString(u) && GetTokenType(u, lib) == FLAG && u[2..] == k;
          assert u in tokens;
        }
      }
      var tt := GetTokenType(t, lib);
      if tt == FLAG || tt == SHORTFLAG {
        var found := ResolveOption(options, t, tt);
        if found.Some? {
          var key := FlagName(options, t, tt);
          assert key in options && options[key].flag == found.value.flag;
        } else if tt == FLAG {
          assert t in tokens;
        }
      } else if tt == VALUE {
        if p.cursor.Cursor? {
          assert Named(options, tokens, p.cursor.flag, lib);
        }
      }
    }
  }

  /** Every registered option is stored under its own flag, as Config::option registers it. */
  predicate WellKeyed(options: Schema)
  {
    forall k :: k in options ==> options[k].flag == k
  }

  /**
   * Under a registered flag the walk stores only values of the option's declared type.
   * (An option registered under the empty flag could be overwritten through the wildcard by
   * a bare "--", hence the second requirement.)
   */
  lemma {:induction false} WalkKeepsDeclaredTypes(options: Schema, w: WalkState, tokens: seq<string>, lib: CLib)
    requires AllCStrings(tokens)
    requires WellKeyed(options) && "" !in options
    requires w.cursor == NoCursor
    ensures var r := Walk(options, w, tokens, lib);
            forall k :: k in options && Changed(w.store.values, r.store.values, k) ==>
              r.store.values[k].Type() == options[k].Type()
    ensures var r := Walk(options, w, tokens, lib);
            r.cursor.Cursor? && r.cursor.flag in options ==> r.cursor.ty == options[r.cursor.flag].Type()
    decreases |tokens|
  {
    if |tokens| > 0 {
      var init := tokens[..|tokens| - 1];
      var t := tokens[|tokens| - 1];
      assert tokens == init + [t];
      WalkKeepsDeclaredTypes(options, w, init, lib);
      var p := Walk(options, w, init, lib);
      assert Walk(options, w, tokens, lib) == Step(options, p, t, lib);
      var tt := GetTokenType(t, lib);
      if tt == FLAG || tt == SHORTFLAG {
        var found := ResolveOption(options, t, tt);
        if found.Some? {
          var key := FlagName(options, t, tt);
          assert options[key].flag == key;
        } else if tt == FLAG {
          assert t[2..] !in options;
        }
      }
    }
  }

  /**
   * Value precedence on the command line: a flag naming a registered option followed by a
   * value of its type stores that value under the option's flag, whatever came before.
   */
  lemma FlagThenValue(options: Schema, w: WalkState, pre: seq<string>, f: string, v: string, lib: CLib)
    requires AllCStrings(pre) && IsCString(f) && IsCString(v)
    requires GetTokenType(f, lib) == FLAG || GetTokenType(f, lib) == SHORTFLAG
    requires ResolveOption(options, f, GetTokenType(f, lib)).Some?
    requires GetTokenType(v, lib) == VALUE
    requires !ParseValue(v, ResolveOption(options, f, GetTokenType(f, lib)).value.Type(), lib).IsEmpty()
    ensures AllCStrings(pre + [f, v])
    ensures var o := ResolveOption(options, f, GetTokenType(f, lib)).value;
            var r := Walk(options, w, pre + [f, v], lib);
            r.store.values == Walk(options, w, pre, lib).store.values[o.flag := ParseValue(v, o.Type(), lib)]
            && r.cursor == NoCursor
  {
    WalkSnoc(options, w, pre, f, lib);
    WalkSnoc(options, w, pre + [f], v, lib);
    assert pre + [f] + [v] == pre + [f, v];
  }

  /** A flag naming a registered BOOL option sets it to true by itself. */
  lemma BoolFlagSetsTrue(options: Schema, w: WalkState, pre: seq<string>, f: string, lib: CLib)
    requires AllCStrings(pre) && IsCString(f)
    requires GetTokenType(f, lib) == FLAG || GetTokenType(f, lib) == SHORTFLAG
    requires ResolveOption(options, f, GetTokenType(f, lib)).Some?
    requires ResolveOption(options, f, GetTokenType(f, lib)).value.Type() == BOOL
    ensures AllCStrings(pre + [f])
    ensures var o := ResolveOption(options, f, GetTokenType(f, lib)).value;
            var r := Walk(options, w, pre + [f], lib);
            r.store.values == Walk(options, w, pre, lib).store.values[o.flag := Bool(true)]
            && r.cursor == Cursor(o.flag, BOOL)
  {
    WalkSnoc(options, w, pre, f, lib);
  }

  /** An unregistered long flag stores the next value as a STRING under the flag's own text. */
  lemma UnregisteredLongFlag(options: Schema, w: WalkState, pre: seq<string>, f: string, v: string, lib: CLib)
    requires AllCStrings(pre) && IsCString(f) && IsCString(v)
    requires GetTokenType(f, lib) == FLAG && ResolveOption(options, f, FLAG).None?
    requires GetTokenType(v, lib) == VALUE
    ensures AllCStrings(pre + [f, v])
    ensures var r := Walk(options, w, pre + [f, v], lib);
            r.store.values == Walk(options, w, pre, lib).store.values[f[2..] := FromCString(v)]
            && r.cursor == NoCursor
  {
    WalkSnoc(options, w, pre, f, lib);
    WalkSnoc(options, w, pre + [f], v, lib);
    assert pre + [f] + [v] == pre + [f, v];
  }

  /** An unregistered short flag selects nothing, so the value after it is not stored. */
  lemma UnregisteredShortFlag(options: Schema, w: WalkState, pre: seq<string>, f: string, v: string, lib: CLib)
    requires AllCStrings(pre) && IsCString(f) && IsCString(v)
    requires GetTokenType(f, lib) == SHORTFLAG && ResolveOption(options, f, SHORTFLAG).None?
    requires GetTokenType(v, lib) == VALUE
    ensures AllCStrings(pre + [f, v])
    ensures var r := Walk(options, w, pre + [f, v], lib);
            r.store.values == Walk(options, w, pre, lib).store.values && r.cursor == NoCursor
  {
    WalkSnoc(options, w, pre, f, lib);
    WalkSnoc(options, w, pre + [f], v, lib);
    assert pre + [f] + [v] == pre + [f, v];
  }

  /** Arguments that are no flags change no value: without a flag, values are stray and only logged. */
  lemma {:induction false} NoFlagsNoChange(options: Schema, w: WalkState, tokens: seq<string>, lib: CLib)
    requires AllCStrings(tokens)
    requires forall t :: t in tokens ==> GetTokenType(t, lib) == VALUE || GetTokenType(t, lib) == EMPTY
    requires w.cursor == NoCursor
    ensures Walk(options, w, tokens, lib).store.values == w.store.values
    ensures Walk(options, w, tokens, lib).cursor == NoCursor
    decreases |tokens|
  {
    if |tokens| > 0 {
      var init := tokens[..|tokens| - 1];
      var t := tokens[|tokens| - 1];
      assert tokens == init + [t];
      NoFlagsNoChange(options, w, init, lib);
    }
  }

  // ---- the configuration-file scan ----

  predicate IsConfigFlag(s: string)
  {
    s == "--config" || s == "-cfg"
  }

  /**
   * The files the first loop of Config::parse loads, in order: for each position i with
   * 1 <= i < n, the argument after a "--config" or "-cfg" at i when it is a value.
   */
  function ConfigPathsBelow(argv: seq<string>, n: nat, lib: CLib): (r: seq<string>)
    requires AllCStrings(argv)
    requires n <= 1 || n < |argv|
    ensures forall p :: p in r <==>
              exists i :: 1 <= i < n && IsConfigFlag(argv[i]) && GetTokenType(argv[i + 1], lib) == VALUE && argv[i + 1] == p
  {
    if n <= 1 then []
    else
      var i := n - 1;
      var prev := ConfigPathsBelow(argv, n - 1, lib);
      assert argv[i + 1] in argv;
      prev + (if IsConfigFlag(argv[i]) && GetTokenType(argv[i + 1], lib) == VALUE then [argv[i + 1]] else [])
  }

  /**
   * All the configuration files named on the command line `argv` (program name first): the
   * value arguments that directly follow a "--config" or "-cfg" after the program name.
   */
  function ConfigPaths(argv: seq<string>, lib: CLib): seq<string>
    requires AllCStrings(argv) && |argv| >= 1
  {
    ConfigPathsBelow(argv, |argv| - 1, lib)
  }

  /**
   * A file is loaded exactly when it is a value argument right after a "--config" or "-cfg"
   * that follows the program name; so it is never the program name or the first argument.
   */
  lemma ConfigPathsMembers(argv: seq<string>, lib: CLib)
    requires AllCStrings(argv) && |argv| >= 1
    ensures forall p :: p in ConfigPaths(argv, lib) <==>
              exists i :: 1 <= i < |argv| - 1 && IsConfigFlag(argv[i]) && GetTokenType(argv[i + 1], lib) == VALUE && argv[i + 1] == p
    ensures forall p :: p in ConfigPaths(argv, lib) ==> p in argv[2..] && GetTokenType(p, lib) == VALUE
  {
    var r := ConfigPaths(argv, lib);
    forall p | p in r ensures p in argv[2..] {
      var i :| 1 <= i < |argv| - 1 && argv[i + 1] == p;
      assert argv[2..][i - 1] == p;
    }
  }
}
