/**
 * The string handling the configuration engine borrows from the C and C++ libraries:
 * C-string truncation, std::getline splitting and find_last_of.
 */
module CText {

  /** The text a `const char*` sees: everything before the first NUL character. */
  function CStr(s: string): (r: string)
    ensures r <= s
    ensures '\0' !in r
    ensures '\0' !in s ==> r == s
    ensures |r| < |s| ==> s[|r|] == '\0'
  {
    if |s| == 0 || s[0] == '\0' then "" else [s[0]] + CStr(s[1..])
  }

  /** The position of the first `sep` in s, or |s| when there is none. */
  function IndexOf(s: string, sep: char): (i: nat)
    ensures i <= |s|
    ensures sep !in s[..i]
    ensures i < |s| ==> s[i] == sep
  {
    if |s| == 0 || s[0] == sep then 0 else 1 + IndexOf(s[1..], sep)
  }

  /**
   * The pieces that repeated std::getline(stream, piece, sep) calls extract from s while the
   * stream stays good: n separators give n + 1 pieces, so a trailing separator gives a last,
   * empty piece and the empty string gives one empty piece.
   */
  function Split(s: string, sep: char): (r: seq<string>)
    ensures |r| >= 1
    ensures forall p :: p in r ==> sep !in p
    ensures sep !in s ==> r == [s]
    decreases |s|
  {
    var i := IndexOf(s, sep);
    if i == |s| then [s] else [s[..i]] + Split(s[i + 1..], sep)
  }

  /** The first piece is the text up to the first separator, so a prefix of it. */
  lemma SplitFirstPrefix(s: string, sep: char)
    ensures Split(s, sep)[0] <= s
  {
  }

  /** A text holding the separator splits into at least two pieces. */
  lemma SplitSeparated(s: string, sep: char)
    ensures sep in s ==> |Split(s, sep)| >= 2
  {
  }

  /** A character that is not in the text is in none of its pieces. */
  lemma {:induction false} SplitKeepsOut(s: string, sep: char, c: char)
    requires c !in s
    ensures forall p :: p in Split(s, sep) ==> c !in p
    decreases |s|
  {
    var i := IndexOf(s, sep);
    if i < |s| {
      assert c !in s[i + 1..] by { assert forall x :: x in s[i + 1..] ==> x in s; }
      SplitKeepsOut(s[i + 1..], sep, c);
      assert c !in s[..i] by { assert forall x :: x in s[..i] ==> x in s; }
    }
  }

  /** The pieces written back with `sep` between them. */
  function Join(parts: seq<string>, sep: char): string
  {
    if |parts| == 0 then ""
    else if |parts| == 1 then parts[0]
    else parts[0] + [sep] + Join(parts[1..], sep)
  }

  /** Splitting undoes joining pieces that do not contain the separator. */
  lemma {:induction false} SplitJoin(parts: seq<string>, sep: char)
    requires |parts| >= 1
    requires forall p :: p in parts ==> sep !in p
    ensures Split(Join(parts, sep), sep) == parts
    decreases |parts|
  {
    var s := Join(parts, sep);
    if |parts| == 1 {
      assert s == parts[0] && parts[0] in parts;
      assert sep !in s;
      assert IndexOf(s, sep) == |s|;
    } else {
      var rest := Join(parts[1..], sep);
      assert s == parts[0] + [sep] + rest;
      IndexOfPrefix(parts[0], sep, rest);
      assert s[..|parts[0]|] == parts[0];
      assert s[|parts[0]| + 1..] == rest;
      SplitJoin(parts[1..], sep);
      assert [parts[0]] + parts[1..] == parts;
    }
  }

  lemma {:induction false} IndexOfPrefix(a: string, sep: char, b: string)
    requires sep !in a
    ensures IndexOf(a + [sep] + b, sep) == |a|
    decreases |a|
  {
    if |a| > 0 {
      assert (a + [sep] + b)[1..] == a[1..] + [sep] + b;
      IndexOfPrefix(a[1..], sep, b);
    }
  }

  /** A piece followed by the separator is split off as the first piece. */
  lemma SplitAfter(a: string, sep: char, b: string)
    requires sep !in a
    ensures Split(a + [sep] + b, sep) == [a] + Split(b, sep)
  {
    var s := a + [sep] + b;
    IndexOfPrefix(a, sep, b);
    assert s[..|a|] == a;
    assert s[|a| + 1..] == b;
  }

  /** Joining the pieces gives the split text back. */
  lemma {:induction false} JoinSplit(s: string, sep: char)
    ensures Join(Split(s, sep), sep) == s
    decreases |s|
  {
    var i := IndexOf(s, sep);
    if i < |s| {
      var head, tail := s[..i], s[i + 1..];
      var r := Split(tail, sep);
      calc {
        Join(Split(s, sep), sep);
        Join([head] + r, sep);
        { JoinCons(head, r, sep); }
        head + [sep] + Join(r, sep);
        { JoinSplit(tail, sep); }
        head + [sep] + tail;
        { Reassemble(s, i); }
        s;
      }
    } else {
      assert Split(s, sep) == [s];
    }
  }

  /** A text is the part before position i, the character at i, and the part after it. */
  lemma Reassemble(s: string, i: nat)
    requires i < |s|
    ensures s == s[..i] + [s[i]] + s[i + 1..]
  {
  }

  /** Joining a first piece in front of at least one more. */
  lemma JoinCons(head: string, rest: seq<string>, sep: char)
    requires |rest| >= 1
    ensures Join([head] + rest, sep) == head + [sep] + Join(rest, sep)
  {
    assert ([head] + rest)[1..] == rest;
  }

  /**
   * The text after the last character of s that belongs to `stops` (all of s when there is
   * none): substr(find_last_of(stops) + 1), or the whole string on npos.
   */
  function AfterLast(s: string, stops: set<char>): (r: string)
    ensures |r| <= |s| && r == s[|s| - |r|..]
    ensures forall c :: c in r ==> c !in stops
    ensures |r| < |s| ==> s[|s| - |r| - 1] in stops
    decreases |s|
  {
    if |s| == 0 then ""
    else if s[|s| - 1] in stops then ""
    else AfterLast(s[..|s| - 1], stops) + [s[|s| - 1]]
  }

  /** Whether s contains a character of `stops` (find_last_of != npos). */
  predicate ContainsAny(s: string, stops: set<char>)
  {
    exists i :: 0 <= i < |s| && s[i] in stops
  }

  /** The extension of a path: the text after its last '.', or "" when it has none. */
  function Extension(path: string): (ext: string)
    ensures '.' !in ext
    ensures ContainsAny(path, {'.'}) ==>
              |ext| < |path| && path[|path| - |ext| - 1] == '.' && ext == path[|path| - |ext|..]
    ensures !ContainsAny(path, {'.'}) ==> ext == ""
  {
    if ContainsAny(path, {'.'}) then AfterLast(path, {'.'}) else ""
  }

  /** s ends with `suffix`. */
  predicate EndsWith(s: string, suffix: string)
  {
    |suffix| <= |s| && s[|s| - |suffix|..] == suffix
  }

  /** A path has a given non-empty extension exactly when it ends with a '.' and that text. */
  lemma ExtensionIs(path: string, e: string)
    requires |e| > 0 && '.' !in e
    ensures Extension(path) == e <==> EndsWith(path, ['.'] + e)
  {
    var ext := Extension(path);
    if EndsWith(path, ['.'] + e) {
      var n := |path|;
      assert path[n - |e| - 1] == '.';
      assert ContainsAny(path, {'.'});
      if |ext| != |e| {
        assert false;
      }
      assert ext == path[n - |e|..] == e;
    }
  }

  /** The program name shown in help: argv[0] after its last '/' or '\\'. */
  function BaseName(path: string): (name: string)
    ensures '/' !in name && '\\' !in name
    ensures |name| <= |path| && name == path[|path| - |name|..]
    ensures |name| < |path| ==> path[|path| - |name| - 1] in {'/', '\\'}
    ensures !ContainsAny(path, {'/', '\\'}) ==> name == path
  {
    AfterLast(path, {'/', '\\'})
  }
}
