/**
 * The two pure helpers of the command-line parser: Config::getTokenType, which classifies an
 * argument, and Config::parseValue, which coerces a text to a declared type.
 */
module Tokens {
  import opened Wrappers
  import opened CNumbers
  import opened Values
  import CText

  /** Config::TokenType. The source's UNKNOWN, which only the empty token gets, is EMPTY here. */
  datatype TokenType = EMPTY | FLAG | SHORTFLAG | VALUE

  /** A C string: the arguments of main never contain a NUL character. */
  predicate IsCString(s: string)
  {
    '\0' !in s
  }

  /**
   * Config::getTokenType. A token starting with '-' is a value when strtod converts all of it
   * (so negative numbers are values); otherwise "--..." is a long flag and any other "-..."
   * is a short flag. The empty token is EMPTY and every other token is a value.
   */
  function GetTokenType(token: string, lib: CLib): (t: TokenType)
    requires IsCString(token)
    ensures t == EMPTY <==> token == ""
    ensures t == FLAG ==> |token| >= 2 && token[0] == '-' && token[1] == '-'
    ensures t == SHORTFLAG ==> |token| >= 1 && token[0] == '-'
  {
    if |token| == 0 then EMPTY
    else if token[0] == '-' then
      if lib.strtodWhole(token) then VALUE
      // token[1] is the terminating NUL of a one-character token
      else if |token| >= 2 && token[1] == '-' then FLAG
      else SHORTFLAG
    else VALUE
  }

  /** The classification in full: which tokens are values, long flags and short flags. */
  lemma TokenClasses(token: string, lib: CLib)
    requires IsCString(token) && Standard(lib)
    ensures GetTokenType(token, lib) == VALUE <==> token != "" && (token[0] != '-' || StrtodWhole(token))
    ensures GetTokenType(token, lib) == FLAG <==> |token| >= 2 && token[0] == '-' && token[1] == '-' && !StrtodWhole(token)
    ensures GetTokenType(token, lib) == SHORTFLAG <==>
              |token| >= 1 && token[0] == '-' && !(|token| >= 2 && token[1] == '-') && !StrtodWhole(token)
  {
    assert lib.strtodWhole(token) == StrtodWhole(token);
  }

  lemma LowerDigits(d: string)
    requires AllDigits(d)
    ensures LowerAll(d) == d
  {
  }

  lemma {:induction false} NoLetterInDigits(d: string)
    requires AllDigits(d)
    ensures CText.IndexOf(d, 'e') == |d|
    decreases |d|
  {
    if |d| > 0 { NoLetterInDigits(d[1..]); }
  }

  lemma {:induction false} DigitsAreMantissa(d: string, dot: bool, digit: bool)
    requires AllDigits(d) && (|d| >= 1 || digit)
    ensures MantissaRest(d, false, dot, digit)
    decreases |d|
  {
    if |d| > 0 { DigitsAreMantissa(d[1..], dot, true); }
  }

  /** A non-empty run of decimal digits is a complete decimal floating-point subject. */
  lemma DigitsAreFloatSubject(d: string)
    requires AllDigits(d) && |d| >= 1
    ensures FloatSubject(d)
  {
    LowerDigits(d);
    NoLetterInDigits(d);
    assert d[..|d|] == d;
    DigitsAreMantissa(d, false, false);
    assert WithExponent(d, 'e', false);
  }

  /** A minus sign followed by decimal digits is converted whole by strtod. */
  lemma NegativeDigitsConvertWhole(d: string)
    requires AllDigits(d) && |d| >= 1
    ensures StrtodWhole("-" + d)
  {
    var s := "-" + d;
    assert SkipSpace(s) == s;
    assert s[1..] == d;
    DigitsAreFloatSubject(d);
  }

  /** Every negative integer as printf("%d") writes it is a value, not a short flag. */
  lemma NegativeIntIsValue(i: int32, lib: CLib)
    requires i < 0 && Standard(lib)
    ensures IsCString(FormatInt(i)) && GetTokenType(FormatInt(i), lib) == VALUE
  {
    var d := Digits(-(i as int));
    var s := FormatInt(i);
    assert s == "-" + d;
    assert IsCString(s) by {
      forall k | 0 <= k < |s| ensures s[k] != '\0' { }
    }
    assert StrtodWhole(s) by { NegativeDigitsConvertWhole(d); }
    assert lib.strtodWhole(s) == StrtodWhole(s);
    assert s[0] == '-';
  }

  lemma FalseWordsLower()
    ensures LowerAll("false") == "false" && LowerAll("False") == "false" && LowerAll("FALSE") == "false"
    ensures LowerAll("f") == "f" && LowerAll("F") == "f"
  {
    assert LowerAll("E") == "e" && LowerAll("e") == "e";
    assert LowerAll("SE") == "se" && LowerAll("se") == "se";
    assert LowerAll("LSE") == "lse" && LowerAll("lse") == "lse";
    assert LowerAll("ALSE") == "alse" && LowerAll("alse") == "alse";
  }

  /**
   * The five spellings of false that parseValue accepts for a BOOL option: "false" or "f"
   * in lower case, upper case, or (for "false") with a capital first letter.
   */
  function IsFalseWord(s: string): (r: bool)
    ensures r ==> (|s| == 1 || |s| == 5) && (s[0] == 'f' || s[0] == 'F')
    ensures r ==> LowerAll(s) == "false" || LowerAll(s) == "f"
  {
    FalseWordsLower();
    s == "false" || s == "False" || s == "FALSE" || s == "F" || s == "f"
  }

  /**
   * Config::parseValue: coerces a C string to the given type. INT reads a leading integer
   * with sscanf("%d"), NUMBER one with sscanf("%lf"); either gives UNKNOWN when nothing can be
   * read. BOOL is false for the five false words and true for everything else. STRING keeps
   * the text. UNKNOWN gives UNKNOWN.
   */
  function ParseValue(token: string, t: DataType, lib: CLib): (v: Value)
    ensures v.Unknown? || v.Type() == t
  {
    var text := CText.CStr(token);
    match t
    case INT => (match lib.scanInt(text) case Some(i) => Int(i) case None => Unknown)
    case NUMBER => (match lib.scanDouble(text) case Some(d) => Number(d) case None => Unknown)
    case BOOL => Bool(!IsFalseWord(text))
    case STRING => Str(text)
    case UNKNOWN => Unknown
  }

  /**
   * A BOOL option is false for exactly "false", "False", "FALSE", "F" and "f"; every other
   * text, including "fAlSe", "0" and "", is true.
   */
  lemma ParseBoolExactly(token: string, lib: CLib)
    requires IsCString(token)
    ensures ParseValue(token, BOOL, lib) == Bool(false) <==> IsFalseWord(token)
    ensures !IsFalseWord(token) ==> ParseValue(token, BOOL, lib) == Bool(true)
  {
  }

  /**
   * A STRING option keeps its token as text: up to a NUL, and otherwise unchanged; the empty
   * token gives the empty string, never UNKNOWN.
   */
  lemma ParseStringVerbatim(token: string, lib: CLib)
    ensures ParseValue(token, STRING, lib) == Str(CText.CStr(token))
    ensures IsCString(token) ==> ParseValue(token, STRING, lib) == Str(token)
    ensures ParseValue("", STRING, lib) == Str("")
  {
  }

  /** Parsing fails, giving UNKNOWN, only for an unreadable INT or NUMBER, or for type UNKNOWN. */
  lemma ParseFailsOnlyOnNumbers(token: string, t: DataType, lib: CLib)
    ensures ParseValue(token, t, lib).IsEmpty() <==>
              || t == UNKNOWN
              || (t == INT && lib.scanInt(CText.CStr(token)).None?)
              || (t == NUMBER && lib.scanDouble(CText.CStr(token)).None?)
  {
  }

  /** An INT option reads the leading integer of a token and ignores what follows: "42abc" gives 42. */
  lemma ParseIntPrefix(i: int32, rest: string, lib: CLib)
    requires Standard(lib)
    requires IsCString(rest)
    requires |rest| == 0 || !IsDigit(rest[0])
    ensures ParseValue(FormatInt(i) + rest, INT, lib) == Int(i)
  {
    var s := FormatInt(i) + rest;
    assert IsCString(s) by {
      forall k | 0 <= k < |s|
        ensures s[k] != '\0'
      {
        if k >= |FormatInt(i)| { assert s[k] == rest[k - |FormatInt(i)|]; }
      }
    }
    assert CText.CStr(s) == s;
    ScanFormattedInt(i, rest);
    assert lib.scanInt(s) == ScanInt(s);
  }
}
