/**
 * The numeric conversions of the C library that the engine relies on: the 32-bit `int`,
 * sscanf's "%d", printf's "%d", and the test "strtod consumes the whole token".
 * Floating-point values themselves are opaque (see Double).
 */
module CNumbers {
  import opened Wrappers
  import CText

  /** The C `int` of the platform: 32-bit two's complement. */
  newtype int32 = x: int | -0x8000_0000 <= x < 0x8000_0000

  /** An IEEE-754 binary64 value, kept by its bit pattern; no arithmetic on it is modelled. */
  datatype Double = Double(bits: bv64)

  /** An infinity or a NaN: all eleven exponent bits of the binary64 pattern are set. */
  predicate NonFinite(d: Double)
  {
    (d.bits >> 52) & 0x7FF == 0x7FF
  }

  /** isspace() in the C locale. */
  predicate IsSpace(c: char)
  {
    c == ' ' || ('\t' <= c <= '\r')
  }

  predicate IsDigit(c: char)
  {
    '0' <= c <= '9'
  }

  predicate AllDigits(s: string)
  {
    forall i :: 0 <= i < |s| ==> IsDigit(s[i])
  }

  /** The value of a string of decimal digits. */
  function DigitsValue(s: string): (n: nat)
    requires AllDigits(s)
  {
    if |s| == 0 then 0 else 10 * DigitsValue(s[..|s| - 1]) + (s[|s| - 1] - '0') as int
  }

  /** The number of decimal digits at the start of s. */
  function LeadingDigits(s: string): (n: nat)
    ensures n <= |s|
    ensures AllDigits(s[..n])
    ensures n < |s| ==> !IsDigit(s[n])
  {
    if |s| == 0 || !IsDigit(s[0]) then 0 else 1 + LeadingDigits(s[1..])
  }

  /** s without its leading white space, as sscanf skips it before a conversion. */
  function SkipSpace(s: string): (r: string)
    ensures |r| <= |s| && r == s[|s| - |r|..]
    ensures |r| > 0 ==> !IsSpace(r[0])
    ensures forall i :: 0 <= i < |s| - |r| ==> IsSpace(s[i])
  {
    if |s| > 0 && IsSpace(s[0]) then SkipSpace(s[1..]) else s
  }

  /**
   * The `int` stored by sscanf("%d") for an integer literal whose value is x: glibc converts
   * with strtol, which saturates to the 64-bit range, and then keeps the low 32 bits.
   * (The C standard leaves out-of-range input undefined.)
   */
  function ToInt32(x: int): (r: int32)
    ensures -0x8000_0000 <= x < 0x8000_0000 ==> r as int == x
  {
    var clamped := if x < -0x8000_0000_0000_0000 then -0x8000_0000_0000_0000
                   else if x > 0x7FFF_FFFF_FFFF_FFFF then 0x7FFF_FFFF_FFFF_FFFF
                   else x;
    ((clamped + 0x8000_0000) % 0x1_0000_0000 - 0x8000_0000) as int32
  }

  /**
   * sscanf(s, "%d", &v): skips white space, reads an optional sign and then as many decimal
   * digits as there are. It succeeds (returns 1) when at least one digit was read; the rest
   * of s is ignored. So a text starting with a digit is read, and one starting with any other
   * character that is neither white space nor a sign is not.
   */
  function ScanInt(s: string): (r: Maybe<int32>)
    ensures |s| > 0 && IsDigit(s[0]) ==> r.Some?
    ensures |s| > 0 && !IsSpace(s[0]) && !IsDigit(s[0]) && s[0] != '-' && s[0] != '+' ==> r.None?
  {
    var t := SkipSpace(s);
    var signed := |t| > 0 && (t[0] == '-' || t[0] == '+');
    var body := if signed then t[1..] else t;
    var n := LeadingDigits(body);
    if n == 0 then None
    else
      var magnitude: int := DigitsValue(body[..n]);
      Some(ToInt32(if signed && t[0] == '-' then -magnitude else magnitude))
  }

  /** The decimal digits of n, most significant first, without leading zeros. */
  function Digits(n: nat): (s: string)
    ensures |s| >= 1 && AllDigits(s)
    ensures DigitsValue(s) == n
    decreases n
  {
    if n < 10 then [('0' as int + n) as char]
    else
      var s := Digits(n / 10) + [('0' as int + n % 10) as char];
      assert s[..|s| - 1] == Digits(n / 10);
      s
  }

  /** printf("%d", i). */
  function FormatInt(i: int32): (s: string)
    ensures |s| >= 1
    ensures !IsSpace(s[0])
    ensures forall k :: 0 <= k < |s| ==> s[k] == '-' || IsDigit(s[k])
  {
    if i < 0 then "-" + Digits(-(i as int)) else Digits(i as int)
  }

  /** 10 to the power k. */
  function Pow10(k: nat): (p: nat)
    ensures p >= 1
  {
    if k == 0 then 1 else 10 * Pow10(k - 1)
  }

  /** A number below 10^k has at most k digits (and always one). */
  lemma {:induction false} DigitsBelow(n: nat, k: nat)
    requires n < Pow10(k)
    ensures |Digits(n)| <= if k == 0 then 1 else k
    decreases k
  {
    if n >= 10 {
      assert k >= 2 && n / 10 < Pow10(k - 1);
      DigitsBelow(n / 10, k - 1);
    }
  }

  /**
   * printf("%d") of a 32-bit int writes at most eleven characters (a sign and ten digits), so
   * it fits the 30 characters that Value::print's buffer keeps.
   */
  lemma FormatIntFits(i: int32)
    ensures |FormatInt(i)| <= 11
  {
    assert Pow10(10) == 10000000000;
    if i < 0 {
      DigitsBelow(-(i as int), 10);
    } else {
      DigitsBelow(i as int, 10);
    }
  }

  lemma {:induction false} LeadingDigitsOf(d: string, rest: string)
    requires AllDigits(d)
    requires |rest| == 0 || !IsDigit(rest[0])
    ensures LeadingDigits(d + rest) == |d|
    ensures (d + rest)[..|d|] == d
    decreases |d|
  {
    if |d| > 0 {
      assert (d + rest)[1..] == d[1..] + rest;
      LeadingDigitsOf(d[1..], rest);
    }
  }

  /**
   * sscanf("%d") reads back what printf("%d") wrote, whatever follows it that is not a digit,
   * so both "42" and "42abc" give 42.
   */
  lemma ScanFormattedInt(i: int32, rest: string)
    requires |rest| == 0 || !IsDigit(rest[0])
    ensures ScanInt(FormatInt(i) + rest) == Some(i)
  {
    var s := FormatInt(i) + rest;
    assert SkipSpace(s) == s;
    if i < 0 {
      var d := Digits(-(i as int));
      assert s == "-" + (d + rest);
      ScanDigitsAfterSign(d, rest, '-');
    } else {
      var d := Digits(i as int);
      assert s == d + rest;
      assert IsDigit(s[0]);
      LeadingDigitsOf(d, rest);
    }
  }

  lemma ScanDigitsAfterSign(d: string, rest: string, sign: char)
    requires AllDigits(d) && |d| >= 1
    requires |rest| == 0 || !IsDigit(rest[0])
    requires sign == '-' || sign == '+'
    requires SkipSpace([sign] + (d + rest)) == [sign] + (d + rest)
    ensures ScanInt([sign] + (d + rest)) ==
              Some(ToInt32(if sign == '-' then -(DigitsValue(d) as int) else DigitsValue(d)))
  {
    var t := [sign] + (d + rest);
    assert t[1..] == d + rest;
    LeadingDigitsOf(d, rest);
  }

  /** A string with no digit at all gives sscanf("%d") nothing to read. */
  lemma ScanIntNeedsDigit(s: string)
    requires forall i :: 0 <= i < |s| ==> !IsDigit(s[i])
    ensures ScanInt(s) == None
  {
    var t := SkipSpace(s);
    var body := if |t| > 0 && (t[0] == '-' || t[0] == '+') then t[1..] else t;
    assert |body| == 0 || body[0] == s[|s| - |body|];
  }

  // ---- strtod ----

  predicate IsHexDigit(c: char)
  {
    IsDigit(c) || ('a' <= c <= 'f') || ('A' <= c <= 'F')
  }

  function Lower(c: char): char
  {
    if 'A' <= c <= 'Z' then (c as int + 32) as char else c
  }

  /** tolower applied to every character. */
  function LowerAll(s: string): (r: string)
    ensures |r| == |s|
  {
    if |s| == 0 then "" else [Lower(s[0])] + LowerAll(s[1..])
  }

  /** LowerAll lowers each character in its place. */
  lemma {:induction false} LowerAllEach(s: string)
    ensures forall i :: 0 <= i < |s| ==> LowerAll(s)[i] == Lower(s[i])
    decreases |s|
  {
    if |s| > 0 {
      LowerAllEach(s[1..]);
    }
  }

  /** Digits (decimal, or hexadecimal when `hex`) with at most one '.', and at least one digit. */
  predicate Mantissa(m: string, hex: bool)
  {
    MantissaRest(m, hex, false, false)
  }

  /** The rest of a mantissa, after a '.' was seen (`dot`) and after a digit was seen (`digit`). */
  predicate MantissaRest(m: string, hex: bool, dot: bool, digit: bool)
    decreases |m|
  {
    if |m| == 0 then digit
    else if m[0] == '.' then !dot && MantissaRest(m[1..], hex, true, digit)
    else (if hex then IsHexDigit(m[0]) else IsDigit(m[0])) && MantissaRest(m[1..], hex, dot, true)
  }

  /** An optional sign followed by at least one decimal digit. */
  predicate ExponentDigits(e: string)
  {
    var d := if |e| > 0 && (e[0] == '+' || e[0] == '-') then e[1..] else e;
    |d| > 0 && AllDigits(d)
  }

  /** s consists of a mantissa and an optional exponent introduced by `mark` (either case). */
  predicate WithExponent(s: string, mark: char, hex: bool)
  {
    var i := CText.IndexOf(LowerAll(s), mark);
    Mantissa(s[..i], hex) && (i == |s| || ExponentDigits(s[i + 1..]))
  }

  predicate NanPayload(s: string)
  {
    forall i :: 0 <= i < |s| ==> IsDigit(s[i]) || ('a' <= s[i] <= 'z') || ('A' <= s[i] <= 'Z') || s[i] == '_'
  }

  /** The subject sequences strtod accepts after the sign, in the C locale (C99 7.20.1.3). */
  predicate FloatSubject(s: string)
  {
    var low := LowerAll(s);
    || WithExponent(s, 'e', false)
    || (|s| > 2 && low[..2] == "0x" && WithExponent(s[2..], 'p', true))
    || low == "inf" || low == "infinity" || low == "nan"
    || (|s| >= 5 && low[..4] == "nan(" && s[|s| - 1] == ')' && NanPayload(s[4..|s| - 1]))
  }

  /**
   * strtod(s, &end) converts something and leaves `end` at the end of s: after optional
   * white space and an optional sign, the whole rest is one floating-point subject.
   */
  function StrtodWhole(s: string): (r: bool)
    ensures r ==> exists k :: 0 <= k < |s| && !IsSpace(s[k])
    ensures |s| >= 2 && s[0] == '-' && s[1] == '-' ==> !r
  {
    var t := SkipSpace(s);
    var body := if |t| > 0 && (t[0] == '-' || t[0] == '+') then t[1..] else t;
    if |t| > 0 && t[0] == '-' && |body| > 0 && body[0] == '-' then
      SignIsNoSubject(body);
      FloatSubject(body)
    else
      assert FloatSubject(body) ==> |t| > 0 && t[0] == s[|s| - |t|];
      FloatSubject(body)
  }

  /** No floating-point subject starts with a minus sign: strtod takes only one sign. */
  lemma SignIsNoSubject(b: string)
    requires |b| > 0 && b[0] == '-'
    ensures !FloatSubject(b)
  {
    var low := LowerAll(b);
    assert low[0] == '-';
    var i := CText.IndexOf(low, 'e');
    assert i > 0 && b[..i][0] == '-';
  }

  /**
   * The C library conversions the engine calls: sscanf's "%d" and "%lf", the strtod test
   * above, printf's "%f", and the casts between `int` and `double`. The engine is verified for
   * any functions in their place; `Standard` says the integer and token ones are the C
   * semantics defined in this module, and that every `int` survives the round trip through
   * `double` (binary64 holds every 32-bit integer exactly); floating point is not modelled
   * further.
   */
  datatype CLib = CLib(
    scanInt: string -> Maybe<int32>,
    scanDouble: string -> Maybe<Double>,
    strtodWhole: string -> bool,
    formatDouble: Double -> string,
    doubleToInt: Double -> int32,
    intToDouble: int32 -> Double)

  ghost predicate Standard(lib: CLib)
  {
    && (forall s :: lib.scanInt(s) == ScanInt(s))
    && (forall s :: lib.strtodWhole(s) == StrtodWhole(s))
    && (forall i :: lib.doubleToInt(lib.intToDouble(i)) == i)
  }
}
