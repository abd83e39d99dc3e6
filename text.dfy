/** The Option type used throughout the model for "absent / undefined / null". */
module Wrappers {
  datatype Option<+T> = None | Some(value: T)
}

/**
 * String primitives shared by the PHP and JavaScript sides of the plugin:
 * PHP trim() and JS String.prototype.trim, explode on one separator,
 * ASCII case folding (the behaviour of the PCRE /i flag on byte strings),
 * Number.prototype.toString for integers and a model of parseInt.
 */
module Text {
  import opened Wrappers

  /** The characters PHP's trim() removes by default: " \t\n\r\0\x0B". */
  predicate IsPhpTrimChar(c: char) {
    c == ' ' || c == '\t' || c == '\n' || c == '\r' || c == '\0' || c == '\U{0B}'
  }

  /**
   * The JavaScript WhiteSpace and LineTerminator characters, which trim() removes
   * and parseInt skips: TAB, VT, FF, SP, NBSP, ZWNBSP, the Zs space separators,
   * LF, CR, LS and PS.
   */
  predicate IsJsWhitespace(c: char) {
    || c == '\t' || c == '\n' || c == '\U{0B}' || c == '\U{0C}' || c == '\r' || c == ' '
    || c == '\U{A0}' || c == '\U{1680}' || ('\U{2000}' <= c <= '\U{200A}')
    || c == '\U{2028}' || c == '\U{2029}' || c == '\U{202F}' || c == '\U{205F}'
    || c == '\U{3000}' || c == '\U{FEFF}'
  }

  /** Drops the leading characters satisfying `ws`. */
  function TrimLeft(s: string, ws: char -> bool): (r: string)
    ensures |r| <= |s| && r == s[|s| - |r|..]
    ensures r != [] ==> !ws(r[0])
    ensures forall i :: 0 <= i < |s| - |r| ==> ws(s[i])
  {
    if s != [] && ws(s[0]) then TrimLeft(s[1..], ws) else s
  }

  /** Drops the trailing characters satisfying `ws`. */
  function TrimRight(s: string, ws: char -> bool): (r: string)
    ensures |r| <= |s| && r == s[..|r|]
    ensures r != [] ==> !ws(r[|r| - 1])
    ensures forall i :: |r| <= i < |s| ==> ws(s[i])
  {
    if s != [] && ws(s[|s| - 1]) then TrimRight(s[..|s| - 1], ws) else s
  }

  function Trim(s: string, ws: char -> bool): string {
    TrimRight(TrimLeft(s, ws), ws)
  }

  /** PHP trim($s) with the default character list. */
  function PhpTrim(s: string): string {
    Trim(s, IsPhpTrimChar)
  }

  /** JavaScript s.trim(). */
  function JsTrim(s: string): string {
    Trim(s, IsJsWhitespace)
  }

  /** A trimmed string neither starts nor ends with a trimmed character, and trimming is idempotent. */
  lemma TrimIdempotent(s: string, ws: char -> bool)
    ensures var t := Trim(s, ws); t != [] ==> !ws(t[0]) && !ws(t[|t| - 1])
    ensures Trim(Trim(s, ws), ws) == Trim(s, ws)
  {
    var u := TrimLeft(s, ws);
    var t := TrimRight(u, ws);
    if t != [] {
      assert t[0] == u[0];
      assert TrimLeft(t, ws) == t;
    } else {
      assert TrimLeft(t, ws) == t;
    }
  }

  /** Trimming yields the empty string exactly when every character is trimmed away. */
  lemma TrimEmptyIff(s: string, ws: char -> bool)
    ensures Trim(s, ws) == [] <==> forall i :: 0 <= i < |s| ==> ws(s[i])
  {
    var u := TrimLeft(s, ws);
    if forall i :: 0 <= i < |s| ==> ws(s[i]) {
      assert u == [];
    }
  }

  /** PHP's empty() on a string: "" and "0" are the falsy strings. */
  predicate PhpFalsy(s: string) {
    s == "" || s == "0"
  }

  /** The number of occurrences of `c` in `s`. */
  function Count(s: string, c: char): nat {
    if s == [] then 0 else (if s[0] == c then 1 else 0) + Count(s[1..], c)
  }

  /** explode($sep, $s) for a one-character separator: the pieces between separators, in order. */
  function Split(s: string, sep: char): (r: seq<string>)
    ensures |r| == Count(s, sep) + 1
    ensures forall i :: 0 <= i < |r| ==> sep !in r[i]
  {
    if s == [] then [[]]
    else
      var rest := Split(s[1..], sep);
      if s[0] == sep then [[]] + rest else [[s[0]] + rest[0]] + rest[1..]
  }

  /** Every character of every piece occurs in the split text. */
  lemma {:induction false} SplitChars(s: string, sep: char)
    ensures forall i, j :: 0 <= i < |Split(s, sep)| && 0 <= j < |Split(s, sep)[i]| ==> Split(s, sep)[i][j] in s
  {
    if s != [] {
      SplitChars(s[1..], sep);
      var rest := Split(s[1..], sep);
      assert forall c :: c in s[1..] ==> c in s;
      if s[0] != sep {
        assert forall j :: 0 < j < |[s[0]] + rest[0]| ==> ([s[0]] + rest[0])[j] == rest[0][j - 1];
      }
    }
  }

  /** implode($sep, $parts): the inverse of Split. */
  function Join(parts: seq<string>, sep: char): string
    requires |parts| >= 1
  {
    if |parts| == 1 then parts[0] else parts[0] + [sep] + Join(parts[1..], sep)
  }

  /** Splitting and joining back gives the original text. */
  lemma {:induction false} JoinSplit(s: string, sep: char)
    ensures Join(Split(s, sep), sep) == s
  {
    if s != [] {
      JoinSplit(s[1..], sep);
      var rest := Split(s[1..], sep);
      if s[0] != sep {
        if |rest| == 1 {
          assert Split(s, sep) == [[s[0]] + rest[0]];
        } else {
          assert Split(s, sep)[1..] == rest[1..];
        }
      }
    }
  }

  /** ASCII lower-casing: what PCRE's caseless matching folds on a byte string. */
  function Lower(c: char): char {
    if 'A' <= c <= 'Z' then (c as int + 32) as char else c
  }

  function LowerAll(s: string): (r: string)
    ensures |r| == |s| && forall i :: 0 <= i < |s| ==> r[i] == Lower(s[i])
  {
    seq(|s|, i requires 0 <= i < |s| => Lower(s[i]))
  }

  /** The characters sanitize_key keeps: lower-case letters, digits, `_` and `-`. */
  predicate IsKeyChar(c: char) {
    'a' <= c <= 'z' || '0' <= c <= '9' || c == '_' || c == '-'
  }

  /** sanitize_key(): lower-case, then drop every character that is not a key character. */
  function SanitizeKey(raw: string): (k: string)
    ensures |k| <= |raw|
    ensures forall i :: 0 <= i < |k| ==> IsKeyChar(k[i])
  {
    if raw == [] then []
    else (if IsKeyChar(Lower(raw[0])) then [Lower(raw[0])] else []) + SanitizeKey(raw[1..])
  }

  /** A string of key characters passes through sanitize_key unchanged. */
  lemma {:induction false} SanitizeKeyKeeps(k: string)
    requires forall i :: 0 <= i < |k| ==> IsKeyChar(k[i])
    ensures SanitizeKey(k) == k
  {
    if k != [] {
      assert IsKeyChar(k[0]) && Lower(k[0]) == k[0];
      SanitizeKeyKeeps(k[1..]);
      assert k == [k[0]] + k[1..];
    }
  }

  /** sanitize_key is idempotent. */
  lemma SanitizeKeyIdempotent(raw: string)
    ensures SanitizeKey(SanitizeKey(raw)) == SanitizeKey(raw)
  {
    SanitizeKeyKeeps(SanitizeKey(raw));
  }


  predicate IsDigit(c: char) {
    '0' <= c <= '9'
  }

  function DigitChar(d: nat): (c: char)
    requires d < 10
    ensures IsDigit(c)
  {
    ('0' as int + d) as char
  }

  function DigitValue(c: char): nat
    requires IsDigit(c)
  {
    c as int - '0' as int
  }

  /** The decimal digits of a non-negative integer, most significant first, without leading zeros. */
  function NatToString(n: nat): (r: string)
    ensures r != [] && forall i :: 0 <= i < |r| ==> IsDigit(r[i])
  {
    if n < 10 then [DigitChar(n)] else NatToString(n / 10) + [DigitChar(n % 10)]
  }

  /** Number.prototype.toString for an integer value (Date.now().toString(), time() in PHP strings). */
  function IntToString(n: int): (r: string)
    ensures r != []
  {
    if n < 0 then "-" + NatToString(-n) else NatToString(n)
  }

  /** The value of a string of decimal digits. */
  function DigitsValue(s: string): nat
    requires forall i :: 0 <= i < |s| ==> IsDigit(s[i])
  {
    if s == [] then 0 else DigitsValue(s[..|s| - 1]) * 10 + DigitValue(s[|s| - 1])
  }

  /** The longest prefix of `s` made of decimal digits. */
  function LeadingDigits(s: string): (r: string)
    ensures |r| <= |s| && r == s[..|r|]
    ensures forall i :: 0 <= i < |r| ==> IsDigit(s[i])
    ensures |r| < |s| ==> !IsDigit(s[|r|])
  {
    if s != [] && IsDigit(s[0]) then [s[0]] + LeadingDigits(s[1..]) else []
  }

  /** The unsigned part of parseInt: None stands for NaN (no digit where one was expected). */
  function ParseDigits(s: string): Option<nat> {
    var d := LeadingDigits(s);
    if d == [] then None else Some(DigitsValue(d))
  }

  /**
   * parseInt(s) with no radix, for decimal input: skip leading whitespace, accept one
   * optional sign, then read the longest run of decimal digits. None is NaN.
   */
  function ParseInt(s: string): Option<int> {
    var t := TrimLeft(s, IsJsWhitespace);
    if t != [] && t[0] == '-' then
      match ParseDigits(t[1..])
      case None => None
      case Some(v) => Some(-(v as int))
    else if t != [] && t[0] == '+' then
      match ParseDigits(t[1..])
      case None => None
      case Some(v) => Some(v)
    else
      match ParseDigits(t)
      case None => None
      case Some(v) => Some(v)
  }

  lemma {:induction false} DigitsValueOfNatToString(n: nat)
    ensures DigitsValue(NatToString(n)) == n
  {
    var s := NatToString(n);
    if n >= 10 {
      DigitsValueOfNatToString(n / 10);
      assert s[..|s| - 1] == NatToString(n / 10);
    }
  }

  lemma {:induction false} LeadingDigitsOfDigits(s: string)
    requires forall i :: 0 <= i < |s| ==> IsDigit(s[i])
    ensures LeadingDigits(s) == s
  {
    if s != [] {
      LeadingDigitsOfDigits(s[1..]);
    }
  }

  /** The digits toString writes for a non-negative integer read back as that integer. */
  lemma ParseDigitsOfNatToString(n: nat)
    ensures ParseDigits(NatToString(n)) == Some(n)
  {
    LeadingDigitsOfDigits(NatToString(n));
    DigitsValueOfNatToString(n);
  }

  /** Reading back what toString wrote gives the same integer: parseInt(String(n)) == n. */
  lemma ParseIntOfIntToString(n: int)
    ensures ParseInt(IntToString(n)) == Some(n)
  {
    var s := IntToString(n);
    assert !IsJsWhitespace(s[0]);
    assert TrimLeft(s, IsJsWhitespace) == s;
    if n < 0 {
      ParseDigitsOfNatToString(-n);
      assert s[1..] == NatToString(-n);
    } else {
      ParseDigitsOfNatToString(n);
      assert s[0] != '-' && s[0] != '+';
    }
  }
}
