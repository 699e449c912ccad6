/**
 * The JavaScript string operations the browser scripts and the upload filter rely on, on
 * strings as sequences of characters: `trim`, `startsWith`, `includes`, `indexOf`,
 * `replace` with a string pattern (first occurrence only), `split` on a one-character
 * separator, `join`, `substring(0, n)` and `toLowerCase`.
 */
module JsStrings {

  /** `•`, the bullet both page scripts look for in a summary's list lines. */
  const Bullet: char := '\U{2022}'

  /** The characters `String.prototype.trim` removes: ECMAScript WhiteSpace and LineTerminator. */
  predicate IsJsSpace(c: char)
  {
    || c == '\t' || c == '\n' || c == '\U{000B}' || c == '\U{000C}' || c == '\r' || c == ' '
    || c == '\U{00A0}' || c == '\U{1680}' || ('\U{2000}' <= c <= '\U{200A}')
    || c == '\U{2028}' || c == '\U{2029}' || c == '\U{202F}' || c == '\U{205F}'
    || c == '\U{3000}' || c == '\U{FEFF}'
  }

  /** `s.trimStart()`: `s` without its leading white space. */
  function TrimStart(s: string): (r: string)
    ensures |r| <= |s|
  {
    if s != [] && IsJsSpace(s[0]) then TrimStart(s[1..]) else s
  }

  /** `s.trimEnd()`: `s` without its trailing white space. */
  function TrimEnd(s: string): (r: string)
    ensures |r| <= |s|
  {
    if s != [] && IsJsSpace(s[|s| - 1]) then TrimEnd(s[..|s| - 1]) else s
  }

  /** `s.trim()`: `s` without leading and trailing white space. */
  function Trim(s: string): (r: string)
    ensures |r| <= |s|
  {
    TrimEnd(TrimStart(s))
  }

  /** `trimStart` removes exactly the longest all-white-space prefix. */
  lemma {:induction false} TrimStartRule(s: string)
    ensures var r := TrimStart(s);
      && r == s[|s| - |r|..]
      && (r == [] || !IsJsSpace(r[0]))
      && forall k :: 0 <= k < |s| - |r| ==> IsJsSpace(s[k])
    decreases |s|
  {
    if s != [] && IsJsSpace(s[0]) {
      TrimStartRule(s[1..]);
    }
  }

  /** `trimEnd` removes exactly the longest all-white-space suffix. */
  lemma {:induction false} TrimEndRule(s: string)
    ensures var r := TrimEnd(s);
      && r == s[..|r|]
      && (r == [] || !IsJsSpace(r[|r| - 1]))
      && forall k :: |r| <= k < |s| ==> IsJsSpace(s[k])
    decreases |s|
  {
    if s != [] && IsJsSpace(s[|s| - 1]) {
      TrimEndRule(s[..|s| - 1]);
    }
  }

  /** A trimmed string is empty or neither begins nor ends with white space. */
  lemma TrimRule(s: string)
    ensures var r := Trim(s); r == [] || (!IsJsSpace(r[0]) && !IsJsSpace(r[|r| - 1]))
  {
    var t := TrimStart(s);
    TrimStartRule(s);
    TrimEndRule(t);
  }

  /** A string trims to nothing exactly when it is all white space. */
  lemma TrimEmpty(s: string)
    ensures Trim(s) == [] <==> forall k :: 0 <= k < |s| ==> IsJsSpace(s[k])
  {
    var t := TrimStart(s);
    TrimStartRule(s);
    TrimEndRule(t);
  }

  /** A string with no white space at either end is its own trim. */
  lemma TrimUntouched(s: string)
    requires s == [] || (!IsJsSpace(s[0]) && !IsJsSpace(s[|s| - 1]))
    ensures Trim(s) == s
  {
  }

  predicate StartsWith(s: string, prefix: string)
  {
    |prefix| <= |s| && s[..|prefix|] == prefix
  }

  predicate OccursAt(s: string, pattern: string, k: nat)
  {
    k + |pattern| <= |s| && s[k..k + |pattern|] == pattern
  }

  /** The first position at or after `from` where `pattern` occurs, or -1. */
  function IndexFrom(s: string, pattern: string, from: nat): (r: int)
    requires from <= |s|
    ensures -1 <= r <= |s|
    ensures r == -1 || (from <= r && OccursAt(s, pattern, r))
    decreases |s| - from
  {
    if OccursAt(s, pattern, from) then from
    else if from == |s| then -1
    else IndexFrom(s, pattern, from + 1)
  }

  /** `s.indexOf(pattern)`. */
  function IndexOf(s: string, pattern: string): (r: int)
    ensures -1 <= r <= |s|
    ensures r == -1 || OccursAt(s, pattern, r)
  {
    IndexFrom(s, pattern, 0)
  }

  /** The search from `from` finds an occurrence at `k`, or an earlier one. */
  lemma {:induction false} IndexFromFirst(s: string, pattern: string, from: nat, k: nat)
    requires from <= k <= |s| && OccursAt(s, pattern, k)
    ensures from <= IndexFrom(s, pattern, from) <= k
    decreases |s| - from
  {
    if !OccursAt(s, pattern, from) {
      IndexFromFirst(s, pattern, from + 1, k);
    }
  }

  /** `indexOf` gives the first occurrence: none occurs before it, and -1 means none at all. */
  lemma IndexOfFirst(s: string, pattern: string, k: nat)
    requires OccursAt(s, pattern, k)
    ensures 0 <= IndexOf(s, pattern) <= k
  {
    IndexFromFirst(s, pattern, 0, k);
  }

  /** `s.includes(pattern)`. */
  predicate Includes(s: string, pattern: string)
  {
    IndexOf(s, pattern) >= 0
  }

  lemma IncludesAt(s: string, pattern: string, k: nat)
    requires OccursAt(s, pattern, k)
    ensures Includes(s, pattern)
  {
    IndexOfFirst(s, pattern, k);
  }

  /** `s.replace(pattern, replacement)` with a string pattern: only the first occurrence is replaced. */
  function ReplaceFirst(s: string, pattern: string, replacement: string): (r: string)
    ensures !Includes(s, pattern) ==> r == s
    ensures Includes(s, pattern) ==>
      var k := IndexOf(s, pattern);
      r == s[..k] + replacement + s[k + |pattern|..]
  {
    var k := IndexOf(s, pattern);
    if k < 0 then s else s[..k] + replacement + s[k + |pattern|..]
  }

  /** `s.substring(0, n)` for a non-negative `n`: at most the first `n` characters. */
  function Prefix(s: string, n: nat): (r: string)
    ensures |r| == if |s| < n then |s| else n
    ensures StartsWith(s, r)
  {
    if |s| <= n then s else s[..n]
  }

  /** The position of the first `c` in `s`. */
  function FirstIndex(s: string, c: char): (k: nat)
    requires c in s
    ensures k < |s| && s[k] == c && c !in s[..k]
  {
    if s[0] == c then 0 else FirstIndex(s[1..], c) + 1
  }

  /** The first occurrence of `c` is the position that holds `c` with none before it. */
  lemma {:induction false} FirstIndexAt(s: string, c: char, i: nat)
    requires i < |s| && s[i] == c && c !in s[..i]
    ensures FirstIndex(s, c) == i
  {
    if i > 0 {
      assert s[0] == s[..i][0];
      assert s[1..][..i - 1] == s[..i][1..];
      FirstIndexAt(s[1..], c, i - 1);
    }
  }

  /** `s.split(sep)` for a one-character separator. */
  function Split(s: string, sep: char): (parts: seq<string>)
    ensures |parts| >= 1
    decreases |s|
  {
    if sep in s then
      var k := FirstIndex(s, sep);
      [s[..k]] + Split(s[k + 1..], sep)
    else
      [s]
  }

  /**
   * No piece of `s.split(sep)` contains `sep`; without a `sep` the string is its only piece, and
   * otherwise the first piece is what precedes the first `sep`.
   */
  lemma {:induction false} SplitRule(s: string, sep: char)
    ensures forall k :: 0 <= k < |Split(s, sep)| ==> sep !in Split(s, sep)[k]
    ensures sep !in s ==> Split(s, sep) == [s]
    ensures sep in s ==> Split(s, sep)[0] == s[..FirstIndex(s, sep)]
    decreases |s|
  {
    if sep in s {
      var k := FirstIndex(s, sep);
      SplitRule(s[k + 1..], sep);
      assert Split(s, sep) == [s[..k]] + Split(s[k + 1..], sep);
    }
  }

  /** `parts.join(sep)`. */
  function Join(parts: seq<string>, sep: string): string
  {
    if |parts| == 0 then ""
    else if |parts| == 1 then parts[0]
    else parts[0] + sep + Join(parts[1..], sep)
  }

  /** `parts.join('')`. */
  function Concat(parts: seq<string>): string
  {
    if parts == [] then "" else Concat(parts[..|parts| - 1]) + parts[|parts| - 1]
  }

  /** Splitting and joining again with the same separator gives back the string. */
  lemma {:induction false} JoinSplit(s: string, sep: char)
    ensures Join(Split(s, sep), [sep]) == s
    decreases |s|
  {
    if sep in s {
      var k := FirstIndex(s, sep);
      var rest := s[k + 1..];
      var parts := Split(s, sep);
      assert parts == [s[..k]] + Split(rest, sep);
      assert parts[0] == s[..k] && parts[1..] == Split(rest, sep);
      assert Join(parts, [sep]) == s[..k] + [sep] + Join(Split(rest, sep), [sep]);
      JoinSplit(rest, sep);
      assert s == s[..k] + [s[k]] + s[k + 1..];
    }
  }

  /**
   * The pieces after the first of `s.split(sep)`, joined again with `sep`, are what follows
   * the first separator: how `const [head, ...rest] = s.split(sep)` and `rest.join(sep)` recover
   * the remainder of the string.
   */
  lemma SplitHeadAndRest(s: string, sep: char)
    requires sep in s
    ensures var k := FirstIndex(s, sep);
      Split(s, sep)[0] == s[..k] && Join(Split(s, sep)[1..], [sep]) == s[k + 1..]
  {
    var k := FirstIndex(s, sep);
    assert Split(s, sep)[1..] == Split(s[k + 1..], sep);
    JoinSplit(s[k + 1..], sep);
  }

  /** `toLowerCase` on one character (ASCII letters only). */
  function LowerChar(c: char): char
  {
    if 'A' <= c <= 'Z' then (c as int + 32) as char else c
  }

  /** `s.toLowerCase()`, restricted to ASCII case mapping. */
  function ToLower(s: string): (r: string)
    ensures |r| == |s|
  {
    if s == [] then [] else [LowerChar(s[0])] + ToLower(s[1..])
  }

  /** Each character of `s.toLowerCase()` is the lower case of the character at that position. */
  lemma {:induction false} ToLowerAt(s: string, k: nat)
    requires k < |s|
    ensures ToLower(s)[k] == LowerChar(s[k])
  {
    if k > 0 {
      ToLowerAt(s[1..], k - 1);
    }
  }

  /** Lowercasing twice is lowercasing once. */
  lemma {:induction false} ToLowerIdempotent(s: string)
    ensures ToLower(ToLower(s)) == ToLower(s)
  {
    if s != [] {
      var r := ToLower(s);
      assert r[1..] == ToLower(s[1..]);
      ToLowerIdempotent(s[1..]);
    }
  }
  // ---------------------------------------------------------------------------------------
  // Numbers as text

  predicate IsDigit(c: char)
  {
    '0' <= c <= '9'
  }

  predicate AllDigits(s: string)
  {
    forall k :: 0 <= k < |s| ==> IsDigit(s[k])
  }

  function DigitChar(d: nat): (c: char)
    requires d < 10
    ensures IsDigit(c) && c as int - '0' as int == d
  {
    ('0' as int + d) as char
  }

  /** `n.toString()` for a non-negative integer: its decimal digits, without leading zeros. */
  function NumberToString(n: nat): (s: string)
    ensures |s| >= 1 && AllDigits(s)
    ensures |s| > 1 ==> s[0] != '0'
    decreases n
  {
    if n < 10 then [DigitChar(n)] else NumberToString(n / 10) + [DigitChar(n % 10)]
  }

  /** The number a string of decimal digits denotes. */
  function DigitsValue(s: string): nat
    requires AllDigits(s)
  {
    if s == [] then 0 else DigitsValue(s[..|s| - 1]) * 10 + (s[|s| - 1] as int - '0' as int)
  }

  /** Reading back what `toString` wrote gives the number. */
  lemma {:induction false} NumberToStringRoundTrip(n: nat)
    ensures DigitsValue(NumberToString(n)) == n
    decreases n
  {
    if n >= 10 {
      NumberToStringRoundTrip(n / 10);
      var s := NumberToString(n);
      assert s[..|s| - 1] == NumberToString(n / 10);
    }
  }

  /** `s.padStart(width, '0')`: `s` preceded by as many zeros as it is short of `width`. */
  function PadStartZeros(s: string, width: nat): (r: string)
    ensures |r| == if |s| < width then width else |s|
    decreases width - |s|
  {
    if |s| < width then PadStartZeros("0" + s, width) else s
  }

  /** `padStart` puts zeros, and only zeros, before the string. */
  lemma {:induction false} PadStartZerosRule(s: string, width: nat)
    ensures var r := PadStartZeros(s, width);
      r == seq(|r| - |s|, _ => '0') + s
    decreases width - |s|
  {
    if |s| < width {
      PadStartZerosRule("0" + s, width);
      var r := PadStartZeros(s, width);
      assert seq(|r| - |s| - 1, _ => '0') + ("0" + s) == seq(|r| - |s|, _ => '0') + s;
    }
  }

  /** Leading zeros do not change the number a string of digits denotes. */
  lemma {:induction false} LeadingZerosKeepValue(zeros: nat, s: string)
    requires AllDigits(s)
    ensures AllDigits(seq(zeros, _ => '0') + s)
    ensures DigitsValue(seq(zeros, _ => '0') + s) == DigitsValue(s)
    decreases |s|
  {
    var z: string := seq(zeros, _ => '0');
    if s == [] {
      assert z + s == z;
      ZerosValue(zeros);
    } else {
      var init := s[..|s| - 1];
      LeadingZerosKeepValue(zeros, init);
      assert (z + s)[..|z + s| - 1] == z + init;
    }
  }

  lemma {:induction false} ZerosValue(zeros: nat)
    ensures AllDigits(seq(zeros, _ => '0'))
    ensures DigitsValue(seq(zeros, _ => '0')) == 0
    decreases zeros
  {
    if zeros > 0 {
      ZerosValue(zeros - 1);
      assert seq(zeros, _ => '0')[..zeros - 1] == seq(zeros - 1, _ => '0');
    }
  }

  /** Padding with zeros keeps a string of digits a string of digits of the same value. */
  lemma PadStartZerosValue(s: string, width: nat)
    requires AllDigits(s)
    ensures AllDigits(PadStartZeros(s, width))
    ensures DigitsValue(PadStartZeros(s, width)) == DigitsValue(s)
  {
    var r := PadStartZeros(s, width);
    PadStartZerosRule(s, width);
    LeadingZerosKeepValue(|r| - |s|, s);
  }
}
