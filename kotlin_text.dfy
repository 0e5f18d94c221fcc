/**
 * The Kotlin standard-library string operations that the shell-output
 * format and its parser are built from: `startsWith`, `indexOf`,
 * `substringAfter`, `substringBefore`, `Int.toString()`, `toIntOrNull()`
 * and `lowercase()`.
 */
module KotlinText {
  import opened Results
  import opened Jvm

  predicate StartsWith(s: string, prefix: string) {
    |prefix| <= |s| && s[..|prefix|] == prefix
  }

  /** `pat` occurs in `s` starting at index `k`. */
  predicate OccursAt(s: string, pat: string, k: int) {
    0 <= k && k + |pat| <= |s| && s[k..k + |pat|] == pat
  }

  /** The first index at or after `i` where `pat` occurs in `s`. */
  function IndexFrom(s: string, pat: string, i: nat): (r: Option<nat>)
    ensures r.Some? ==> i <= r.value && OccursAt(s, pat, r.value)
    ensures r.Some? ==> forall j :: i <= j < r.value ==> !OccursAt(s, pat, j)
    ensures r.None? ==> forall j :: i <= j ==> !OccursAt(s, pat, j)
    decreases |s| - i
  {
    if i + |pat| > |s| then None
    else if s[i..i + |pat|] == pat then Some(i)
    else IndexFrom(s, pat, i + 1)
  }

  /** `s.indexOf(pat)`: the first occurrence of `pat` in `s`, if any. */
  function IndexOf(s: string, pat: string): Option<nat> {
    IndexFrom(s, pat, 0)
  }

  /** `s.substringAfter(d)`: what follows the first `d`, or all of `s` when `d` does not occur. */
  function SubstringAfter(s: string, d: string): string {
    match IndexOf(s, d)
    case Some(k) => s[k + |d|..]
    case None => s
  }

  /** `s.substringBefore(d)`: what precedes the first `d`, or all of `s` when `d` does not occur. */
  function SubstringBefore(s: string, d: string): string {
    match IndexOf(s, d)
    case Some(k) => s[..k]
    case None => s
  }

  /**
   * If nothing in `s` before index `k` can start an occurrence of `pat`, and
   * `pat` occurs at `k`, then `k` is the first occurrence.
   */
  lemma IndexOfIs(s: string, pat: string, k: nat)
    requires OccursAt(s, pat, k)
    requires forall j :: 0 <= j < k ==> !OccursAt(s, pat, j)
    ensures IndexOf(s, pat) == Some(k)
  {
  }

  predicate IsDigit(c: char) {
    '0' <= c <= '9'
  }

  predicate AllDigits(s: string) {
    forall i :: 0 <= i < |s| ==> IsDigit(s[i])
  }

  function DigitChar(d: int): (c: char)
    requires 0 <= d < 10
    ensures IsDigit(c) && c as int - '0' as int == d
  {
    ('0' as int + d) as char
  }

  /** The decimal digits of `n`, most significant first, without leading zeros. */
  function NatToDecimal(n: nat): (s: string)
    ensures |s| >= 1 && AllDigits(s)
  {
    if n < 10 then [DigitChar(n)] else NatToDecimal(n / 10) + [DigitChar(n % 10)]
  }

  /** `n.toString()` for a Kotlin `Int`: a minus sign for negatives, then the decimal digits. */
  function IntToString(n: int): string {
    if n < 0 then "-" + NatToDecimal(-n) else NatToDecimal(n)
  }

  /** The number a string of decimal digits denotes. */
  function DecimalValue(s: string): nat
    requires AllDigits(s)
  {
    if s == [] then 0
    else DecimalValue(s[..|s| - 1]) * 10 + (s[|s| - 1] as int - '0' as int)
  }

  /**
   * `s.toIntOrNull()` in radix 10, over the ASCII digits `0` to `9` only:
   * an optional `+` or `-`, then at least one such digit, and a value that
   * fits in an `Int`; anything else gives null. Kotlin also takes the other
   * Unicode decimal digits (such as U+0660 to U+0669) as digits; here they
   * are not.
   */
  function ToIntOrNull(s: string): Option<int32> {
    if |s| == 0 then None
    else if s[0] == '-' || s[0] == '+' then
      if |s| == 1 || !AllDigits(s[1..]) then None
      else
        var d: int := DecimalValue(s[1..]);
        var v: int := if s[0] == '-' then -d else d;
        if INT_MIN <= v <= INT_MAX then Some(v) else None
    else if !AllDigits(s) then None
    else
      var v := DecimalValue(s);
      if v <= INT_MAX then Some(v) else None
  }

  lemma {:induction false} DecimalRoundTrip(n: nat)
    ensures DecimalValue(NatToDecimal(n)) == n
  {
    if n >= 10 {
      var s := NatToDecimal(n);
      assert s[..|s| - 1] == NatToDecimal(n / 10);
      DecimalRoundTrip(n / 10);
    }
  }

  /** Printing an `Int` and parsing it back with `toIntOrNull` gives the same `Int`. */
  lemma IntToStringRoundTrip(n: int32)
    ensures ToIntOrNull(IntToString(n)) == Some(n)
  {
    var s := IntToString(n);
    if n < 0 {
      var m: nat := 0 - (n as int);
      DecimalRoundTrip(m);
      assert s[1..] == NatToDecimal(m);
    } else {
      DecimalRoundTrip(n);
      assert s[0] != '-' && s[0] != '+' by { assert IsDigit(s[0]); }
    }
  }

  /** The decimal form of an `Int` holds only digits and, first, possibly a minus sign. */
  lemma IntToStringChars(n: int)
    ensures forall i :: 0 <= i < |IntToString(n)| ==> IntToString(n)[i] == '-' || IsDigit(IntToString(n)[i])
    ensures |IntToString(n)| >= 1
  {
    if n < 0 {
      var d := NatToDecimal(-n);
      assert forall i :: 1 <= i < |"-" + d| ==> ("-" + d)[i] == d[i - 1];
    }
  }

  /** `lowercase()` restricted to the letters A to Z; see the README for why this is enough here. */
  function LowerChar(c: char): char {
    if 'A' <= c <= 'Z' then (c as int + 32) as char else c
  }

  function Lowercase(s: string): (r: string)
    ensures |r| == |s|
    ensures forall i :: 0 <= i < |s| ==> r[i] == LowerChar(s[i])
  {
    seq(|s|, i requires 0 <= i < |s| => LowerChar(s[i]))
  }
}
