/**
 * String helpers the source takes from JavaScript's standard library:
 * `Number.prototype.toString`, `padStart`, `split`/`join` on one character,
 * `startsWith`, `replace` with a string pattern, `includes`.
 */
module Text {

  predicate IsDigit(c: char) {
    '0' <= c <= '9'
  }

  predicate AllDigits(s: string) {
    forall i :: 0 <= i < |s| ==> IsDigit(s[i])
  }

  function DigitChar(d: nat): (c: char)
    requires d < 10
    ensures IsDigit(c)
    ensures c == '0' <==> d == 0
  {
    (48 + d) as char
  }

  function DigitValue(c: char): nat
    requires IsDigit(c)
  {
    c as int - 48
  }

  function Pow10(k: nat): nat {
    if k == 0 then 1 else 10 * Pow10(k - 1)
  }

  /** `n.toString()` for a non-negative integer: decimal, no leading zero. */
  function DecimalString(n: nat): (s: string)
    ensures |s| >= 1
    ensures AllDigits(s)
    decreases n
  {
    if n < 10 then [DigitChar(n)] else DecimalString(n / 10) + [DigitChar(n % 10)]
  }

  /** The number a string of decimal digits denotes (the inverse of DecimalString). */
  function DecimalValue(s: string): nat
    requires AllDigits(s)
  {
    if s == [] then 0 else DecimalValue(s[..|s| - 1]) * 10 + DigitValue(s[|s| - 1])
  }

  lemma {:induction false} DecimalRoundTrip(n: nat)
    ensures DecimalValue(DecimalString(n)) == n
  {
    if n >= 10 {
      DecimalRoundTrip(n / 10);
      var s := DecimalString(n);
      assert s[..|s| - 1] == DecimalString(n / 10);
    }
  }

  /** Only zero is written with a leading '0'. */
  lemma {:induction false} DecimalLeadingDigit(n: nat)
    ensures DecimalString(n)[0] == '0' <==> n == 0
  {
    if n >= 10 {
      DecimalLeadingDigit(n / 10);
    }
  }

  /** A number with exactly k digits is written with exactly k characters. */
  lemma {:induction false} DecimalLength(n: nat, k: nat)
    requires 1 <= k
    requires Pow10(k - 1) <= n < Pow10(k)
    ensures |DecimalString(n)| == k
  {
    if k > 1 {
      assert Pow10(k - 1) == 10 * Pow10(k - 2);
      DecimalLength(n / 10, k - 1);
    }
  }

  /** A number below 10^k is written with at most k characters. */
  lemma {:induction false} DecimalLengthAtMost(n: nat, k: nat)
    requires 1 <= k
    requires n < Pow10(k)
    ensures |DecimalString(n)| <= k
  {
    if n >= 10 {
      assert Pow10(1) == 10;
      assert Pow10(k - 1) == 10 * Pow10(k - 2);
      DecimalLengthAtMost(n / 10, k - 1);
    }
  }

  /** `s.padStart(width, fill)`. */
  function PadStart(s: string, width: nat, fill: char): (r: string)
    ensures |r| == if |s| >= width then |s| else width
    ensures r[|r| - |s|..] == s
    ensures forall i :: 0 <= i < |r| - |s| ==> r[i] == fill
  {
    if |s| >= width then s else seq(width - |s|, _ => fill) + s
  }

  /** The first position of `c` in `s` (`s.indexOf(c)` when present). */
  function IndexOf(s: string, c: char): (k: nat)
    requires c in s
    ensures k < |s| && s[k] == c
    ensures c !in s[..k]
  {
    if s[0] == c then 0
    else
      assert c in s[1..] by {
        var i :| 0 <= i < |s| && s[i] == c;
        assert s[1..][i - 1] == c;
      }
      var k := IndexOf(s[1..], c);
      assert s[..k + 1] == [s[0]] + s[1..][..k];
      k + 1
  }

  lemma IndexOfUnique(s: string, c: char, k: nat)
    requires k < |s| && s[k] == c && c !in s[..k]
    ensures c in s && IndexOf(s, c) == k
  {
    var j := IndexOf(s, c);
    assert forall i :: 0 <= i < k ==> s[i] != c by {
      forall i | 0 <= i < k ensures s[i] != c { assert s[..k][i] == s[i]; }
    }
    assert forall i :: 0 <= i < j ==> s[i] != c by {
      forall i | 0 <= i < j ensures s[i] != c { assert s[..j][i] == s[i]; }
    }
  }

  /** `s.split(sep)` for a one-character separator: never empty, no part holds `sep`. */
  function Split(s: string, sep: char): (parts: seq<string>)
    ensures |parts| >= 1
    ensures forall i :: 0 <= i < |parts| ==> sep !in parts[i]
    decreases |s|
  {
    if sep !in s then [s]
    else
      var k := IndexOf(s, sep);
      [s[..k]] + Split(s[k + 1..], sep)
  }

  /** `parts.join(sep)`. */
  function Join(parts: seq<string>, sep: char): string {
    if |parts| == 0 then ""
    else if |parts| == 1 then parts[0]
    else parts[0] + [sep] + Join(parts[1..], sep)
  }

  /** Joining the parts of a split gives back the original string. */
  lemma {:induction false} JoinSplit(s: string, sep: char)
    ensures Join(Split(s, sep), sep) == s
    decreases |s|
  {
    if sep in s {
      var k := IndexOf(s, sep);
      JoinSplit(s[k + 1..], sep);
      assert s == s[..k] + [sep] + s[k + 1..];
    }
  }

  /** Splitting a join of separator-free parts gives back the parts. */
  lemma {:induction false} SplitJoin(parts: seq<string>, sep: char)
    requires |parts| >= 1
    requires forall i :: 0 <= i < |parts| ==> sep !in parts[i]
    ensures Split(Join(parts, sep), sep) == parts
  {
    if |parts| > 1 {
      var rest := Join(parts[1..], sep);
      var s := parts[0] + [sep] + rest;
      assert s[..|parts[0]|] == parts[0];
      IndexOfUnique(s, sep, |parts[0]|);
      assert s[|parts[0]| + 1..] == rest;
      SplitJoin(parts[1..], sep);
    }
  }

  /** `s.replace(pattern, replacement)` with a string pattern: only the first occurrence. */
  function ReplaceFirst(s: string, pattern: string, replacement: string): (r: string)
    decreases |s|
  {
    if pattern <= s then replacement + s[|pattern|..]
    else if s == [] then s
    else [s[0]] + ReplaceFirst(s[1..], pattern, replacement)
  }

  /** Without an occurrence of the pattern, replace leaves the string as it is. */
  lemma {:induction false} ReplaceFirstAbsent(s: string, pattern: string, replacement: string)
    requires forall i :: 0 <= i <= |s| ==> !(pattern <= s[i..])
    ensures ReplaceFirst(s, pattern, replacement) == s
    decreases |s|
  {
    assert s[0..] == s;
    if s != [] {
      forall i | 0 <= i <= |s| - 1 ensures !(pattern <= s[1..][i..]) {
        assert s[1..][i..] == s[i + 1..];
      }
      ReplaceFirstAbsent(s[1..], pattern, replacement);
    }
  }
}
