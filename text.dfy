/**
 * The Kotlin string operations the two providers rely on (`isBlank`, `trim`,
 * `contains`, `startsWith`, `replace`, `substringBefore`, `trimEnd`, Int
 * formatting and `toIntOrNull`), and the character classes of the regular
 * expressions they use, stated over `seq<char>`.
 */
module Text {
  import opened Options

  /** Kotlin's `Char.isWhitespace` on the JVM: Java whitespace or a Unicode space separator. */
  predicate IsWhitespace(c: char) {
    ('\t' <= c <= '\r') || ('\U{001C}' <= c <= '\U{001F}') || c == ' ' || c == '\U{00A0}'
    || c == '\U{1680}' || ('\U{2000}' <= c <= '\U{200A}') || c == '\U{2028}' || c == '\U{2029}'
    || c == '\U{202F}' || c == '\U{205F}' || c == '\U{3000}'
  }

  /** `\s`, taken as the ASCII class `[ \t\n\x0B\f\r]`. */
  predicate IsRegexSpace(c: char) {
    c == ' ' || ('\t' <= c <= '\r')
  }

  /** `\d`, taken as the ASCII digits only. */
  predicate IsDigit(c: char) {
    '0' <= c <= '9'
  }

  /** `CharSequence.isBlank`: empty or whitespace only. */
  predicate IsBlank(s: string) {
    forall k :: 0 <= k < |s| ==> IsWhitespace(s[k])
  }

  /** `s` holds `sub` starting at index `i`. */
  predicate OccursAt(s: string, sub: string, i: nat) {
    i + |sub| <= |s| && s[i..i + |sub|] == sub
  }

  predicate StartsWith(s: string, prefix: string) {
    OccursAt(s, prefix, 0)
  }

  /** `String.indexOf(sub, from)`: the first occurrence of `sub` at or after `from`. */
  function IndexOf(s: string, sub: string, from: nat): (r: Option<nat>)
    ensures r.Some? ==> from <= r.value && OccursAt(s, sub, r.value)
    ensures r.Some? ==> forall k :: from <= k < r.value ==> !OccursAt(s, sub, k)
    ensures r.None? ==> forall k: nat :: from <= k ==> !OccursAt(s, sub, k)
    decreases |s| - from
  {
    if from + |sub| > |s| then None
    else if OccursAt(s, sub, from) then Some(from)
    else IndexOf(s, sub, from + 1)
  }

  /** `String.contains(sub)`. */
  function Contains(s: string, sub: string): (b: bool)
    ensures b <==> exists k: nat :: OccursAt(s, sub, k)
  {
    match IndexOf(s, sub, 0)
    case Some(k) => assert OccursAt(s, sub, k); true
    case None => false
  }

  predicate EndsWith(s: string, suffix: string) {
    |suffix| <= |s| && s[|s| - |suffix|..] == suffix
  }

  /** A one-character `contains` is membership. */
  lemma ContainsChar(s: string, c: char)
    ensures Contains(s, [c]) <==> c in s
  {
    if c in s {
      var k :| 0 <= k < |s| && s[k] == c;
      assert OccursAt(s, [c], k);
    } else {
      forall k: nat ensures !OccursAt(s, [c], k) {
        if k + 1 <= |s| {
          assert s[k..k + 1][0] == s[k];
        }
      }
    }
  }

  /** An occurrence inside a slice is an occurrence in the whole string. */
  lemma ContainsSlice(s: string, lo: nat, hi: nat, sub: string)
    requires lo <= hi <= |s| && Contains(s[lo..hi], sub)
    ensures Contains(s, sub)
  {
    var k: nat :| OccursAt(s[lo..hi], sub, k);
    assert s[lo + k..lo + k + |sub|] == sub by {
      forall t | 0 <= t < |sub| ensures s[lo + k + t] == sub[t] {
        assert s[lo..hi][k..k + |sub|][t] == sub[t];
      }
    }
    assert OccursAt(s, sub, lo + k);
  }

  lemma ContainsConcat(a: string, b: string, sub: string)
    requires Contains(a, sub) || Contains(b, sub)
    ensures Contains(a + b, sub)
  {
    assert (a + b)[0..|a|] == a && (a + b)[|a|..|a + b|] == b;
    if Contains(a, sub) {
      ContainsSlice(a + b, 0, |a|, sub);
    } else {
      ContainsSlice(a + b, |a|, |a + b|, sub);
    }
  }

  /** Containing `a`, which contains `b`, means containing `b`. */
  lemma ContainsTrans(s: string, a: string, b: string)
    requires Contains(s, a) && Contains(a, b)
    ensures Contains(s, b)
  {
    var k: nat :| OccursAt(s, a, k);
    assert s[k..k + |a|] == a;
    ContainsSlice(s, k, k + |a|, b);
  }

  /** The longest prefix of `s[k..]` whose characters all satisfy `p` ends at the result. */
  function SkipWhile(s: string, k: nat, p: char -> bool): (j: nat)
    requires k <= |s|
    ensures k <= j <= |s|
    ensures forall t :: k <= t < j ==> p(s[t])
    ensures j < |s| ==> !p(s[j])
    decreases |s| - k
  {
    if k < |s| && p(s[k]) then SkipWhile(s, k + 1, p) else k
  }

  /** Any `j` with the two defining properties of `SkipWhile` is its result. */
  lemma SkipWhileUnique(s: string, k: nat, p: char -> bool, j: nat)
    requires k <= j <= |s|
    requires forall t :: k <= t < j ==> p(s[t])
    requires j < |s| ==> !p(s[j])
    ensures SkipWhile(s, k, p) == j
  {
  }

  /**
   * Kotlin's `String.replace(old, new)`: every occurrence of `pat`, scanned
   * from the left and never overlapping, becomes `rep`.
   */
  function ReplaceAll(s: string, pat: string, rep: string): (r: string)
    requires |pat| > 0
    decreases |s|
  {
    if |s| < |pat| then s
    else if s[..|pat|] == pat then rep + ReplaceAll(s[|pat|..], pat, rep)
    else [s[0]] + ReplaceAll(s[1..], pat, rep)
  }

  /** Replacing one character by another keeps the length and touches only that character. */
  lemma {:induction false} ReplaceCharAt(s: string, a: char, b: char, k: nat)
    requires k < |s|
    ensures |ReplaceAll(s, [a], [b])| == |s|
    ensures ReplaceAll(s, [a], [b])[k] == if s[k] == a then b else s[k]
    decreases |s|
  {
    if k > 0 {
      ReplaceCharAt(s[1..], a, b, k - 1);
    } else if |s| > 1 {
      ReplaceCharAt(s[1..], a, b, 0);
    }
  }

  /** `trimEnd(c)`: drops every trailing `c`. */
  function TrimEndChar(s: string, c: char): (r: string)
    ensures |r| <= |s| && r == s[..|r|]
    ensures forall k :: |r| <= k < |s| ==> s[k] == c
    ensures |r| > 0 ==> r[|r| - 1] != c
    decreases |s|
  {
    if |s| > 0 && s[|s| - 1] == c then TrimEndChar(s[..|s| - 1], c) else s
  }

  function TrimStart(s: string): (r: string)
    ensures |r| <= |s| && r == s[|s| - |r|..]
    ensures forall k :: 0 <= k < |s| - |r| ==> IsWhitespace(s[k])
    ensures |r| > 0 ==> !IsWhitespace(r[0])
    decreases |s|
  {
    if |s| > 0 && IsWhitespace(s[0]) then TrimStart(s[1..]) else s
  }

  function TrimEnd(s: string): (r: string)
    ensures |r| <= |s| && r == s[..|r|]
    ensures forall k :: |r| <= k < |s| ==> IsWhitespace(s[k])
    ensures |r| > 0 ==> !IsWhitespace(r[|r| - 1])
    decreases |s|
  {
    if |s| > 0 && IsWhitespace(s[|s| - 1]) then TrimEnd(s[..|s| - 1]) else s
  }

  /** `String.trim()`: drops leading and trailing whitespace. */
  function Trim(s: string): (r: string)
  {
    TrimEnd(TrimStart(s))
  }

  /** `trimStart()` leaves nothing exactly when the input is blank. */
  lemma TrimStartEmpty(s: string)
    ensures TrimStart(s) == [] <==> IsBlank(s)
  {
    var r := TrimStart(s);
    if |r| > 0 {
      assert r[0] == s[|s| - |r|];
    }
  }

  /** `trimEnd()` leaves nothing exactly when the input is blank. */
  lemma TrimEndEmpty(s: string)
    ensures TrimEnd(s) == [] <==> IsBlank(s)
  {
    var r := TrimEnd(s);
    if |r| > 0 {
      assert r[|r| - 1] == s[|r| - 1];
    }
  }

  /** `trim()` leaves a blank result exactly when the input was blank, and never blank edges otherwise. */
  lemma TrimBlank(s: string)
    ensures IsBlank(Trim(s)) <==> IsBlank(s)
    ensures IsBlank(Trim(s)) <==> Trim(s) == []
    ensures |Trim(s)| > 0 ==> !IsWhitespace(Trim(s)[0]) && !IsWhitespace(Trim(s)[|Trim(s)| - 1])
  {
    var a := TrimStart(s);
    var r := TrimEnd(a);
    assert Trim(s) == r;
    TrimStartEmpty(s);
    TrimEndEmpty(a);
    TrimEndEmpty(r);
  }

  /** `substringBefore(delimiter)`: the text before the first occurrence, or all of `s`. */
  function SubstringBefore(s: string, delim: string): (r: string)
  {
    match IndexOf(s, delim, 0)
    case Some(k) => s[..k]
    case None => s
  }

  // ---- Decimal numbers --------------------------------------------------

  /** The largest value of a Kotlin `Int`. */
  const MaxInt: int := 0x7FFF_FFFF

  predicate AllDigits(s: string) {
    forall k :: 0 <= k < |s| ==> IsDigit(s[k])
  }

  /** The value of a run of decimal digits, most significant first. */
  function DigitsValue(s: string): nat
    requires AllDigits(s)
  {
    if |s| == 0 then 0 else 10 * DigitsValue(s[..|s| - 1]) + (s[|s| - 1] as int - '0' as int)
  }

  function DigitChar(d: nat): (c: char)
    requires d < 10
    ensures IsDigit(c) && c as int - '0' as int == d
  {
    ('0' as int + d) as char
  }

  /** `Int.toString()` for a non-negative value: its shortest decimal form. */
  function DecimalString(n: nat): (s: string)
    ensures |s| > 0 && AllDigits(s)
    ensures |s| > 1 ==> s[0] != '0'
  {
    if n < 10 then [DigitChar(n)] else DecimalString(n / 10) + [DigitChar(n % 10)]
  }

  /** Reading the decimal form of `n` back gives `n`. */
  lemma {:induction false} DecimalRoundTrip(n: nat)
    ensures DigitsValue(DecimalString(n)) == n
  {
    var s := DecimalString(n);
    if n >= 10 {
      DecimalRoundTrip(n / 10);
      assert s[..|s| - 1] == DecimalString(n / 10);
    }
  }

  /** Kotlin string templates on an `Int`: a leading `-` for negative values. */
  function IntToString(i: int): (s: string)
    ensures i >= 0 ==> s == DecimalString(i)
    ensures i < 0 ==> s == "-" + DecimalString(-i)
  {
    if i >= 0 then DecimalString(i) else "-" + DecimalString(-i)
  }

  /**
   * `String.toIntOrNull()` on a run of ASCII digits: its value when that fits
   * in a Kotlin `Int`, null when it is empty or too large.
   */
  function ToIntOrNull(s: string): (r: Option<int>)
    requires AllDigits(s)
    ensures r.Some? <==> |s| > 0 && DigitsValue(s) <= MaxInt
    ensures r.Some? ==> 0 <= r.value <= MaxInt && r.value == DigitsValue(s)
  {
    if |s| > 0 && DigitsValue(s) <= MaxInt then Some(DigitsValue(s)) else None
  }

  /** Every non-negative `Int` survives formatting and parsing. */
  lemma ToIntOrNullRoundTrip(n: nat)
    requires n <= MaxInt
    ensures ToIntOrNull(IntToString(n)) == Some(n)
  {
    DecimalRoundTrip(n);
  }
}
