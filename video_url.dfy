/**
 * `findVideoUrl`, the stream-URL extractor both providers carry (the two
 * copies are identical).  It tries three regular expressions in order and
 * returns group 1 of the first leftmost match that passes a final check:
 *   rule a  (?:file|src|source)\s*[:=]\s*['"]([^'"]+\.(?:m3u8|mp4)[^'"]*)['"]
 *   rule b  ['"]([^'"]+\.(?:m3u8|mp4)[^'"]*)['"]
 *   rule c  (https?://[^\s'"]+\.(?:m3u8|mp4)[^\s'"]*)
 *
 * Each rule is given twice: a declarative predicate `CaptureAt(rule, s, i, g)`
 * saying that a match of the rule starting at index `i` captures `g` (the
 * language of the pattern, with greedy quantifiers deciding the one choice
 * they leave open), and a hand-written matcher.  The matcher is proved to
 * return exactly the captures the predicate admits, so the capture at each
 * position is unique and `Find` is the least matching position.
 */
module VideoUrl {
  import opened Options
  import opened Text

  datatype Rule = FileKey | Quoted | BareUrl

  /** One successful `Regex.find`: where the match starts and its group 1. */
  datatype Match = Match(start: nat, group: string)

  predicate IsQuote(c: char) { c == '\'' || c == '"' }
  predicate NotQuote(c: char) { !IsQuote(c) }
  predicate NotSpaceOrQuote(c: char) { !IsRegexSpace(c) && !IsQuote(c) }
  predicate IsAssign(c: char) { c == ':' || c == '=' }

  predicate NoQuote(g: string) { forall k :: 0 <= k < |g| ==> NotQuote(g[k]) }
  predicate NoSpaceOrQuote(g: string) { forall k :: 0 <= k < |g| ==> NotSpaceOrQuote(g[k]) }

  /** `\.(?:m3u8|mp4)` matches at index `d` of `g`. */
  predicate ExtAt(g: string, d: nat) {
    OccursAt(g, ".m3u8", d) || OccursAt(g, ".mp4", d)
  }

  /** The extension occurs at some index `>= from` (so at least `from` characters precede it). */
  ghost predicate ExtFrom(g: string, from: nat) {
    exists d: nat :: from <= d && ExtAt(g, d)
  }

  function HasExtFrom(g: string, from: nat): (b: bool)
    ensures b <==> ExtFrom(g, from)
    decreases |g| - from
  {
    if from + 4 > |g| then
      assert forall d: nat :: from <= d ==> !ExtAt(g, d);
      false
    else if ExtAt(g, from) then true
    else HasExtFrom(g, from + 1)
  }

  /** Every character of `s[lo..hi]` is `\s`. */
  ghost predicate Spaces(s: string, lo: nat, hi: nat) {
    hi <= |s| && forall t :: lo <= t < hi ==> IsRegexSpace(s[t])
  }

  // ---- What each rule captures -----------------------------------------

  /** `['"]([^'"]+\.(?:m3u8|mp4)[^'"]*)['"]` matches from `i`, capturing `g`. */
  ghost predicate QuotedAt(s: string, i: nat, g: string) {
    && i + |g| + 1 < |s|
    && IsQuote(s[i])
    && s[i + 1..i + 1 + |g|] == g
    && IsQuote(s[i + 1 + |g|])
    && NoQuote(g)
    && ExtFrom(g, 1)
  }

  /** One of the keywords `file`, `src`, `source` (of length `n`) starts at `i`. */
  ghost predicate KeywordAt(s: string, i: nat, n: nat) {
    (n == 4 && OccursAt(s, "file", i)) || (n == 3 && OccursAt(s, "src", i)) || (n == 6 && OccursAt(s, "source", i))
  }

  /** `(?:file|src|source)\s*[:=]\s*` matches `s[i..q]`. */
  ghost predicate KeyAssign(s: string, i: nat, q: nat) {
    exists n: nat, a: nat ::
      KeywordAt(s, i, n) && i + n <= a < q <= |s| && Spaces(s, i + n, a) && IsAssign(s[a]) && Spaces(s, a + 1, q)
  }

  /** Rule a matches from `i`, capturing `g`. */
  ghost predicate FileKeyAt(s: string, i: nat, g: string) {
    exists q: nat :: KeyAssign(s, i, q) && QuotedAt(s, q, g)
  }

  /**
   * Rule c matches from `i`, capturing `g`: `https?://` and then characters
   * other than `\s` and quotes, with an extension after at least one of
   * them; the greedy trailing `[^\s'"]*` stops only at a space, a quote or
   * the end of the text.
   */
  ghost predicate BareUrlAt(s: string, i: nat, g: string) {
    && i + |g| <= |s|
    && s[i..i + |g|] == g
    && NoSpaceOrQuote(g)
    && ((StartsWith(g, "https://") && ExtFrom(g, 9)) || (StartsWith(g, "http://") && ExtFrom(g, 8)))
    && (i + |g| == |s| || !NotSpaceOrQuote(s[i + |g|]))
  }

  ghost predicate CaptureAt(r: Rule, s: string, i: nat, g: string) {
    match r
    case FileKey => FileKeyAt(s, i, g)
    case Quoted => QuotedAt(s, i, g)
    case BareUrl => BareUrlAt(s, i, g)
  }

  /** `Regex.find` returns a match starting at `i`: one starts there and none starts earlier. */
  ghost predicate Leftmost(r: Rule, s: string, i: nat, g: string) {
    CaptureAt(r, s, i, g) && forall k: nat, g': string :: k < i ==> !CaptureAt(r, s, k, g')
  }

  ghost predicate NoCapture(r: Rule, s: string) {
    forall i: nat, g: string :: !CaptureAt(r, s, i, g)
  }

  // ---- Hand-written matchers --------------------------------------------

  function MatchQuoted(s: string, i: nat): (r: Option<string>)
    ensures r.Some? ==> QuotedAt(s, i, r.value)
    ensures forall g :: QuotedAt(s, i, g) ==> r == Some(g)
  {
    if i < |s| && IsQuote(s[i]) then
      var j := SkipWhile(s, i + 1, NotQuote);
      var g := s[i + 1..j];
      assert NoQuote(g);
      assert forall g' :: QuotedAt(s, i, g') ==> g' == g by {
        forall g' | QuotedAt(s, i, g') ensures g' == g {
          SkipWhileUnique(s, i + 1, NotQuote, i + 1 + |g'|);
        }
      }
      if j < |s| && HasExtFrom(g, 1) then Some(g) else None
    else None
  }

  /** The length of the keyword of rule a starting at `i`, or 0. */
  function KeywordLength(s: string, i: nat): (n: nat)
    ensures n > 0 ==> KeywordAt(s, i, n)
    ensures forall m: nat :: KeywordAt(s, i, m) ==> n == m
  {
    if OccursAt(s, "file", i) then
      assert forall m: nat :: KeywordAt(s, i, m) ==> m == 4 by {
        assert s[i] == 'f';
      }
      4
    else if OccursAt(s, "src", i) then
      assert forall m: nat :: KeywordAt(s, i, m) ==> m == 3 by {
        assert s[i + 1] == 'r';
      }
      3
    else if OccursAt(s, "source", i) then 6
    else 0
  }

  function MatchFileKey(s: string, i: nat): (r: Option<string>)
    ensures r.Some? ==> FileKeyAt(s, i, r.value)
    ensures forall g :: FileKeyAt(s, i, g) ==> r == Some(g)
  {
    var n := KeywordLength(s, i);
    if n == 0 then None
    else
      var a := SkipWhile(s, i + n, IsRegexSpace);
      if a < |s| && IsAssign(s[a]) then
        var q := SkipWhile(s, a + 1, IsRegexSpace);
        var r := MatchQuoted(s, q);
        assert r.Some? ==> KeyAssign(s, i, q) by {
          if r.Some? {
            assert KeywordAt(s, i, n) && i + n <= a < q && Spaces(s, i + n, a) && Spaces(s, a + 1, q);
          }
        }
        FileKeyUnique(s, i, n, a, q);
        r
      else
        FileKeyNoAssign(s, i, n, a);
        None
  }

  /** `KeyAssign` with its witnesses named. */
  ghost predicate KeyAssignVia(s: string, i: nat, q: nat, n: nat, a: nat) {
    KeywordAt(s, i, n) && i + n <= a < q <= |s| && Spaces(s, i + n, a) && IsAssign(s[a]) && Spaces(s, a + 1, q)
  }

  lemma KeyAssignWitness(s: string, i: nat, q: nat) returns (n: nat, a: nat)
    requires KeyAssign(s, i, q)
    ensures KeyAssignVia(s, i, q, n, a)
  {
    n, a :| KeywordAt(s, i, n) && i + n <= a < q <= |s| && Spaces(s, i + n, a) && IsAssign(s[a]) && Spaces(s, a + 1, q);
  }

  /** The spaces around the separator are skipped greedily, so the quote position is forced. */
  lemma KeyAssignForced(s: string, i: nat, q: nat, n: nat, a: nat, n': nat, a': nat)
    requires KeyAssignVia(s, i, q, n', a') && n == n'
    requires i + n <= |s| && a == SkipWhile(s, i + n, IsRegexSpace)
    ensures a == a'
    ensures q < |s| && !IsRegexSpace(s[q]) ==> q == SkipWhile(s, a + 1, IsRegexSpace)
  {
    assert !IsRegexSpace(s[a']);
    SkipWhileUnique(s, i + n, IsRegexSpace, a');
    if q < |s| && !IsRegexSpace(s[q]) {
      SkipWhileUnique(s, a + 1, IsRegexSpace, q);
    }
  }

  lemma FileKeyUnique(s: string, i: nat, n: nat, a: nat, q: nat)
    requires KeywordAt(s, i, n) && forall m: nat :: KeywordAt(s, i, m) ==> n == m
    requires i + n <= |s| && a == SkipWhile(s, i + n, IsRegexSpace) && a < |s|
    requires q == SkipWhile(s, a + 1, IsRegexSpace)
    ensures forall g :: FileKeyAt(s, i, g) ==> QuotedAt(s, q, g)
  {
    forall g | FileKeyAt(s, i, g) ensures QuotedAt(s, q, g) {
      var q' := FileKeyQuoted(s, i, g);
      var n', a' := KeyAssignWitness(s, i, q');
      assert !IsRegexSpace(s[q']);
      KeyAssignForced(s, i, q', n, a, n', a');
    }
  }

  lemma FileKeyNoAssign(s: string, i: nat, n: nat, a: nat)
    requires KeywordAt(s, i, n) && forall m: nat :: KeywordAt(s, i, m) ==> n == m
    requires i + n <= |s| && a == SkipWhile(s, i + n, IsRegexSpace)
    requires !(a < |s| && IsAssign(s[a]))
    ensures forall g :: !FileKeyAt(s, i, g)
  {
    forall g | FileKeyAt(s, i, g) ensures false {
      var q' := FileKeyQuoted(s, i, g);
      var n', a' := KeyAssignWitness(s, i, q');
      KeyAssignForced(s, i, q', n, a, n', a');
      assert false;
    }
  }

  function MatchBareUrl(s: string, i: nat): (r: Option<string>)
    ensures r.Some? ==> BareUrlAt(s, i, r.value)
    ensures forall g :: BareUrlAt(s, i, g) ==> r == Some(g)
  {
    if i <= |s| then
      var e := SkipWhile(s, i, NotSpaceOrQuote);
      var g := s[i..e];
      assert NoSpaceOrQuote(g);
      assert forall g' :: BareUrlAt(s, i, g') ==> g' == g by {
        forall g' | BareUrlAt(s, i, g') ensures g' == g {
          SkipWhileUnique(s, i, NotSpaceOrQuote, i + |g'|);
        }
      }
      if (StartsWith(g, "https://") && HasExtFrom(g, 9)) || (StartsWith(g, "http://") && HasExtFrom(g, 8)) then Some(g)
      else None
    else
      assert forall g' :: !BareUrlAt(s, i, g');
      None
  }

  function MatchAt(r: Rule, s: string, i: nat): (m: Option<string>)
    ensures m.Some? ==> CaptureAt(r, s, i, m.value)
    ensures forall g :: CaptureAt(r, s, i, g) ==> m == Some(g)
  {
    match r
    case FileKey => MatchFileKey(s, i)
    case Quoted => MatchQuoted(s, i)
    case BareUrl => MatchBareUrl(s, i)
  }

  /** No rule can match from beyond the end of the text. */
  lemma CaptureInBounds(r: Rule, s: string, i: nat, g: string)
    requires CaptureAt(r, s, i, g)
    ensures i < |s|
  {
    if r == FileKey {
      var q: nat :| KeyAssign(s, i, q) && QuotedAt(s, q, g);
    } else if r == BareUrl {
      assert g[..8] == "https://" || g[..7] == "http://";
    }
  }

  /** `Regex.find(s, from)`: the match at the least position `>= from`. */
  function FindFrom(r: Rule, s: string, from: nat): (m: Option<Match>)
    ensures m.Some? ==> from <= m.value.start && CaptureAt(r, s, m.value.start, m.value.group)
    ensures m.Some? ==> forall k: nat, g: string :: from <= k < m.value.start ==> !CaptureAt(r, s, k, g)
    ensures m.None? ==> forall k: nat, g: string :: from <= k ==> !CaptureAt(r, s, k, g)
    decreases |s| + 1 - from
  {
    if from > |s| then
      assert forall k: nat, g: string :: from <= k ==> !CaptureAt(r, s, k, g) by {
        forall k: nat, g: string | from <= k && CaptureAt(r, s, k, g) ensures false {
          CaptureInBounds(r, s, k, g);
        }
      }
      None
    else match MatchAt(r, s, from)
      case Some(g) => Some(Match(from, g))
      case None => FindFrom(r, s, from + 1)
  }

  /** `Regex.find(s)`. */
  function Find(r: Rule, s: string): (m: Option<Match>)
    ensures m.Some? ==> Leftmost(r, s, m.value.start, m.value.group)
    ensures m.None? <==> NoCapture(r, s)
  {
    FindFrom(r, s, 0)
  }

  // ---- findVideoUrl -----------------------------------------------------

  /** The patterns of `findVideoUrl`, in the order it tries them. */
  const Rules: seq<Rule> := [FileKey, Quoted, BareUrl]

  /** The check applied to a capture before it is returned. */
  predicate Accepted(url: string) {
    !IsBlank(url) && (Contains(url, ".m3u8") || Contains(url, ".mp4"))
  }

  /** The capture of the first pattern in `rules` that finds a match passing the check. */
  function FirstAccepted(rules: seq<Rule>, text: string): (r: Option<string>)
    ensures r.Some? ==> Accepted(r.value)
  {
    if rules == [] then None
    else match Find(rules[0], text)
      case Some(m) =>
        if Accepted(m.group) then Some(m.group) else FirstAccepted(rules[1..], text)
      case None => FirstAccepted(rules[1..], text)
  }

  function FindVideoUrl(text: string): (r: Option<string>)
    ensures r.Some? ==> Accepted(r.value)
  {
    FirstAccepted(Rules, text)
  }

  /** The pattern loop with its early return. */
  method FindVideoUrlLoop(text: string) returns (r: Option<string>)
    ensures r == FindVideoUrl(text)
    ensures r.Some? ==> Accepted(r.value) && NoQuote(r.value)
  {
    var patterns := Rules;
    for k := 0 to |patterns|
      invariant FirstAccepted(patterns[k..], text) == FindVideoUrl(text)
    {
      assert patterns[k..][1..] == patterns[k + 1..];
      var m := Find(patterns[k], text);
      if m.Some? {
        var url := m.value.group;
        if Accepted(url) {
          CaptureProperties(patterns[k], text, m.value.start, url);
          return Some(url);
        }
      }
    }
    return None;
  }

  // ---- Properties -------------------------------------------------------

  /** Every capture of every rule passes the check and holds no quote: the check never rejects. */
  lemma CaptureProperties(r: Rule, s: string, i: nat, g: string)
    requires CaptureAt(r, s, i, g)
    ensures Accepted(g) && NoQuote(g)
  {
    if r == FileKey {
      var q := FileKeyQuoted(s, i, g);
    }
    assert ExtFrom(g, 1);
    ExtFromAccepted(g);
  }

  /** A text with an extension, after at least one character, passes the check. */
  lemma ExtFromAccepted(g: string)
    requires ExtFrom(g, 1)
    ensures Accepted(g)
  {
    var d: nat :| 1 <= d && ExtAt(g, d);
    if OccursAt(g, ".m3u8", d) {
      assert g[d] == g[d..d + 5][0] == '.';
      assert Contains(g, ".m3u8");
    } else {
      assert g[d] == g[d..d + 4][0] == '.';
      assert Contains(g, ".mp4");
    }
    assert !IsWhitespace(g[d]);
  }

  /** A match of rule a contains a match of rule b with the same capture. */
  lemma FileKeyQuoted(s: string, i: nat, g: string) returns (q: nat)
    requires FileKeyAt(s, i, g)
    ensures KeyAssign(s, i, q) && QuotedAt(s, q, g)
  {
    q :| KeyAssign(s, i, q) && QuotedAt(s, q, g);
  }

  /** Rule a matches only where rule b matches too. */
  lemma FileKeyNeedsQuoted(s: string)
    ensures NoCapture(Quoted, s) ==> NoCapture(FileKey, s)
  {
    forall i: nat, g: string | FileKeyAt(s, i, g) ensures !NoCapture(Quoted, s) {
      var q := FileKeyQuoted(s, i, g);
      assert CaptureAt(Quoted, s, q, g);
    }
  }

  ghost predicate FoundBy(r: Rule, s: string, g: string) {
    exists i: nat :: Leftmost(r, s, i, g)
  }

  /** The find of a rule that matches is that leftmost match. */
  lemma LeftmostUnique(r: Rule, s: string, g: string)
    requires FoundBy(r, s, g)
    ensures Find(r, s).Some? && Find(r, s).value.group == g
  {
    var i: nat :| Leftmost(r, s, i, g);
    assert !NoCapture(r, s);
    var m := Find(r, s).value;
    assert CaptureAt(r, s, m.start, m.group);
    assert !(m.start < i);
    assert !(i < m.start);
    assert MatchAt(r, s, i) == Some(g) && MatchAt(r, s, m.start) == Some(m.group);
  }

  /** A rule whose find succeeds has found its leftmost match. */
  lemma FindFound(r: Rule, s: string)
    requires Find(r, s).Some?
    ensures FoundBy(r, s, Find(r, s).value.group)
    ensures Accepted(Find(r, s).value.group) && NoQuote(Find(r, s).value.group)
  {
    var m := Find(r, s).value;
    assert Leftmost(r, s, m.start, m.group);
    CaptureProperties(r, s, m.start, m.group);
  }

  /** `findVideoUrl` unfolded over its three patterns, the check being always passed. */
  lemma FindVideoUrlCases(text: string)
    ensures FindVideoUrl(text) ==
      if Find(FileKey, text).Some? then Some(Find(FileKey, text).value.group)
      else if Find(Quoted, text).Some? then Some(Find(Quoted, text).value.group)
      else if Find(BareUrl, text).Some? then Some(Find(BareUrl, text).value.group)
      else None
  {
    var rs := Rules;
    assert rs[1..] == [Quoted, BareUrl] && rs[1..][1..] == [BareUrl] && rs[1..][1..][1..] == [];
    if Find(FileKey, text).Some? {
      FindFound(FileKey, text);
    } else if Find(Quoted, text).Some? {
      FindFound(Quoted, text);
      assert FirstAccepted(rs, text) == FirstAccepted(rs[1..], text);
    } else {
      assert FirstAccepted(rs, text) == FirstAccepted(rs[1..], text);
      assert FirstAccepted(rs[1..], text) == FirstAccepted(rs[1..][1..], text);
      if Find(BareUrl, text).Some? {
        FindFound(BareUrl, text);
      }
    }
  }

  /**
   * Strict priority: `findVideoUrl` returns the leftmost capture of rule a
   * whenever rule a matches anywhere (even if rules b or c match earlier in
   * the text), else the leftmost capture of rule b, else that of rule c.
   */
  lemma FindVideoUrlPriority(text: string, g: string)
    ensures FindVideoUrl(text) == Some(g) <==>
      || FoundBy(FileKey, text, g)
      || (NoCapture(FileKey, text) && FoundBy(Quoted, text, g))
      || (NoCapture(FileKey, text) && NoCapture(Quoted, text) && FoundBy(BareUrl, text, g))
  {
    FindVideoUrlCases(text);
    forall r: Rule | Find(r, text).Some? ensures FoundBy(r, text, Find(r, text).value.group) {
      FindFound(r, text);
    }
    forall r: Rule | FoundBy(r, text, g) ensures Find(r, text).Some? && Find(r, text).value.group == g {
      LeftmostUnique(r, text, g);
    }
  }

  /**
   * With no match of rule b and none of rule c anywhere, nothing is found;
   * otherwise something is, and it is non-blank, names an `.m3u8` or `.mp4`
   * and holds no quote.
   */
  lemma FindVideoUrlNone(text: string)
    ensures FindVideoUrl(text).None? <==> NoCapture(Quoted, text) && NoCapture(BareUrl, text)
    ensures FindVideoUrl(text).Some? ==> NoQuote(FindVideoUrl(text).value)
  {
    FindVideoUrlCases(text);
    FileKeyNeedsQuoted(text);
    forall r: Rule | Find(r, text).Some? ensures NoQuote(Find(r, text).value.group) {
      FindFound(r, text);
    }
  }
}
